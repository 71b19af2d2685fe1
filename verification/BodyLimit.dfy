/** The counted request body: what the application is given, what the client is sent. A call of
    `receive` awaits the server, and a refusal awaits the client; other tasks of the application
    may run in between, so each section between two awaits is a step of its own. */
module BodyLimit {
  import opened Lists

  /** What the server hands up: body bytes, or anything else (a disconnect). */
  datatype Message = Body(size: nat) | Other

  /** What the application sends: the start of its response, or more of it. */
  datatype Sent = Start | More

  /** What a section of `receive` comes to: a message or a disconnect for the application, an
      await on the server, or a refusal to be sent first. */
  datatype Given = Passed(message: Message) | Disconnect | Awaits | Refuses

  datatype Out = App(sent: Sent) | Refusal

  class CountedBody {
    const limit: nat
    var seen: nat
    var started: bool
    var answered: bool
    var wire: seq<Out>
    /** Calls of `receive` awaiting the server, and refusals on their way out. */
    ghost var waiting: nat
    ghost var refusing: nat

    constructor (maxBytes: nat)
      ensures limit == maxBytes && View() == FRESH
    {
      limit, seen, started, answered, wire := maxBytes, 0, false, false, [];
      waiting, refusing := 0, 0;
    }

    ghost function View(): Counted
      reads this
    {
      Counted(seen, started, answered, waiting, refusing, wire)
    }

    /** `receive` up to its await on the server. */
    method Call() returns (given: Given)
      modifies this
      ensures View() == AfterCall(old(View()))
      ensures given == if old(answered) then Disconnect else Awaits
    {
      if answered {
        return Disconnect;
      }
      waiting := waiting + 1;
      given := Awaits;
    }

    /** `receive` from the message's arrival; an answer given meanwhile is not looked for again. */
    method Arrive(message: Message) returns (given: Given)
      requires waiting > 0
      modifies this
      ensures View() == AfterArrival(old(View()), limit, message)
      ensures given == Gets(old(View()), limit, message)
      ensures message.Other? ==> given == Passed(message) && wire == old(wire)
      ensures message.Body? && old(seen) + message.size <= limit ==> given == Passed(message) && wire == old(wire)
      ensures message.Body? && old(seen) + message.size > limit && old(started) ==>
        given == Disconnect && wire == old(wire)
      ensures message.Body? && old(seen) + message.size > limit && !old(started) ==>
        given == Refuses && wire == old(wire) + [Refusal]
    {
      waiting := waiting - 1;
      if message.Other? {
        return Passed(message);
      }
      seen := seen + message.size;
      if seen <= limit {
        return Passed(message);
      }
      if !started {
        wire := wire + [Refusal];
        refusing := refusing + 1;
        return Refuses;
      }
      given := Disconnect;
    }

    /** `receive` once its refusal is out. */
    method RefusalSent() returns (given: Given)
      requires refusing > 0
      modifies this
      ensures View() == AfterRefusal(old(View())) && given == Disconnect
    {
      refusing := refusing - 1;
      answered := true;
      given := Disconnect;
    }

    method Send(sent: Sent)
      modifies this
      ensures View() == AfterSend(old(View()), sent)
      ensures wire == if answered then old(wire) else old(wire) + [App(sent)]
    {
      if answered {
        return;
      }
      if sent.Start? {
        started := true;
      }
      wire := wire + [App(sent)];
    }
  }

  // The same on values

  datatype Counted = Counted(seen: nat, started: bool, answered: bool, waiting: nat, refusing: nat, wire: seq<Out>)

  function AfterCall(c: Counted): Counted
  {
    if c.answered then c else c.(waiting := c.waiting + 1)
  }

  function Gets(c: Counted, limit: nat, m: Message): Given
  {
    if m.Other? || c.seen + m.size <= limit then Passed(m)
    else if c.started then Disconnect
    else Refuses
  }

  function AfterArrival(c: Counted, limit: nat, m: Message): Counted
    requires c.waiting > 0
  {
    var c' := c.(waiting := c.waiting - 1);
    if m.Other? then c'
    else
      var seen := c.seen + m.size;
      if seen <= limit || c.started then c'.(seen := seen)
      else c'.(seen := seen, refusing := c.refusing + 1, wire := c.wire + [Refusal])
  }

  function AfterRefusal(c: Counted): Counted
    requires c.refusing > 0
  {
    c.(refusing := c.refusing - 1, answered := true)
  }

  function AfterSend(c: Counted, sent: Sent): Counted
  {
    if c.answered then c
    else c.(started := c.started || sent.Start?, wire := c.wire + [App(sent)])
  }

  datatype Step = Call | Arrive(message: Message) | RefusalDone | Send(sent: Sent)

  /** An application starts its response before it sends more of it. */
  predicate Enabled(c: Counted, s: Step)
  {
    && (s.Arrive? ==> c.waiting > 0)
    && (s.RefusalDone? ==> c.refusing > 0)
    && (s == Send(More) ==> c.started || c.answered)
  }

  function After(c: Counted, limit: nat, s: Step): Counted
    requires Enabled(c, s)
  {
    match s
    case Call => AfterCall(c)
    case Arrive(m) => AfterArrival(c, limit, m)
    case RefusalDone => AfterRefusal(c)
    case Send(sent) => AfterSend(c, sent)
  }

  const FRESH := Counted(0, false, false, 0, 0, [])

  ghost predicate Run(c: Counted, limit: nat, steps: seq<Step>)
    decreases |steps|
  {
    steps == [] || (Enabled(c, steps[0]) && Run(After(c, limit, steps[0]), limit, steps[1..]))
  }

  ghost function End(c: Counted, limit: nat, steps: seq<Step>): Counted
    requires Run(c, limit, steps)
    decreases |steps|
  {
    if steps == [] then c else End(After(c, limit, steps[0]), limit, steps[1..])
  }

  /** Body bytes the application was given. */
  ghost function Delivered(c: Counted, limit: nat, steps: seq<Step>): nat
    requires Run(c, limit, steps)
    decreases |steps|
  {
    if steps == [] then 0
    else
      var here := match steps[0]
        case Arrive(m) => if m.Body? && Gets(c, limit, m) == Passed(m) then m.size else 0
        case _ => 0;
      here + Delivered(After(c, limit, steps[0]), limit, steps[1..])
  }

  /** The application never gets more than the limit, however it interleaves its calls. */
  lemma {:induction false} NeverMoreThanTheLimit(c: Counted, limit: nat, steps: seq<Step>)
    requires Run(c, limit, steps)
    ensures Delivered(c, limit, steps) <= if c.seen <= limit then limit - c.seen else 0
    decreases |steps|
  {
    if steps != [] {
      NeverMoreThanTheLimit(After(c, limit, steps[0]), limit, steps[1..]);
    }
  }

  lemma Onward(c: Counted, limit: nat, step: Step, rest: seq<Step>)
    requires Enabled(c, step) && Run(After(c, limit, step), limit, rest)
    ensures Run(c, limit, [step] + rest) && End(c, limit, [step] + rest) == End(After(c, limit, step), limit, rest)
  {
    assert ([step] + rest)[1..] == rest;
  }

  // A refusal and a response

  predicate FromApp(wire: seq<Out>)
  {
    App(Start) in wire || App(More) in wire
  }

  predicate Mixed(wire: seq<Out>)
  {
    Refusal in wire && FromApp(wire)
  }

  /** A refusal has begun: it is out, or on its way. */
  predicate Refused(c: Counted)
  {
    c.answered || c.refusing > 0
  }

  predicate Sane(c: Counted)
  {
    && (FromApp(c.wire) <==> c.started)
    && (Refusal in c.wire <==> Refused(c))
    && !Mixed(c.wire)
  }

  /** Whether the application ever sends while a refusal is on its way out. */
  ghost predicate TalksOver(c: Counted, limit: nat, steps: seq<Step>)
    requires Run(c, limit, steps)
    decreases |steps|
  {
    steps != [] &&
    ((steps[0].Send? && c.refusing > 0 && !c.answered) || TalksOver(After(c, limit, steps[0]), limit, steps[1..]))
  }

  lemma {:induction false} MixedStays(c: Counted, limit: nat, steps: seq<Step>)
    requires Run(c, limit, steps) && Mixed(c.wire)
    ensures Mixed(End(c, limit, steps).wire)
    decreases |steps|
  {
    if steps != [] {
      var c' := After(c, limit, steps[0]);
      assert c'.wire[..|c.wire|] == c.wire;
      assert forall x | x in c.wire :: x in c'.wire;
      MixedStays(c', limit, steps[1..]);
    }
  }

  /** The client is sent both a refusal and an application response exactly when the application
      sends while a refusal is still on its way out. */
  lemma {:induction false} MixedExactlyWhenTalkedOver(c: Counted, limit: nat, steps: seq<Step>)
    requires Run(c, limit, steps) && Sane(c)
    ensures Mixed(End(c, limit, steps).wire) <==> TalksOver(c, limit, steps)
    decreases |steps|
  {
    if steps != [] {
      var c' := After(c, limit, steps[0]);
      OneStepOnTheWire(c, limit, steps[0]);
      if Sane(c') {
        MixedExactlyWhenTalkedOver(c', limit, steps[1..]);
      } else {
        MixedStays(c', limit, steps[1..]);
      }
    }
  }

  lemma OneStepOnTheWire(c: Counted, limit: nat, s: Step)
    requires Enabled(c, s) && Sane(c)
    ensures var over := s.Send? && c.refusing > 0 && !c.answered;
      if over then Mixed(After(c, limit, s).wire) else Sane(After(c, limit, s))
  {
  }

  /** An application that streams its response from one task while it reads from another can have
      its response start on the wire after the refusal's did. */
  lemma ConcurrentCanGetTwoAnswers()
    ensures var steps := [Call, Arrive(Body(2)), Send(Start), RefusalDone];
      Run(FRESH, 1, steps) && End(FRESH, 1, steps).wire == [Refusal, App(Start)]
  {
    var a := After(FRESH, 1, Call);
    var b := After(a, 1, Arrive(Body(2)));
    var d := After(b, 1, Send(Start));
    Onward(d, 1, RefusalDone, []);
    Onward(b, 1, Send(Start), [RefusalDone] + []);
    Onward(a, 1, Arrive(Body(2)), [Send(Start)] + ([RefusalDone] + []));
    Onward(FRESH, 1, Call, [Arrive(Body(2))] + ([Send(Start)] + ([RefusalDone] + [])));
    assert [Call] + ([Arrive(Body(2))] + ([Send(Start)] + ([RefusalDone] + [])))
        == [Call, Arrive(Body(2)), Send(Start), RefusalDone];
  }

  // One refusal, or several

  function Refusals(wire: seq<Out>): nat
  {
    if wire == [] then 0
    else Refusals(wire[..|wire| - 1]) + if wire[|wire| - 1] == Refusal then 1 else 0
  }

  lemma RefusalsGrow(wire: seq<Out>, out: Out)
    ensures Refusals(wire + [out]) == Refusals(wire) + if out == Refusal then 1 else 0
  {
    assert (wire + [out])[..|wire|] == wire;
  }

  /** A part of the body arrives, at a call of `receive` made before, when a refusal has begun
      and no response has. */
  predicate Late(c: Counted, s: Step)
  {
    s.Arrive? && s.message.Body? && Refused(c) && !c.started
  }

  ghost function LateArrivals(c: Counted, limit: nat, steps: seq<Step>): nat
    requires Run(c, limit, steps)
    decreases |steps|
  {
    if steps == [] then 0
    else (if Late(c, steps[0]) then 1 else 0) + LateArrivals(After(c, limit, steps[0]), limit, steps[1..])
  }

  /** Once a refusal has begun the body is known to be over the limit. */
  predicate Over(c: Counted, limit: nat)
  {
    Refused(c) ==> c.seen > limit
  }

  /** Every part of the body that arrives late is refused again; there is no other way to a second
      refusal. */
  lemma {:induction false} RefusalsAreCounted(c: Counted, limit: nat, steps: seq<Step>)
    requires Run(c, limit, steps) && Over(c, limit)
    ensures Refusals(End(c, limit, steps).wire) ==
      Refusals(c.wire) + LateArrivals(c, limit, steps)
      + if !Refused(c) && Refused(End(c, limit, steps)) then 1 else 0
    ensures Refused(c) ==> Refused(End(c, limit, steps))
    decreases |steps|
  {
    if steps != [] {
      var c' := After(c, limit, steps[0]);
      RefusalsGrow(c.wire, Refusal);
      if steps[0].Send? {
        RefusalsGrow(c.wire, App(steps[0].sent));
      }
      RefusalsAreCounted(c', limit, steps[1..]);
    }
  }

  /** So the client is refused more than once exactly when a part of the body arrives at a
      `receive` still waiting when a refusal has begun and no response has. */
  lemma RefusedTwiceExactlyWhenLate(limit: nat, steps: seq<Step>)
    requires Run(FRESH, limit, steps)
    ensures Refusals(End(FRESH, limit, steps).wire) >= 2 <==> LateArrivals(FRESH, limit, steps) > 0
  {
    RefusalsAreCounted(FRESH, limit, steps);
    if LateArrivals(FRESH, limit, steps) > 0 {
      LateMeansRefused(FRESH, limit, steps);
    }
  }

  lemma {:induction false} LateMeansRefused(c: Counted, limit: nat, steps: seq<Step>)
    requires Run(c, limit, steps) && Over(c, limit) && (Refused(c) || LateArrivals(c, limit, steps) > 0)
    ensures Refused(End(c, limit, steps))
    decreases |steps|
  {
    if steps != [] {
      LateMeansRefused(After(c, limit, steps[0]), limit, steps[1..]);
    }
  }

  /** Two tasks in `receive` at once can have the client refused twice, even by an empty part. */
  lemma OverlappingReceivesCanRefuseTwice()
    ensures var steps := [Call, Call, Arrive(Body(2)), RefusalDone, Arrive(Body(0))];
      Run(FRESH, 1, steps) && End(FRESH, 1, steps).wire == [Refusal, Refusal]
  {
    var a := After(FRESH, 1, Call);
    var b := After(a, 1, Call);
    var d := After(b, 1, Arrive(Body(2)));
    var e := After(d, 1, RefusalDone);
    Onward(e, 1, Arrive(Body(0)), []);
    Onward(d, 1, RefusalDone, [Arrive(Body(0))] + []);
    Onward(b, 1, Arrive(Body(2)), [RefusalDone] + ([Arrive(Body(0))] + []));
    TwoCalls([Arrive(Body(2))] + ([RefusalDone] + ([Arrive(Body(0))] + [])));
    assert [Call, Call] + ([Arrive(Body(2))] + ([RefusalDone] + ([Arrive(Body(0))] + [])))
        == [Call, Call, Arrive(Body(2)), RefusalDone, Arrive(Body(0))];
  }

  lemma TwoCalls(rest: seq<Step>)
    requires Run(After(After(FRESH, 1, Call), 1, Call), 1, rest)
    ensures Run(FRESH, 1, [Call, Call] + rest)
    ensures End(FRESH, 1, [Call, Call] + rest) == End(After(After(FRESH, 1, Call), 1, Call), 1, rest)
  {
    Onward(After(FRESH, 1, Call), 1, Call, rest);
    Onward(FRESH, 1, Call, [Call] + rest);
    assert [Call] + ([Call] + rest) == [Call, Call] + rest;
  }

  // Applications that wait their turn

  /** `receive` is called only when no other call of it is under way. */
  ghost predicate OneReader(c: Counted, limit: nat, steps: seq<Step>)
    requires Run(c, limit, steps)
    decreases |steps|
  {
    steps != [] ==>
      && (steps[0].Call? ==> c.waiting == 0 && c.refusing == 0)
      && OneReader(After(c, limit, steps[0]), limit, steps[1..])
  }

  lemma {:induction false} OneReaderIsNeverLate(c: Counted, limit: nat, steps: seq<Step>)
    requires Run(c, limit, steps) && OneReader(c, limit, steps)
    requires c.waiting + c.refusing <= 1 && (c.answered ==> c.waiting + c.refusing == 0)
    ensures LateArrivals(c, limit, steps) == 0
    decreases |steps|
  {
    if steps != [] {
      OneReaderIsNeverLate(After(c, limit, steps[0]), limit, steps[1..]);
    }
  }

  /** An application that reads from one place is refused at most once, whatever it sends. */
  lemma OneReaderIsRefusedOnce(limit: nat, steps: seq<Step>)
    requires Run(FRESH, limit, steps) && OneReader(FRESH, limit, steps)
    ensures Refusals(End(FRESH, limit, steps).wire) <= 1
  {
    OneReaderIsNeverLate(FRESH, limit, steps);
    RefusalsAreCounted(FRESH, limit, steps);
  }

  /** An application that awaits every call before it makes the next. */
  ghost predicate Sequential(c: Counted, limit: nat, steps: seq<Step>)
    requires Run(c, limit, steps)
    decreases |steps|
  {
    steps != [] ==>
      && (c.waiting + c.refusing > 0 ==> steps[0].Arrive? || steps[0].RefusalDone?)
      && Sequential(After(c, limit, steps[0]), limit, steps[1..])
  }

  lemma {:induction false} SequentialWaitsItsTurn(c: Counted, limit: nat, steps: seq<Step>)
    requires Run(c, limit, steps) && Sequential(c, limit, steps)
    ensures OneReader(c, limit, steps) && !TalksOver(c, limit, steps)
    decreases |steps|
  {
    if steps != [] {
      SequentialWaitsItsTurn(After(c, limit, steps[0]), limit, steps[1..]);
    }
  }

  /** A sequential application's client gets one answer: its response, or one refusal. */
  lemma SequentialGetsOneAnswer(limit: nat, steps: seq<Step>)
    requires Run(FRESH, limit, steps) && Sequential(FRESH, limit, steps)
    ensures !Mixed(End(FRESH, limit, steps).wire) && Refusals(End(FRESH, limit, steps).wire) <= 1
  {
    SequentialWaitsItsTurn(FRESH, limit, steps);
    MixedExactlyWhenTalkedOver(FRESH, limit, steps);
    OneReaderIsRefusedOnce(limit, steps);
  }

  // When it stays out of the way, and when it does not

  function TotalBody(steps: seq<Step>): nat
  {
    if steps == [] then 0
    else (if steps[0].Arrive? && steps[0].message.Body? then steps[0].message.size else 0) + TotalBody(steps[1..])
  }

  function SentBy(steps: seq<Step>): seq<Out>
  {
    if steps == [] then []
    else (if steps[0].Send? then [App(steps[0].sent)] else []) + SentBy(steps[1..])
  }

  /** A body within the limit reaches the application whole and the response is untouched. */
  lemma {:induction false} FittingBodiesPassUntouched(c: Counted, limit: nat, steps: seq<Step>)
    requires Run(c, limit, steps)
    requires !Refused(c) && c.seen + TotalBody(steps) <= limit
    ensures Delivered(c, limit, steps) == TotalBody(steps)
    ensures End(c, limit, steps).wire == c.wire + SentBy(steps)
    decreases |steps|
  {
    if steps != [] {
      var first := if steps[0].Send? then [App(steps[0].sent)] else [];
      FittingBodiesPassUntouched(After(c, limit, steps[0]), limit, steps[1..]);
      Regroup(c.wire, first, SentBy(steps[1..]));
      assert After(c, limit, steps[0]).wire == c.wire + first;
    } else {
      assert c.wire + [] == c.wire;
    }
  }

  function Repeated(n: nat): seq<Out>
  {
    seq(n, _ => Refusal)
  }

  /** Once answered, no more of the body is delivered and no response is sent; what still goes out
      is one refusal for each part of the body arriving at a `receive` already waiting. */
  lemma {:induction false} AnsweredIsFinal(c: Counted, limit: nat, steps: seq<Step>)
    requires Run(c, limit, steps) && c.answered && !c.started && c.seen > limit
    ensures Delivered(c, limit, steps) == 0
    ensures LateArrivals(c, limit, steps) <= c.waiting
    ensures End(c, limit, steps).wire == c.wire + Repeated(LateArrivals(c, limit, steps))
    decreases |steps|
  {
    if steps != [] {
      var c' := After(c, limit, steps[0]);
      var late := LateArrivals(c', limit, steps[1..]);
      AnsweredIsFinal(c', limit, steps[1..]);
      assert [Refusal] + Repeated(late) == Repeated(late + 1);
      Regroup(c.wire, [Refusal], Repeated(late));
    } else {
      assert c.wire + Repeated(0) == c.wire;
    }
  }

  /** A body that goes over the limit before the response began is refused, and all the client
      gets after that is a further refusal for each late part - none if no other `receive` was
      waiting. */
  lemma OversizedBodyIsRefused(c: Counted, limit: nat, m: Message, steps: seq<Step>)
    requires Sane(c) && !c.started && !Refused(c) && c.waiting > 0
    requires m.Body? && c.seen + m.size > limit
    requires steps != [] && steps[0].RefusalDone? && Run(After(c, limit, Arrive(m)), limit, steps)
    ensures Gets(c, limit, m) == Refuses
    ensures var c' := After(c, limit, Arrive(m));
      && Delivered(c', limit, steps) == 0
      && LateArrivals(c', limit, steps) <= c.waiting - 1
      && End(c', limit, steps).wire == c.wire + [Refusal] + Repeated(LateArrivals(c', limit, steps))
  {
    var c' := After(c, limit, Arrive(m));
    AnsweredIsFinal(After(c', limit, steps[0]), limit, steps[1..]);
  }
}
