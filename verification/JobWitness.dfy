/** A run in which a refused submission forgets a job that is queued: a queue of one, a history
    of one. While the submitter of "x" is between its halves, "x" is cancelled, evicted and
    submitted again; the refusal then deletes the new, queued "x", which no poller can find. */
module JobWitness {
  import opened JobQueue
  import opened JobSystem
  import opened JobTheorems

  ghost predicate Forgotten(s: State)
  {
    && s.t.queue == [3] && 3 in s.t.records && s.t.records[3].state == Queued
    && s.t.records[3].id == "x" && "x" !in s.t.jobs
  }

  ghost predicate Leads(s: State, steps: seq<Step>)
  {
    Legal(s, steps) && Forgotten(After(s, steps))
  }

  lemma Before(s: State, step: Step, steps: seq<Step>)
    requires Enabled(s, step) && Leads(Apply(s, step), steps)
    ensures Leads(s, [step] + steps)
  {
  }

  /** What the end of the run needs to know of the two records it is about. */
  ghost predicate Cast(s: State)
  {
    && s.t.capacity == 1 && s.t.history == 1
    && 1 in s.t.records && s.t.records[1].id == "x"
    && 1 in s.submits && s.submits[1] == Refusing(1)
  }

  lemma Refuses(s: State) returns (steps: seq<Step>)
    requires Cast(s) && s.t.queue == [3]
    requires 3 in s.t.records && s.t.records[3].state == Queued && s.t.records[3].id == "x"
    ensures Leads(s, steps)
  {
    assert Leads(Apply(s, Refuse(1)), []);
    Before(s, Refuse(1), []);
    steps := [Refuse(1)] + [];
  }

  lemma Sends(s: State) returns (steps: seq<Step>)
    requires Cast(s) && s.t.queue == [] && 3 in s.submits && s.submits[3] == Sending(3)
    requires 3 in s.t.records && s.t.records[3].state == Queued && s.t.records[3].id == "x"
    ensures Leads(s, steps)
  {
    var rest := Refuses(Apply(s, Send(3)));
    Before(s, Send(3), rest);
    steps := [Send(3)] + rest;
  }

  lemma SubmitsAgain(s: State) returns (steps: seq<Step>)
    requires Cast(s) && s.t.queue == [] && 3 !in s.submits && 3 !in s.t.records
    requires s.t.order == ["y"] && s.t.jobs == map["y" := 2]
    requires 2 in s.t.records && s.t.records[2].state == Queued
    ensures Leads(s, steps)
  {
    var t := s.t.(records := s.t.records[3 := NewJob("x", 1)], jobs := s.t.jobs["x" := 3], order := s.t.order + ["x"]);
    assert t.order[0] == "y" && Live(t, "y") && Evict(t) == t;
    var rest := Sends(Apply(s, Submit(3, 3, "x", 1)));
    Before(s, Submit(3, 3, "x", 1), rest);
    steps := [Submit(3, 3, "x", 1)] + rest;
  }

  lemma Receives(s: State) returns (steps: seq<Step>)
    requires Cast(s) && s.t.queue == [0] && 3 !in s.submits && 3 !in s.t.records
    requires s.workers == map[0 := Idle]
    requires s.t.order == ["y"] && s.t.jobs == map["y" := 2]
    requires 2 in s.t.records && s.t.records[2].state == Queued
    ensures Leads(s, steps)
  {
    var rest := SubmitsAgain(Apply(s, Receive(0)));
    Before(s, Receive(0), rest);
    steps := [Receive(0)] + rest;
  }

  lemma Evicts(s: State) returns (steps: seq<Step>)
    requires Cast(s) && s.t.queue == [0] && s.submits == map[1 := Refusing(1)] && s.workers == map[0 := Idle]
    requires s.t.records.Keys == {0, 1} && s.t.records[0].state == Cancelled && s.t.records[1].state == Cancelled
    requires s.t.order == ["z", "x"] && s.t.jobs == map["z" := 0, "x" := 1]
    ensures Leads(s, steps)
  {
    var t0 := s.t.(records := s.t.records[2 := NewJob("y", 1)], jobs := s.t.jobs["y" := 2], order := s.t.order + ["y"]);
    var t1 := t0.(jobs := t0.jobs - {"z"}, order := t0.order[1..]);
    var t2 := t1.(jobs := t1.jobs - {"x"}, order := t1.order[1..]);
    assert t1.order == ["x", "y"] && t2.order == ["y"] && t2.jobs == map["y" := 2];
    assert Evict(t0) == Evict(t1) && Evict(t1) == Evict(t2) && Evict(t2) == t2;
    var rest := Receives(Apply(s, Submit(2, 2, "y", 1)));
    Before(s, Submit(2, 2, "y", 1), rest);
    steps := [Submit(2, 2, "y", 1)] + rest;
  }

  /** "z" waits in the full queue, "x" has just been turned away from it. */
  ghost predicate TurnedAway(s: State)
  {
    && s.t.capacity == 1 && s.t.history == 1
    && s.t.queue == [0] && s.submits == map[1 := Refusing(1)] && s.workers == map[0 := Idle]
    && s.t.records == map[0 := NewJob("z", 1), 1 := NewJob("x", 1)]
    && s.t.order == ["z", "x"] && s.t.jobs == map["z" := 0, "x" := 1]
  }

  lemma Cancels(s: State) returns (steps: seq<Step>)
    requires TurnedAway(s)
    ensures Leads(s, steps)
  {
    var u := Apply(s, Cancel("z"));
    var rest := Evicts(Apply(u, Cancel("x")));
    Before(u, Cancel("x"), rest);
    Before(s, Cancel("z"), [Cancel("x")] + rest);
    steps := [Cancel("z")] + ([Cancel("x")] + rest);
  }

  lemma TurnsAway(s: State) returns (steps: seq<Step>)
    requires s.t == Table(map[0 := NewJob("z", 1)], map["z" := 0], ["z"], [0], 1, 1)
    requires s.submits == map[] && s.workers == map[0 := Idle]
    ensures Leads(s, steps)
  {
    var t := s.t.(records := s.t.records[1 := NewJob("x", 1)], jobs := s.t.jobs["x" := 1], order := s.t.order + ["x"]);
    assert t.order[0] == "z" && Live(t, "z") && Evict(t) == t;
    var u := Apply(s, Submit(1, 1, "x", 1));
    var rest := Cancels(Apply(u, Send(1)));
    Before(u, Send(1), rest);
    Before(s, Submit(1, 1, "x", 1), [Send(1)] + rest);
    steps := [Submit(1, 1, "x", 1)] + ([Send(1)] + rest);
  }

  lemma RefusalCanForgetAQueuedJob() returns (s: State, steps: seq<Step>)
    ensures Init(s) && Legal(s, steps) && Forgotten(After(s, steps))
  {
    s := State(Table(map[], map[], [], [], 1, 1), map[], map[0 := Idle], map[], false, 0);
    var u := Apply(s, Submit(0, 0, "z", 1));
    assert u.t == Table(map[0 := NewJob("z", 1)], map["z" := 0], ["z"], [], 1, 1);
    var v := Apply(u, Send(0));
    assert v.submits == map[] && v.t.queue == [0];
    var rest := TurnsAway(v);
    Before(u, Send(0), rest);
    Before(s, Submit(0, 0, "z", 1), [Send(0)] + rest);
    steps := [Submit(0, 0, "z", 1)] + ([Send(0)] + rest);
  }
}
