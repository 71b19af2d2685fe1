/** One identity's life: how request outcomes, promotions, proxy failures, resets and
    retirement move its row. */
module IdentityLife {
  import opened Options

  datatype State = Minting | Active | Cooling | Degraded | Retired

  datatype Outcome = Ok | BusinessError | NetworkError | RiskControl

  datatype Row = Row(
    platform: string, state: State, fails: nat, cooldownUntil: Option<int>, jar: string,
    minted: bool, authenticated: bool, reserved: bool, proxy: Option<nat>,
    retiredAt: Option<int>, reason: string, lastUsedAt: Option<int>)

  datatype Backoff = Backoff(base: nat, maximum: nat, weight: real)

  datatype Event =
    | Request(outcome: Outcome, now: int, backoff: Backoff)
    | Promote(now: int)
    | ProxyDown(now: int, seconds: int)
    | Reset
    | Retire(now: int, reason: string)

  function Pow2(n: nat): nat
  {
    if n == 0 then 1 else 2 * Pow2(n - 1)
  }

  /** Capped before the power, so that a long streak cannot overflow. */
  function Exponent(streak: nat): nat
  {
    if streak == 0 then 0 else if streak - 1 > 32 then 32 else streak - 1
  }

  function RawCooldown(b: Backoff, streak: nat): real
  {
    (b.base * Pow2(Exponent(streak))) as real * b.weight
  }

  /** A float made an integer: the fraction is dropped, towards zero. */
  function Truncate(x: real): int
  {
    if x >= 0.0 then x.Floor else -((-x).Floor)
  }

  /** Exponential backoff, capped. */
  function CooldownSeconds(b: Backoff, streak: nat): int
  {
    var raw := RawCooldown(b, streak);
    Truncate(if b.maximum as real < raw then b.maximum as real else raw)
  }

  function Recorded(b: Backoff, row: Row, outcome: Outcome, now: int): Row
  {
    var used := row.(lastUsedAt := Some(now));
    match outcome
    case Ok =>
      if row.state == Cooling then used.(fails := 0, state := Active, cooldownUntil := None)
      else used.(fails := 0)
    case BusinessError => used
    case NetworkError => used.(fails := row.fails + 1)
    case RiskControl =>
      var seconds := CooldownSeconds(b, row.fails + 1);
      used.(
        fails := row.fails + 1,
        cooldownUntil := Some(now + seconds),
        state := if seconds >= b.maximum then Degraded else Cooling)
  }

  predicate Elapsed(row: Row, now: int)
  {
    row.cooldownUntil.None? || row.cooldownUntil.value <= now
  }

  function Promoted(row: Row, now: int): Row
  {
    if (row.state.Cooling? || row.state.Degraded?) && Elapsed(row, now)
    then row.(state := Active, cooldownUntil := None) else row
  }

  function Cooled(row: Row, now: int, seconds: int): Row
  {
    if row.state.Active? || row.state.Degraded?
    then row.(state := Cooling, cooldownUntil := Some(now + seconds)) else row
  }

  /** A retired identity is not resettable: the request is refused and nothing changes. */
  function WasReset(row: Row): Row
  {
    if row.state.Retired? then row else row.(state := Active, cooldownUntil := None, fails := 0)
  }

  function WasRetired(row: Row, now: int, reason: string): Row
  {
    row.(state := Retired, retiredAt := Some(now), reason := reason, jar := "")
  }

  function Step(row: Row, event: Event): Row
  {
    match event
    case Request(outcome, now, backoff) => Recorded(backoff, row, outcome, now)
    case Promote(now) => Promoted(row, now)
    case ProxyDown(now, seconds) => Cooled(row, now, seconds)
    case Reset => WasReset(row)
    case Retire(now, reason) => WasRetired(row, now, reason)
  }

  function Live(row: Row, history: seq<Event>): Row
  {
    if history == [] then row else Step(Live(row, history[..|history| - 1]), history[|history| - 1])
  }

  lemma LiveThen(row: Row, history: seq<Event>, event: Event)
    ensures Live(row, history + [event]) == Step(Live(row, history), event)
  {
  }

  // The streak

  predicate Clears(event: Event)
  {
    event.Reset? || (event.Request? && event.outcome.Ok?)
  }

  predicate Fails(event: Event)
  {
    event.Request? && (event.outcome.NetworkError? || event.outcome.RiskControl?)
  }

  function CountFails(history: seq<Event>): nat
  {
    if history == [] then 0
    else CountFails(history[..|history| - 1]) + (if Fails(history[|history| - 1]) then 1 else 0)
  }

  /** What follows the last success or reset. */
  function SinceLastClear(history: seq<Event>): (r: seq<Event>)
    ensures |r| <= |history| && r == history[|history| - |r|..]
    ensures forall e | e in r :: !Clears(e)
    ensures |r| < |history| ==> Clears(history[|history| - |r| - 1])
  {
    if history == [] then []
    else if Clears(history[|history| - 1]) then []
    else
      var r := SinceLastClear(history[..|history| - 1]) + [history[|history| - 1]];
      assert r == history[|history| - |r|..];
      r
  }

  ghost predicate NeverRetired(history: seq<Event>)
  {
    forall i | 0 <= i < |history| :: !history[i].Retire?
  }

  lemma {:induction false} StepMovesStreak(row: Row, event: Event)
    requires !row.state.Retired? && !event.Retire?
    ensures var after := Step(row, event);
      && !after.state.Retired?
      && after.fails == if Clears(event) then 0 else row.fails + (if Fails(event) then 1 else 0)
  {
  }

  lemma {:induction false} OneMoreSince(history: seq<Event>)
    requires history != []
    ensures var last, init := history[|history| - 1], history[..|history| - 1];
      CountFails(SinceLastClear(history)) ==
        if Clears(last) then 0 else CountFails(SinceLastClear(init)) + (if Fails(last) then 1 else 0)
  {
  }

  /** The streak of a live identity is the network and risk failures since its last success or
      reset, whatever promotions, cooldowns and business errors came between. */
  lemma {:induction false} StreakCountsFailures(row: Row, history: seq<Event>)
    requires NeverRetired(history) && row.fails == 0 && !row.state.Retired?
    ensures Live(row, history).fails == CountFails(SinceLastClear(history))
    ensures !Live(row, history).state.Retired?
  {
    if history == [] {
      assert SinceLastClear(history) == [];
    } else {
      var init := history[..|history| - 1];
      assert NeverRetired(init);
      StreakCountsFailures(row, init);
      StreakAfterOneMore(row, history);
    }
  }

  lemma {:induction false} StreakAfterOneMore(row: Row, history: seq<Event>)
    requires history != [] && !history[|history| - 1].Retire?
    requires Live(row, history[..|history| - 1]).fails == CountFails(SinceLastClear(history[..|history| - 1]))
    requires !Live(row, history[..|history| - 1]).state.Retired?
    ensures Live(row, history).fails == CountFails(SinceLastClear(history))
    ensures !Live(row, history).state.Retired?
  {
    var n := |history| - 1;
    StepMovesStreak(Live(row, history[..n]), history[n]);
    OneMoreSince(history);
  }

  // Business errors

  function WithoutBusinessErrors(history: seq<Event>): seq<Event>
  {
    if history == [] then []
    else
      var n := |history| - 1;
      WithoutBusinessErrors(history[..n]) +
        (if history[n].Request? && history[n].outcome.BusinessError? then [] else [history[n]])
  }

  /** All a request outcome can decide: everything but when the identity was last used. */
  function Standing(row: Row): Row
  {
    row.(lastUsedAt := None)
  }

  /** Business errors say nothing of the identity: erase every one from a history and the
      identity stands exactly where it did. */
  lemma {:induction false} BusinessErrorsChangeNothing(row: Row, history: seq<Event>)
    ensures Standing(Live(row, history)) == Standing(Live(row, WithoutBusinessErrors(history)))
  {
    if history != [] {
      var n := |history| - 1;
      BusinessErrorsChangeNothing(row, history[..n]);
      var kept := WithoutBusinessErrors(history[..n]);
      StandingDecides(Live(row, history[..n]), Live(row, kept), history[n]);
      LiveThen(row, kept, history[n]);
      assert kept + [] == kept;
    }
  }

  lemma {:induction false} StandingDecides(r1: Row, r2: Row, event: Event)
    requires Standing(r1) == Standing(r2)
    ensures Standing(Step(r1, event)) == Standing(Step(r2, event))
  {
    OnlyStandingMatters(r1, event);
    OnlyStandingMatters(r2, event);
  }

  lemma {:induction false} OnlyStandingMatters(row: Row, event: Event)
    ensures Standing(Step(row, event)) == Standing(Step(Standing(row), event))
  {
    if event.Request? {
      OnlyStandingIsRecorded(event.backoff, row, event.outcome, event.now);
    }
  }

  lemma {:induction false} OnlyStandingIsRecorded(b: Backoff, row: Row, outcome: Outcome, now: int)
    ensures Standing(Recorded(b, row, outcome, now)) == Standing(Recorded(b, Standing(row), outcome, now))
  {
    match outcome {
      case Ok =>
      case BusinessError =>
      case NetworkError =>
      case RiskControl =>
        assert CooldownSeconds(b, Standing(row).fails + 1) == CooldownSeconds(b, row.fails + 1);
    }
  }

  /** An identity was last used when its last request, of whatever outcome, was recorded; nothing
      else counts as use. */
  lemma {:induction false} LastUsedByLastRequest(row: Row, history: seq<Event>)
    ensures (forall i | 0 <= i < |history| :: !history[i].Request?) ==>
      Live(row, history).lastUsedAt == row.lastUsedAt
    ensures forall i | 0 <= i < |history| && history[i].Request?
      && (forall j | i < j < |history| :: !history[j].Request?) ::
      Live(row, history).lastUsedAt == Some(history[i].now)
  {
    if history != [] {
      var n := |history| - 1;
      LastUsedByLastRequest(row, history[..n]);
      assert forall i | 0 <= i < n :: history[..n][i] == history[i];
      UseOfStep(Live(row, history[..n]), history[n]);
    }
  }

  lemma UseOfStep(row: Row, event: Event)
    ensures Step(row, event).lastUsedAt == if event.Request? then Some(event.now) else row.lastUsedAt
  {
  }

  // Cooldowns

  /** A row waits exactly while it is cooling or degraded. */
  ghost predicate WaitsRightly(row: Row)
  {
    && (row.state.Active? || row.state.Minting? ==> row.cooldownUntil.None?)
    && (row.state.Cooling? || row.state.Degraded? ==> row.cooldownUntil.Some?)
  }

  /** From any such row, through any history at all: an active identity has no cooldown, and
      every cooling or degraded one has a deadline to be promoted at. */
  lemma {:induction false} ActiveMeansNoCooldown(row: Row, history: seq<Event>)
    requires WaitsRightly(row)
    ensures WaitsRightly(Live(row, history))
  {
    if history != [] {
      ActiveMeansNoCooldown(row, history[..|history| - 1]);
      StepWaitsRightly(Live(row, history[..|history| - 1]), history[|history| - 1]);
    }
  }

  lemma {:induction false} StepWaitsRightly(row: Row, event: Event)
    requires WaitsRightly(row)
    ensures WaitsRightly(Step(row, event))
  {
  }

  /** Nothing in the history cools the identity further, retires it, or runs from the row. */
  predicate Quiet(event: Event)
  {
    !event.Retire? && !event.ProxyDown? && !Risky(event)
  }

  /** A cooling or degraded identity is active after the first promotion at or after its
      deadline, and stays so until something cools it again; before that only a success of a
      cooling identity or a reset brings it back. */
  lemma {:induction false} RecoversAtDeadline(row: Row, history: seq<Event>)
    requires (row.state.Cooling? || row.state.Degraded?) && row.cooldownUntil.Some?
    requires forall i | 0 <= i < |history| :: Quiet(history[i])
    ensures var now := Live(row, history);
      now.state.Active? <==>
        exists i | 0 <= i < |history| ::
          || (history[i].Promote? && history[i].now >= row.cooldownUntil.value)
          || history[i].Reset?
          || (row.state.Cooling? && history[i].Request? && history[i].outcome.Ok?)
    ensures var now := Live(row, history);
      now.state.Active? || (now.state == row.state && now.cooldownUntil == row.cooldownUntil)
  {
    if history != [] {
      var n := |history| - 1;
      RecoversAtDeadline(row, history[..n]);
      assert forall i | 0 <= i < n :: history[..n][i] == history[i];
    }
  }

  // The ceiling

  lemma {:induction false} Pow2IsMonotone(m: nat, n: nat)
    requires m <= n
    ensures Pow2(m) <= Pow2(n)
  {
    if m < n {
      Pow2IsMonotone(m, n - 1);
    }
  }

  lemma ScaleIsMonotone(x: real, y: real, w: real)
    requires x <= y && w >= 0.0
    ensures x * w <= y * w
  {
  }

  lemma TruncateIsMonotone(x: real, y: real)
    requires 0.0 <= x <= y
    ensures 0 <= Truncate(x) <= Truncate(y)
  {
  }

  lemma ProductGrows(base: nat, p: nat, q: nat)
    requires p <= q
    ensures 0 <= base * p <= base * q
  {
  }

  lemma {:induction false} RawIsMonotone(b: Backoff, m: nat, n: nat)
    requires m <= n && b.weight >= 0.0
    ensures 0.0 <= RawCooldown(b, m) <= RawCooldown(b, n)
  {
    Pow2IsMonotone(Exponent(m), Exponent(n));
    ProductGrows(b.base, Pow2(Exponent(m)), Pow2(Exponent(n)));
    var x, y := b.base * Pow2(Exponent(m)), b.base * Pow2(Exponent(n));
    ScaleIsMonotone(x as real, y as real, b.weight);
    ScaleIsMonotone(0.0, x as real, b.weight);
  }

  /** A longer streak never waits less. */
  lemma BackoffIsMonotone(b: Backoff, m: nat, n: nat)
    requires m <= n && b.weight >= 0.0
    ensures 0 <= CooldownSeconds(b, m) <= CooldownSeconds(b, n) <= b.maximum
  {
    RawIsMonotone(b, m, n);
    var x, y := RawCooldown(b, m), RawCooldown(b, n);
    var top := b.maximum as real;
    TruncateIsMonotone(if top < x then top else x, if top < y then top else y);
    TruncateIsMonotone(if top < y then top else y, top);
  }

  /** The backoff before its ceiling: the base times the weight for a first failure, twice as
      much for each further one, and no more once a streak is thirty-three long. */
  lemma {:induction false} BackoffDoubles(b: Backoff, n: nat)
    ensures RawCooldown(b, 1) == b.base as real * b.weight
    ensures 1 <= n <= 32 ==> RawCooldown(b, n + 1) == 2.0 * RawCooldown(b, n)
    ensures n >= 33 ==> RawCooldown(b, n) == RawCooldown(b, 33)
  {
    assert Pow2(0) == 1 && b.base * Pow2(0) == b.base;
    if 1 <= n <= 32 {
      OneMoreDoubles(b, n);
    } else if n >= 33 {
      assert Exponent(n) == Exponent(33);
    }
  }

  lemma {:induction false} OneMoreDoubles(b: Backoff, n: nat)
    requires 1 <= n <= 32
    ensures RawCooldown(b, n + 1) == 2.0 * RawCooldown(b, n)
  {
    var p := Pow2(n - 1);
    assert Exponent(n + 1) == n && Exponent(n) == n - 1 && Pow2(n) == 2 * p;
    DoubledProduct(b.base, p, b.weight);
  }

  lemma DoubledProduct(base: nat, p: nat, w: real)
    ensures (base * (2 * p)) as real * w == 2.0 * ((base * p) as real * w)
  {
    assert base * (2 * p) == 2 * (base * p);
  }

  /** A risk hit below the ceiling waits the whole seconds of the backoff, no fraction more. */
  lemma CoolingWaitsItsBackoff(b: Backoff, row: Row, now: int)
    requires b.weight >= 0.0 && RawCooldown(b, row.fails + 1) < b.maximum as real
    ensures var hit := Recorded(b, row, RiskControl, now);
      && hit.cooldownUntil.Some?
      && var wait := hit.cooldownUntil.value - now;
         wait as real <= RawCooldown(b, row.fails + 1) < (wait + 1) as real
  {
    RawIsMonotone(b, row.fails + 1, row.fails + 1);
  }

  /** An identity is degraded by a risk hit exactly when the uncapped backoff has reached the
      ceiling - on the very first hit if the base alone does - and its wait is then the ceiling. */
  lemma DegradedExactlyAtCeiling(b: Backoff, row: Row, now: int)
    requires b.weight >= 0.0
    ensures var hit := Recorded(b, row, RiskControl, now);
      && (hit.state.Degraded? <==> RawCooldown(b, row.fails + 1) >= b.maximum as real)
      && (hit.state.Cooling? <==> RawCooldown(b, row.fails + 1) < b.maximum as real)
      && hit.cooldownUntil.Some? && now <= hit.cooldownUntil.value <= now + b.maximum
      && (hit.state.Degraded? ==> hit.cooldownUntil == Some(now + b.maximum))
  {
  }

  /** An identity that degraded and has not succeeded since drops back to degraded on its next
      risk hit, however it was promoted, failed or was cooled in between. */
  lemma {:induction false} CeilingIsSticky(b: Backoff, row: Row, history: seq<Event>, now: int)
    requires b.weight >= 0.0 && row.fails > 0
    requires RawCooldown(b, row.fails) >= b.maximum as real
    requires forall i | 0 <= i < |history| :: !Clears(history[i])
    ensures Live(row, history).fails >= row.fails
    ensures Recorded(b, Live(row, history), RiskControl, now).state.Degraded?
  {
    FailsOnlyGrow(row, history);
    var later := Live(row, history);
    RawIsMonotone(b, row.fails, later.fails + 1);
    DegradedExactlyAtCeiling(b, later, now);
  }

  lemma {:induction false} FailsOnlyGrow(row: Row, history: seq<Event>)
    requires forall i | 0 <= i < |history| :: !Clears(history[i])
    ensures Live(row, history).fails >= row.fails
  {
    if history != [] {
      var n := |history| - 1;
      assert forall i | 0 <= i < n :: history[..n][i] == history[i];
      FailsOnlyGrow(row, history[..n]);
      StepKeepsFails(Live(row, history[..n]), history[n]);
    }
  }

  lemma {:induction false} StepKeepsFails(row: Row, event: Event)
    requires !Clears(event)
    ensures Step(row, event).fails >= row.fails
  {
  }

  // Retirement

  /** Retired at every moment of the history. */
  ghost predicate RetiredThroughout(row: Row, history: seq<Event>)
  {
    forall k | 0 <= k <= |history| :: Live(row, history[..k]).state.Retired?
  }

  predicate Risky(event: Event)
  {
    event.Request? && event.outcome.RiskControl?
  }

  lemma {:induction false} OneMoreMoment(row: Row, history: seq<Event>)
    requires history != []
    ensures RetiredThroughout(row, history) <==>
      RetiredThroughout(row, history[..|history| - 1]) && Live(row, history).state.Retired?
  {
    var init := history[..|history| - 1];
    assert history[..|history|] == history;
    assert forall k | 0 <= k <= |init| :: init[..k] == history[..k];
  }

  /** Retirement lasts, moment by moment, exactly as long as no late risk-control answer is
      folded into the row: `record_outcome` does not look whether the row is retired. */
  lemma {:induction false} RetirementLastsUntilRisk(row: Row, history: seq<Event>)
    requires row.state.Retired?
    ensures RetiredThroughout(row, history) <==> forall i | 0 <= i < |history| :: !Risky(history[i])
  {
    if history != [] {
      var n := |history| - 1;
      var init := history[..n];
      assert forall i | 0 <= i < n :: init[i] == history[i];
      RetirementLastsUntilRisk(row, init);
      OneMoreMoment(row, history);
      StepOfRetired(Live(row, init), history[n]);
      assert RetiredThroughout(row, init) ==> Live(row, init[..n]).state.Retired?;
      assert init[..n] == init;
    }
  }

  lemma {:induction false} StepOfRetired(row: Row, event: Event)
    ensures row.state.Retired? ==>
      (Step(row, event).state.Retired? <==> !Risky(event))
  {
  }

  /** So a retired identity can come back into rotation with nothing in its jar. */
  lemma RetiredCanReturnEmpty(b: Backoff, row: Row)
    requires row.state.Active? && row.fails == 0 && b.weight >= 0.0
    ensures var after := Live(row, [Retire(0, "burned"), Request(RiskControl, 1, b), Promote(1 + b.maximum)]);
      after.state.Active? && after.jar == "" && after.retiredAt == Some(0)
  {
    var h := [Retire(0, "burned"), Request(RiskControl, 1, b), Promote(1 + b.maximum)];
    assert h[..2][..1] == [Retire(0, "burned")] && h[..2][..1][..0] == [];
    var retired := WasRetired(row, 0, "burned");
    assert Live(row, h[..2][..1]) == retired;
    DegradedExactlyAtCeiling(b, retired, 1);
    assert Live(row, h[..2]) == Recorded(b, retired, RiskControl, 1);
  }
}
