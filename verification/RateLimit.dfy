/** Requests counted per subject in fixed one-minute windows. */
module RateLimit {
  import opened Lists
  import opened Options

  /** A stored counter: its value and when it lapses. */
  datatype Counter = Counter(used: nat, expires: Option<int>)

  /** Subject and window. */
  type Key = (string, int)
  type Store = map<Key, Counter>

  datatype Request = Request(subject: string, limit: int, now: int)

  /** What a metered caller is told of its limit, let through or not. */
  datatype Limits = Limits(limit: int, remaining: nat, resetAt: int)

  datatype Verdict = Unmetered | Within(limits: Limits) | Limited(limits: Limits, retryAfter: int)

  function Window(now: int): int
  {
    now / 60
  }

  /** The count a counter still stands for at `now`. */
  function Live(store: Store, key: Key, now: int): nat
  {
    if key in store && (store[key].expires.Some? ==> now < store[key].expires.value) then store[key].used else 0
  }

  /** `INCR`, and a lifetime of 120 seconds for a counter that starts. */
  function Counted(store: Store, key: Key, now: int): Store
  {
    var used := Live(store, key, now) + 1;
    store[key := Counter(used, if used == 1 then Some(now + 120) else store[key].expires)]
  }

  function StoreAfter(store: Store, r: Request): Store
  {
    if r.limit <= 0 then store else Counted(store, (r.subject, Window(r.now)), r.now)
  }

  function Answer(store: Store, r: Request): Verdict
  {
    if r.limit <= 0 then Unmetered
    else
      var used := Live(store, (r.subject, Window(r.now)), r.now) + 1;
      var resetAt := (Window(r.now) + 1) * 60;
      var limits := Limits(r.limit, if r.limit > used then r.limit - used else 0, resetAt);
      if used > r.limit then Limited(limits, if resetAt - r.now > 1 then resetAt - r.now else 1) else Within(limits)
  }

  class Limiter {
    var store: Store

    constructor ()
      ensures store == map[]
    {
      store := map[];
    }

    method Increment(key: Key, now: int) returns (used: nat)
      modifies this
      ensures used == Live(old(store), key, now) + 1
      ensures store == old(store)[key := Counter(used, if used == 1 then None else old(store)[key].expires)]
    {
      used := Live(store, key, now) + 1;
      store := store[key := Counter(used, if used == 1 then None else store[key].expires)];
    }

    method Enforce(r: Request) returns (verdict: Verdict)
      modifies this
      ensures verdict == Answer(old(store), r) && store == StoreAfter(old(store), r)
    {
      if r.limit <= 0 {
        return Unmetered;
      }
      var window := Window(r.now);
      var key := (r.subject, window);
      var used := Increment(key, r.now);
      if used == 1 {
        store := store[key := store[key].(expires := Some(r.now + 120))];
      }
      var resetAt := (window + 1) * 60;
      var limits := Limits(r.limit, if r.limit > used then r.limit - used else 0, resetAt);
      if used > r.limit {
        return Limited(limits, if resetAt - r.now > 1 then resetAt - r.now else 1);
      }
      verdict := Within(limits);
    }
  }

  // Runs

  ghost predicate InOrder(rs: seq<Request>)
  {
    forall i, j | 0 <= i < j < |rs| :: rs[i].now <= rs[j].now
  }

  function Final(rs: seq<Request>): Store
  {
    if rs == [] then map[] else StoreAfter(Final(rs[..|rs| - 1]), rs[|rs| - 1])
  }

  /** What request `i` of a run is told. */
  function Told(rs: seq<Request>, i: nat): Verdict
    requires i < |rs|
  {
    Answer(Final(rs[..i]), rs[i])
  }

  predicate Metered(r: Request, key: Key)
  {
    r.limit > 0 && (r.subject, Window(r.now)) == key
  }

  function Tally(rs: seq<Request>, key: Key): nat
  {
    if rs == [] then 0 else Tally(rs[..|rs| - 1], key) + if Metered(rs[|rs| - 1], key) then 1 else 0
  }

  /** Counters outlive their window: for a key's own window a counter is exactly the tally. */
  lemma {:induction false} CountersAreTallies(rs: seq<Request>, key: Key)
    requires InOrder(rs)
    ensures var store := Final(rs);
      && (key in store <==> Tally(rs, key) > 0)
      && (key in store ==>
            && store[key].used == Tally(rs, key)
            && store[key].expires.Some?
            && key.1 * 60 + 120 <= store[key].expires.value < key.1 * 60 + 180)
  {
    if rs != [] {
      CountersAreTallies(rs[..|rs| - 1], key);
    }
  }

  /** A metered request is let through exactly when its subject had fewer than its limit in this
      window before it; refused requests count too. */
  lemma LetThroughExactlyBelowTheLimit(rs: seq<Request>, i: nat)
    requires InOrder(rs) && i < |rs| && rs[i].limit > 0
    ensures Told(rs, i).Within? <==> Tally(rs[..i], (rs[i].subject, Window(rs[i].now))) < rs[i].limit
    ensures !Told(rs, i).Unmetered? && Told(rs, i).limits.limit == rs[i].limit
    ensures rs[i].now < Told(rs, i).limits.resetAt <= rs[i].now + 60 && Told(rs, i).limits.resetAt % 60 == 0
    ensures Told(rs, i).limits.remaining ==
      if Told(rs, i).Within? then rs[i].limit - Tally(rs[..i], (rs[i].subject, Window(rs[i].now))) - 1 else 0
  {
    CountersAreTallies(rs[..i], (rs[i].subject, Window(rs[i].now)));
  }

  /** Waiting as told reaches the next window, and not the one after it. */
  lemma RetryReachesTheNextWindow(rs: seq<Request>, i: nat)
    requires i < |rs| && Told(rs, i).Limited?
    ensures Told(rs, i).retryAfter >= 1
    ensures rs[i].now + Told(rs, i).retryAfter == Told(rs, i).limits.resetAt
    ensures Window(rs[i].now + Told(rs, i).retryAfter) == Window(rs[i].now) + 1
  {
  }

  // The rate over any minute

  /** How many of a subject's requests were let through with `from <= now < to`. */
  function LetThrough(rs: seq<Request>, subject: string, from: int, to: int): nat
  {
    if rs == [] then 0
    else
      var r := rs[|rs| - 1];
      LetThrough(rs[..|rs| - 1], subject, from, to)
      + if r.subject == subject && from <= r.now < to && Told(rs, |rs| - 1).Within? then 1 else 0
  }

  /** All of a subject's requests are metered, by at most `limit`. */
  predicate MeteredBy(rs: seq<Request>, subject: string, limit: nat)
  {
    forall i | 0 <= i < |rs| :: rs[i].subject == subject ==> 0 < rs[i].limit <= limit
  }

  lemma {:induction false} OneWindowKeepsTheLimit(
    rs: seq<Request>, subject: string, window: int, from: int, to: int, limit: nat)
    requires InOrder(rs) && MeteredBy(rs, subject, limit)
    requires window * 60 <= from && to <= window * 60 + 60
    ensures LetThrough(rs, subject, from, to) <= limit
    ensures LetThrough(rs, subject, from, to) <= Tally(rs, (subject, window))
  {
    if rs != [] {
      var last := |rs| - 1;
      OneWindowKeepsTheLimit(rs[..last], subject, window, from, to, limit);
      var r := rs[last];
      if r.subject == subject && from <= r.now < to && Told(rs, last).Within? {
        assert Window(r.now) == window;
        LetThroughExactlyBelowTheLimit(rs, last);
      }
    }
  }

  lemma {:induction false} LetThroughSplits(rs: seq<Request>, subject: string, from: int, mid: int, to: int)
    requires from <= mid <= to
    ensures LetThrough(rs, subject, from, to) == LetThrough(rs, subject, from, mid) + LetThrough(rs, subject, mid, to)
  {
    if rs != [] {
      LetThroughSplits(rs[..|rs| - 1], subject, from, mid, to);
    }
  }

  /** In any sixty consecutive seconds a subject gets at most twice its limit through. */
  lemma AnyMinuteAdmitsAtMostTwice(rs: seq<Request>, subject: string, from: int, limit: nat)
    requires InOrder(rs) && MeteredBy(rs, subject, limit)
    ensures LetThrough(rs, subject, from, from + 60) <= 2 * limit
  {
    var edge := (Window(from) + 1) * 60;
    LetThroughSplits(rs, subject, from, edge, from + 60);
    OneWindowKeepsTheLimit(rs, subject, Window(from), from, edge, limit);
    OneWindowKeepsTheLimit(rs, subject, Window(from) + 1, edge, from + 60, limit);
  }

  function Burst(subject: string, limit: nat, now: int, n: nat): seq<Request>
  {
    if n == 0 then [] else Burst(subject, limit, now, n - 1) + [Request(subject, limit, now)]
  }

  lemma OneMorePasses(rs: seq<Request>, r: Request, from: int, to: int)
    requires InOrder(rs + [r]) && r.limit > 0 && from <= r.now < to
    requires Tally(rs, (r.subject, Window(r.now))) < r.limit
    ensures Tally(rs + [r], (r.subject, Window(r.now))) == Tally(rs, (r.subject, Window(r.now))) + 1
    ensures LetThrough(rs + [r], r.subject, from, to) == LetThrough(rs, r.subject, from, to) + 1
  {
    assert (rs + [r])[..|rs|] == rs;
    LetThroughExactlyBelowTheLimit(rs + [r], |rs|);
  }

  /** `n` requests of the subject's got through since `before`, all in one window. */
  ghost predicate AllThrough(
    before: seq<Request>, rs: seq<Request>, subject: string, now: int, n: nat, from: int, to: int)
  {
    && InOrder(rs) && (rs == [] || rs[|rs| - 1].now <= now)
    && Tally(rs, (subject, Window(now))) == n
    && LetThrough(rs, subject, from, to) == LetThrough(before, subject, from, to) + n
  }

  lemma OneMoreOfBurst(before: seq<Request>, rs: seq<Request>, r: Request, n: nat, from: int, to: int)
    requires AllThrough(before, rs, r.subject, r.now, n, from, to)
    requires r.limit > n && from <= r.now < to
    ensures AllThrough(before, rs + [r], r.subject, r.now, n + 1, from, to)
  {
    LaterStaysInOrder(rs, r);
    OneMorePasses(rs, r, from, to);
  }

  lemma {:induction false} BurstAllPasses(
    before: seq<Request>, subject: string, limit: nat, now: int, n: nat, from: int, to: int)
    requires InOrder(before) && (before == [] || before[|before| - 1].now <= now)
    requires limit > 0 && n <= limit && Tally(before, (subject, Window(now))) == 0
    requires from <= now < to
    ensures AllThrough(before, before + Burst(subject, limit, now, n), subject, now, n, from, to)
    decreases n
  {
    if n == 0 {
      assert before + [] == before;
    } else {
      BurstAllPasses(before, subject, limit, now, n - 1, from, to);
      var burst, r := Burst(subject, limit, now, n - 1), Request(subject, limit, now);
      OneMoreOfBurst(before, before + burst, r, n - 1, from, to);
      Regroup(before, burst, [r]);
    }
  }

  lemma LaterStaysInOrder(rs: seq<Request>, r: Request)
    requires InOrder(rs) && (rs == [] || rs[|rs| - 1].now <= r.now)
    ensures InOrder(rs + [r])
  {
  }

  lemma TallyOfOneMore(rs: seq<Request>, r: Request, key: Key)
    ensures Tally(rs + [r], key) == Tally(rs, key) + if Metered(r, key) then 1 else 0
  {
    assert (rs + [r])[..|rs|] == rs;
  }

  lemma {:induction false} OtherWindowTalliesNothing(subject: string, limit: nat, now: int, n: nat, key: Key)
    requires key.1 != Window(now)
    ensures Tally(Burst(subject, limit, now, n), key) == 0
    decreases n
  {
    if n > 0 {
      OtherWindowTalliesNothing(subject, limit, now, n - 1, key);
      TallyOfOneMore(Burst(subject, limit, now, n - 1), Request(subject, limit, now), key);
    }
  }

  /** Twice the limit really gets through, a burst either side of the minute. */
  lemma TwiceIsReached(subject: string, limit: nat)
    requires limit > 0
    ensures var rs := Burst(subject, limit, 59, limit) + Burst(subject, limit, 60, limit);
      InOrder(rs) && LetThrough(rs, subject, 59, 59 + 60) == 2 * limit
  {
    var first := Burst(subject, limit, 59, limit);
    assert [] + first == first;
    BurstAllPasses([], subject, limit, 59, limit, 59, 119);
    OtherWindowTalliesNothing(subject, limit, 59, limit, (subject, 1));
    BurstAllPasses(first, subject, limit, 60, limit, 59, 119);
  }
}
