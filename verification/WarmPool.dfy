/** The bounded pool of warm signing pages for one platform: every critical section of
    `_PlatformPool`, as a class and as a function on the pool's value. */
module WarmPool {

  /** A warm page, when it was built, and the binding it was opened for. */
  datatype Slot<P> = Slot(page: P, createdAt: int, binding: string)

  /** `blocked` are the callers asleep on the condition, first come first; `woken` are
      those notified, or whose nap ran out, that have not looked at the pool again yet. */
  datatype Pool<P> = Pool(
    idle: seq<Slot<P>>, live: int, capacity: nat, blocked: seq<nat>, woken: set<nat>)

  /** What one pass over the pool gives a caller. */
  datatype Grant<P> =
    | Hit(slot: Slot<P>)
    | Refresh(worn: Slot<P>)
    | Rebind(worn: Slot<P>)
    | Launch
    | Nothing

  function FirstBound<P>(idle: seq<Slot<P>>, binding: string): (i: nat)
    ensures i <= |idle|
    ensures i < |idle| ==> idle[i].binding == binding
    ensures forall j | 0 <= j < i :: idle[j].binding != binding
  {
    if idle == [] then 0
    else if idle[0].binding == binding then 0
    else 1 + FirstBound(idle[1..], binding)
  }

  /** Credits a caller could still obtain: unopened capacity and idle pages. */
  function Available<P>(pool: Pool<P>): int
  {
    pool.capacity - pool.live + |pool.idle|
  }

  predicate Stale<P>(slot: Slot<P>, now: int, refresh: int)
  {
    now - slot.createdAt >= refresh
  }

  function Take<P>(pool: Pool<P>, binding: string, now: int, refresh: int): (Pool<P>, Grant<P>)
  {
    var i := FirstBound(pool.idle, binding);
    if i < |pool.idle| then
      var rest := pool.(idle := pool.idle[..i] + pool.idle[i + 1..]);
      (rest, if Stale(pool.idle[i], now, refresh) then Refresh(pool.idle[i]) else Hit(pool.idle[i]))
    else if pool.live < pool.capacity then
      (pool.(live := pool.live + 1), Launch)
    else if pool.idle != [] then
      (pool.(idle := pool.idle[1..]), Rebind(pool.idle[0]))
    else
      (pool, Nothing)
  }

  function Notify<P>(pool: Pool<P>): Pool<P>
  {
    if pool.blocked == [] then pool
    else pool.(blocked := pool.blocked[1..], woken := pool.woken + {pool.blocked[0]})
  }

  function NotifyAll<P>(pool: Pool<P>): Pool<P>
  {
    pool.(blocked := [], woken := pool.woken + (set c | c in pool.blocked))
  }

  function PutBack<P>(pool: Pool<P>, slot: Slot<P>): Pool<P>
  {
    Notify(pool.(idle := pool.idle + [slot]))
  }

  function GiveUp<P>(pool: Pool<P>): Pool<P>
  {
    Notify(pool.(live := pool.live - 1))
  }

  function Drained<P>(pool: Pool<P>): Pool<P>
  {
    NotifyAll(pool.(idle := [], live := pool.live - |pool.idle|))
  }

  /** Going to sleep on the condition. */
  function Park<P>(pool: Pool<P>, caller: nat): Pool<P>
  {
    pool.(blocked := pool.blocked + [caller], woken := pool.woken - {caller})
  }

  /** A pass spends exactly one available credit, or finds there is none. */
  lemma TakeSpendsOne<P>(pool: Pool<P>, binding: string, now: int, refresh: int)
    requires pool.live <= pool.capacity
    ensures var (after, grant) := Take(pool, binding, now, refresh);
      && (grant == Nothing <==> Available(pool) == 0)
      && Available(after) == Available(pool) - (if grant == Nothing then 0 else 1)
      && after.live <= after.capacity
  {
  }

  /** Entry `i` of the shelf is the earliest bound to this caller. */
  ghost predicate EarliestBound<P>(idle: seq<Slot<P>>, binding: string, i: int)
  {
    0 <= i < |idle| && idle[i].binding == binding && forall j | 0 <= j < i :: idle[j].binding != binding
  }

  /** An idle page bound to the caller is always preferred, the earliest first, and is served
      as it is exactly while younger than the refresh age; nobody else's page is given up
      while capacity remains, and then only the oldest. Only the page given leaves the shelf. */
  lemma TakePrefersOwn<P>(pool: Pool<P>, binding: string, now: int, refresh: int)
    ensures var (after, grant) := Take(pool, binding, now, refresh);
      && ((grant.Hit? || grant.Refresh?) <==> exists s | s in pool.idle :: s.binding == binding)
      && (grant.Hit? ==> now - grant.slot.createdAt < refresh)
      && (grant.Refresh? ==> now - grant.worn.createdAt >= refresh)
      && (grant.Hit? || grant.Refresh? ==> exists i ::
            && EarliestBound(pool.idle, binding, i)
            && pool.idle[i] == (if grant.Hit? then grant.slot else grant.worn)
            && after == pool.(idle := pool.idle[..i] + pool.idle[i + 1..]))
      && (grant.Launch? ==> pool.live < pool.capacity && after == pool.(live := pool.live + 1))
      && (grant.Rebind? ==>
            pool.live >= pool.capacity && [grant.worn] + after.idle == pool.idle && after.live == pool.live)
      && (grant.Nothing? ==> pool.live >= pool.capacity && pool.idle == [] && after == pool)
  {
    var i := FirstBound(pool.idle, binding);
    assert i < |pool.idle| ==> EarliestBound(pool.idle, binding, i);
  }

  class PlatformPool<P> {
    var idle: seq<Slot<P>>
    var live: int
    const capacity: nat
    var blocked: seq<nat>
    var woken: set<nat>

    /** `warmContexts` may be configured to nothing; one page is always allowed. */
    constructor (warmContexts: nat)
      ensures View() == Pool([], 0, if warmContexts == 0 then 1 else warmContexts, [], {})
    {
      idle, live, blocked, woken := [], 0, [], {};
      capacity := if warmContexts == 0 then 1 else warmContexts;
    }

    function View(): Pool<P>
      reads this
    {
      Pool(idle, live, capacity, blocked, woken)
    }

    /** The locked part of `_acquire_slot`: search, then capacity, then the oldest idle page. */
    method TakeSlot(binding: string, now: int, refresh: int) returns (grant: Grant<P>)
      modifies this`idle, this`live
      ensures (View(), grant) == Take(old(View()), binding, now, refresh)
    {
      var i := 0;
      while i < |idle| && idle[i].binding != binding
        invariant 0 <= i <= |idle|
        invariant FirstBound(idle, binding) == i + FirstBound(idle[i..], binding)
      {
        assert idle[i..][1..] == idle[i + 1..];
        i := i + 1;
      }
      if i < |idle| {
        var hit := idle[i];
        idle := idle[..i] + idle[i + 1..];
        grant := if now - hit.createdAt >= refresh then Refresh(hit) else Hit(hit);
      } else if live < capacity {
        live := live + 1;
        grant := Launch;
      } else if idle != [] {
        grant := Rebind(idle[0]);
        idle := idle[1..];
      } else {
        grant := Nothing;
      }
    }

    method NotifyOne()
      modifies this`blocked, this`woken
      ensures View() == Notify(old(View()))
      ensures old(blocked) != [] ==> [old(blocked)[0]] + blocked == old(blocked) && old(blocked)[0] in woken
      ensures woken <= old(woken) + set c | c in old(blocked)
    {
      if blocked != [] {
        woken := woken + {blocked[0]};
        blocked := blocked[1..];
      }
    }

    /** `_release_slot`: the page goes back on the shelf with its credit. */
    method ReleaseSlot(slot: Slot<P>)
      modifies this
      ensures View() == PutBack(old(View()), slot)
      ensures idle == old(idle) + [slot] && live == old(live)
    {
      idle := idle + [slot];
      NotifyOne();
    }

    /** The locked part of `_discard_slot`, and of a failed open: the credit goes back. */
    method ReturnCredit()
      modifies this
      ensures View() == GiveUp(old(View()))
      ensures idle == old(idle) && live + 1 == old(live)
    {
      live := live - 1;
      NotifyOne();
    }

    /** `close`: every idle page leaves the pool with its credit and everyone is woken. */
    method Drain() returns (slots: seq<Slot<P>>)
      modifies this
      ensures slots == old(idle) && View() == Drained(old(View()))
      ensures idle == [] && blocked == [] && live + |slots| == old(live)
      ensures forall c | c in old(blocked) :: c in woken
    {
      slots, idle := idle, [];
      live := live - |slots|;
      woken := woken + (set c | c in blocked);
      blocked := [];
    }

    method Wait(caller: nat)
      modifies this`blocked, this`woken
      ensures View() == Park(old(View()), caller)
      ensures blocked == old(blocked) + [caller] && caller !in woken
    {
      woken := woken - {caller};
      blocked := blocked + [caller];
    }
  }
}
