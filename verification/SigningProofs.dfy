/** What every interleaving of `sign` calls keeps. */
module SigningProofs {
  import opened Lists
  import opened Options
  import opened BindingKey
  import opened WarmPool
  import opened SigningService

  /** The caller whose step this is. */
  function Actor(step: Step): Option<nat>
  {
    match step
    case Shutdown => None
    case Tick(_) => None
    case _ => Some(step.caller)
  }

  /** One caller's move changes the set of credit owners by that caller alone. */
  lemma OwnersChange(s: State, t: State, c: nat)
    requires c in t.callers
    requires t.callers == s.callers[c := t.callers[c]]
    ensures |Owners(t)| == |Owners(s)| - Credit(s, c) + Credit(t, c)
  {
    var rest := Owners(s) - {c};
    assert Owners(s) == if Credit(s, c) == 1 then rest + {c} else rest;
    assert Owners(t) == if Credit(t, c) == 1 then rest + {c} else rest;
  }

  lemma CheckMovesOwnCredit(s: State, c: nat)
    requires Enabled(s, Check(c))
    requires !Owns(s.callers[c].pc)
    ensures Out(AfterCheck(s, c)) - Out(s) == Credit(AfterCheck(s, c), c)
  {
    var (pool, grant) := Take(s.pool.(woken := s.pool.woken - {c}), s.callers[c].binding, s.now, s.cfg.refresh);
    assert grant == Nothing ==> !Owns(AfterCheck(s, c).callers[c].pc);
  }

  /** Every step moves the credits off the shelf by exactly what its caller gained or lost. */
  lemma StepMovesOwnCredit(s: State, step: Step)
    requires Enabled(s, step)
    requires forall c | c in s.pool.woken :: c in s.callers ==> !Owns(s.callers[c].pc)
    ensures Out(Apply(s, step)) - Out(s) ==
      if Actor(step).None? then 0
      else Credit(Apply(s, step), Actor(step).value) - Credit(s, Actor(step).value)
  {
    match step
    case Check(c) => CheckMovesOwnCredit(s, c);
    case _ =>
  }

  lemma StepTouchesActor(s: State, step: Step)
    requires Enabled(s, step)
    ensures var t := Apply(s, step);
      match Actor(step)
      case None => t.callers == s.callers
      case Some(c) => c in t.callers && t.callers == s.callers[c := t.callers[c]]
    ensures Apply(s, step).cfg == s.cfg
  {
    if step.Check? {
      CheckTouchesActor(s, step.caller);
    }
  }

  lemma CheckTouchesActor(s: State, c: nat)
    requires Enabled(s, Check(c))
    ensures var t := AfterCheck(s, c);
      c in t.callers && t.callers == s.callers[c := t.callers[c]] && t.cfg == s.cfg
  {
  }

  lemma StepKeepsCapacity(s: State, step: Step)
    requires Enabled(s, step) && s.pool.live <= s.pool.capacity
    ensures Apply(s, step).pool.live <= Apply(s, step).pool.capacity == s.pool.capacity
  {
  }

  lemma StepKeepsAccounts(s: State, step: Step)
    requires Accounted(s) && NoLostWakeup(s) && Enabled(s, step)
    ensures Accounted(Apply(s, step))
  {
    var t := Apply(s, step);
    StepMovesOwnCredit(s, step);
    StepTouchesActor(s, step);
    StepKeepsCapacity(s, step);
    match Actor(step) {
      case None => assert Owners(t) == Owners(s);
      case Some(c) => OwnersChange(s, t, c);
    }
  }

  // Wakeups

  /** One more available credit and one notification: still covered. */
  lemma NotifyCovers(pool: Pool<nat>, before: Pool<nat>)
    requires WakeupsCover(before)
    requires pool.blocked == before.blocked && pool.woken == before.woken
    requires Available(pool) <= Available(before) + 1
    ensures WakeupsCover(Notify(pool))
  {
  }

  /** A woken caller that looks again: a credit taken, or none there to take. */
  lemma TakeCovers(pool: Pool<nat>, c: nat, binding: string, now: int, refresh: int)
    requires WakeupsCover(pool) && pool.live <= pool.capacity && c !in pool.blocked
    ensures var (after, grant) := Take(pool.(woken := pool.woken - {c}), binding, now, refresh);
      WakeupsCover(after) && (grant == Nothing ==> WakeupsCover(Park(after, c)))
  {
    var looking := pool.(woken := pool.woken - {c});
    TakeSpendsOne(looking, binding, now, refresh);
    var (after, grant) := Take(looking, binding, now, refresh);
    assert |pool.woken| <= |looking.woken| + 1 by {
      if c in pool.woken { assert pool.woken == looking.woken + {c}; }
      else { assert pool.woken == looking.woken; }
    }
    assert grant == Nothing ==> Park(after, c).woken == after.woken;
  }

  lemma WokenCovers(pool: Pool<nat>, c: nat)
    requires WakeupsCover(pool) && c in pool.blocked
    ensures WakeupsCover(pool.(blocked := DropFirst(pool.blocked, c), woken := pool.woken + {c}))
  {
    DropFirstDrops(pool.blocked, c);
  }

  /** Only these steps touch the pool, each through one critical section. */
  function PoolAfter(s: State, step: Step): Pool<nat>
    requires Enabled(s, step)
  {
    match step
    case Check(c) =>
      var (pool, grant) := Take(s.pool.(woken := s.pool.woken - {c}), s.callers[c].binding, s.now, s.cfg.refresh);
      if grant == Nothing && s.callers[c].deadline - s.now > 0 then Park(pool, c) else pool
    case NapEnds(c) => s.pool.(blocked := DropFirst(s.pool.blocked, c), woken := s.pool.woken + {c})
    case ReturnCredit(c) => GiveUp(s.pool)
    case Release(c) => PutBack(s.pool, s.callers[c].pc.slot)
    case Discard(c) => GiveUp(s.pool)
    case Shutdown => Drained(s.pool)
    case _ => s.pool
  }

  lemma StepUsesPool(s: State, step: Step)
    requires Enabled(s, step)
    ensures Apply(s, step).pool == PoolAfter(s, step)
  {
  }

  lemma StepCovers(s: State, step: Step)
    requires NoLostWakeup(s) && s.pool.live <= s.pool.capacity && Enabled(s, step)
    ensures WakeupsCover(PoolAfter(s, step))
  {
    match step
    case Check(c) =>
      assert c !in s.pool.blocked;
      TakeCovers(s.pool, c, s.callers[c].binding, s.now, s.cfg.refresh);
    case NapEnds(c) => WokenCovers(s.pool, c);
    case ReturnCredit(c) => NotifyCovers(s.pool.(live := s.pool.live - 1), s.pool);
    case Release(c) => NotifyCovers(s.pool.(idle := s.pool.idle + [s.callers[c].pc.slot]), s.pool);
    case Discard(c) => NotifyCovers(s.pool.(live := s.pool.live - 1), s.pool);
    case _ =>
  }

  /** Who is asleep or woken afterwards was before, or is the caller that just parked. */
  lemma StepWaiters(s: State, step: Step, c: nat)
    requires NoLostWakeup(s) && Enabled(s, step)
    requires c in PoolAfter(s, step).blocked || c in PoolAfter(s, step).woken
    ensures ((c in s.pool.blocked || c in s.pool.woken) && (step.Check? ==> c != step.caller))
      || (step == Check(c) && c in Apply(s, step).callers && Apply(s, step).callers[c].pc.Parked?)
  {
    match step
    case NapEnds(d) => DropFirstDrops(s.pool.blocked, d);
    case _ =>
  }

  lemma StepKeepsWakeups(s: State, step: Step)
    requires NoLostWakeup(s) && s.pool.live <= s.pool.capacity && Enabled(s, step)
    ensures NoLostWakeup(Apply(s, step))
  {
    var t := Apply(s, step);
    StepUsesPool(s, step);
    StepCovers(s, step);
    StepTouchesActor(s, step);
    forall c | c in t.pool.blocked || c in t.pool.woken
      ensures c in t.callers && t.callers[c].pc.Parked?
    {
      StepWaiters(s, step, c);
      assert Actor(step) == Some(c) ==> step.Check? || step.NapEnds?;
    }
  }

  // Pages

  ghost predicate PagesSound(s: State)
  {
    ShelfSound(s) && HandsSound(s)
  }

  /** Steps that move no page: every hand and the shelf hold what they held. */
  lemma SameHandsSound(s: State, t: State)
    requires PagesSound(s) && t.cfg == s.cfg && t.pages == s.pages && t.pool.idle == s.pool.idle
    requires forall c | c in t.callers && SlotOf(t.callers[c].pc).Some? ::
      c in s.callers && SlotOf(s.callers[c].pc) == SlotOf(t.callers[c].pc)
    ensures PagesSound(t)
  {
    forall c | HeldPage(t, c).Some? ensures HeldPage(s, c) == HeldPage(t, c) {
    }
    assert forall i | 0 <= i < |t.pool.idle| :: Honest(s, s.pool.idle[i]) ==> Honest(t, t.pool.idle[i]);
  }

  /** A page leaves the shelf for one caller's hands. */
  lemma HandedOutSound(s: State, t: State, c: nat, i: nat)
    requires PagesSound(s) && t.cfg == s.cfg && t.pages == s.pages
    requires c in s.callers && SlotOf(s.callers[c].pc).None? && i < |s.pool.idle|
    requires t.pool.idle == s.pool.idle[..i] + s.pool.idle[i + 1..]
    requires c in t.callers && t.callers == s.callers[c := t.callers[c]]
    requires SlotOf(t.callers[c].pc) == Some(s.pool.idle[i])
    ensures PagesSound(t)
  {
    assert Honest(s, s.pool.idle[i]);
    forall j | 0 <= j < |t.pool.idle|
      ensures t.pool.idle[j] == s.pool.idle[if j < i then j else j + 1]
    {
    }
    assert forall d | d != c :: HeldPage(t, d) == HeldPage(s, d);
  }

  /** A page goes from one caller's hands to the end of the shelf. */
  lemma ShelvedSound(s: State, t: State, c: nat)
    requires PagesSound(s) && t.cfg == s.cfg && t.pages == s.pages
    requires c in s.callers && SlotOf(s.callers[c].pc).Some?
    requires t.pool.idle == s.pool.idle + [SlotOf(s.callers[c].pc).value]
    requires c in t.callers && t.callers == s.callers[c := t.callers[c]]
    requires SlotOf(t.callers[c].pc).None?
    ensures PagesSound(t)
  {
    assert forall d | d != c :: HeldPage(t, d) == HeldPage(s, d);
    assert HeldPage(s, c).Some?;
  }

  /** A caller closes the page in its hands. */
  lemma ClosedSound(s: State, t: State, c: nat)
    requires PagesSound(s) && t.cfg == s.cfg && t.pool.idle == s.pool.idle
    requires c in s.callers && SlotOf(s.callers[c].pc).Some? && SlotOf(s.callers[c].pc).value.page in s.pages
    requires t.pages == ClosePage(s.pages, SlotOf(s.callers[c].pc).value.page)
    requires c in t.callers && t.callers == s.callers[c := t.callers[c]]
    requires SlotOf(t.callers[c].pc).None?
    ensures PagesSound(t)
  {
    assert HeldPage(s, c).Some?;
    assert forall d | d != c :: HeldPage(t, d) == HeldPage(s, d);
    forall d | d in t.callers && SlotOf(t.callers[d].pc).Some? ensures Honest(t, SlotOf(t.callers[d].pc).value) {
      assert HeldPage(s, d).Some? && HeldPage(s, d) != HeldPage(s, c);
    }
    forall i | 0 <= i < |t.pool.idle| ensures Honest(t, t.pool.idle[i]) {
      assert HeldPage(s, c).value != s.pool.idle[i].page;
    }
  }

  /** A caller opens a fresh page for its own identity. */
  lemma OpenedSound(s: State, t: State, c: nat, page: nat)
    requires PagesSound(s) && t.cfg == s.cfg && t.pool.idle == s.pool.idle && page !in s.pages
    requires c in s.callers && c in t.callers && t.callers == s.callers[c := t.callers[c]]
    requires t.pages == s.pages[page := Page(s.callers[c].jar, s.callers[c].proxy, false)]
    requires SlotOf(t.callers[c].pc).Some? && SlotOf(t.callers[c].pc).value.page == page
    requires SlotOf(t.callers[c].pc).value.binding == Key(s.cfg.digest, s.callers[c].jar, s.callers[c].proxy)
    ensures PagesSound(t)
  {
    assert forall d | d != c :: HeldPage(t, d) == HeldPage(s, d);
    forall d | d != c && HeldPage(t, d).Some? ensures HeldPage(t, d).value != page {
      assert Honest(s, SlotOf(s.callers[d].pc).value);
    }
    forall i | 0 <= i < |t.pool.idle| ensures Honest(t, t.pool.idle[i]) && t.pool.idle[i].page != page {
      assert Honest(s, s.pool.idle[i]);
    }
    forall d | d in t.callers && d != c && SlotOf(t.callers[d].pc).Some?
      ensures Honest(t, SlotOf(t.callers[d].pc).value)
    {
      assert Honest(s, SlotOf(s.callers[d].pc).value);
    }
  }

  lemma ShutdownSound(s: State)
    requires PagesSound(s)
    ensures PagesSound(Apply(s, Shutdown))
  {
    var t := Apply(s, Shutdown);
    assert forall d :: HeldPage(t, d) == HeldPage(s, d);
    forall d | d in t.callers && SlotOf(t.callers[d].pc).Some? ensures Honest(t, SlotOf(t.callers[d].pc).value) {
      var held := SlotOf(s.callers[d].pc).value;
      assert Honest(s, held) && HeldPage(s, d) == Some(held.page);
      forall slot | slot in s.pool.idle ensures slot.page != held.page {
        var i :| 0 <= i < |s.pool.idle| && s.pool.idle[i] == slot;
        assert HeldPage(s, d).value != s.pool.idle[i].page;
      }
    }
  }

  /** What a pass moves: a slot off the shelf into the caller's hands, or nothing. */
  ghost predicate MovesOneSlot(s: State, t: State, c: nat)
    requires c in s.callers
  {
    && t.cfg == s.cfg && t.pages == s.pages && c in t.callers && t.callers == s.callers[c := t.callers[c]]
    && var i := FirstBound(s.pool.idle, s.callers[c].binding);
       if i < |s.pool.idle| then
         t.pool.idle == s.pool.idle[..i] + s.pool.idle[i + 1..] && SlotOf(t.callers[c].pc) == Some(s.pool.idle[i])
       else if s.pool.live < s.pool.capacity || s.pool.idle == [] then
         t.pool.idle == s.pool.idle && SlotOf(t.callers[c].pc).None?
       else
         t.pool.idle == s.pool.idle[1..] && SlotOf(t.callers[c].pc) == Some(s.pool.idle[0])
  }

  lemma CheckMovesOneSlot(s: State, c: nat)
    requires c in s.callers && SlotOf(s.callers[c].pc).None?
    ensures MovesOneSlot(s, AfterCheck(s, c), c)
  {
  }

  lemma OneSlotMovedSound(s: State, t: State, c: nat)
    requires PagesSound(s) && c in s.callers && SlotOf(s.callers[c].pc).None? && MovesOneSlot(s, t, c)
    ensures PagesSound(t)
  {
    var i := FirstBound(s.pool.idle, s.callers[c].binding);
    if i < |s.pool.idle| {
      HandedOutSound(s, t, c, i);
    } else if s.pool.live < s.pool.capacity || s.pool.idle == [] {
      SameHandsSound(s, t);
    } else {
      assert s.pool.idle[..0] + s.pool.idle[1..] == s.pool.idle[1..];
      HandedOutSound(s, t, c, 0);
    }
  }

  lemma CheckKeepsPages(s: State, c: nat)
    requires PagesSound(s) && c in s.callers && SlotOf(s.callers[c].pc).None?
    ensures PagesSound(AfterCheck(s, c))
  {
    CheckMovesOneSlot(s, c);
    OneSlotMovedSound(s, AfterCheck(s, c), c);
  }

  /** Steps that leave every page where it is. */
  predicate MovesNoPage(step: Step)
  {
    !(step.Check? || step.Release? || step.CloseWorn? || step.Dispose? || step.Open? || step.Shutdown?)
  }

  lemma StillStepsMoveNoPage(s: State, step: Step)
    requires Enabled(s, step) && MovesNoPage(step)
    ensures Apply(s, step).pages == s.pages && Apply(s, step).pool.idle == s.pool.idle
    ensures forall c | c in Apply(s, step).callers && SlotOf(Apply(s, step).callers[c].pc).Some? ::
      c in s.callers && SlotOf(s.callers[c].pc) == SlotOf(Apply(s, step).callers[c].pc)
  {
  }

  lemma ReleaseKeepsPages(s: State, c: nat)
    requires PagesSound(s) && Enabled(s, Release(c))
    ensures PagesSound(Apply(s, Release(c)))
  {
    ShelvedSound(s, Apply(s, Release(c)), c);
  }

  lemma ClosingKeepsPages(s: State, step: Step)
    requires PagesSound(s) && Enabled(s, step) && (step.CloseWorn? || step.Dispose?)
    ensures PagesSound(Apply(s, step))
  {
    ClosedSound(s, Apply(s, step), step.caller);
  }

  lemma OpenKeepsPages(s: State, c: nat, page: nat)
    requires PagesSound(s) && Enabled(s, Open(c, page)) && CallerSound(s, c)
    ensures PagesSound(Apply(s, Open(c, page)))
  {
    OpenedSound(s, Apply(s, Open(c, page)), c, page);
  }

  lemma StepKeepsPages(s: State, step: Step)
    requires PagesSound(s) && Enabled(s, step)
    requires step.Check? ==> SlotOf(s.callers[step.caller].pc).None?
    requires step.Open? ==> CallerSound(s, step.caller)
    ensures PagesSound(Apply(s, step))
  {
    if MovesNoPage(step) {
      StillStepsMoveNoPage(s, step);
      StepTouchesActor(s, step);
      SameHandsSound(s, Apply(s, step));
    } else {
      match step
      case Check(c) => CheckKeepsPages(s, c);
      case Release(c) => ReleaseKeepsPages(s, c);
      case CloseWorn(c) => ClosingKeepsPages(s, step);
      case Dispose(c) => ClosingKeepsPages(s, step);
      case Open(c, page) => OpenKeepsPages(s, c, page);
      case Shutdown => ShutdownSound(s);
    }
  }

  // Calls

  /** Pages never forget whose they are. */
  lemma PagesRemember(s: State, step: Step)
    requires Enabled(s, step)
    ensures forall p | p in s.pages ::
      && p in Apply(s, step).pages
      && Apply(s, step).pages[p].jar == s.pages[p].jar
      && Apply(s, step).pages[p].proxy == s.pages[p].proxy
  {
  }

  lemma OthersKeepTheirRecord(s: State, step: Step, c: nat)
    requires Enabled(s, step) && c in s.callers && CallerSound(s, c) && Actor(step) != Some(c)
    ensures c in Apply(s, step).callers && CallerSound(Apply(s, step), c)
  {
    PagesRemember(s, step);
    StepTouchesActor(s, step);
  }

  lemma CheckKeepsRecord(s: State, c: nat)
    requires Enabled(s, Check(c)) && CallerSound(s, c)
    ensures c in AfterCheck(s, c).callers && CallerSound(AfterCheck(s, c), c)
  {
    TakePrefersOwn(s.pool.(woken := s.pool.woken - {c}), s.callers[c].binding, s.now, s.cfg.refresh);
  }

  predicate HandlesPage(step: Step)
  {
    step.Arrive? || step.Open? || step.Sign? || step.Release?
  }

  lemma PageStepKeepsRecord(s: State, step: Step, c: nat)
    requires Enabled(s, step) && Actor(step) == Some(c) && HandlesPage(step)
    requires c in s.callers ==> CallerSound(s, c)
    requires step.Release? ==> Honest(s, s.callers[c].pc.slot)
    ensures c in Apply(s, step).callers && CallerSound(Apply(s, step), c)
  {
  }

  lemma OwnStepKeepsRecord(s: State, step: Step, c: nat)
    requires Enabled(s, step) && Actor(step) == Some(c) && !step.Check?
    requires c in s.callers ==> CallerSound(s, c)
    requires step.Release? ==> Honest(s, s.callers[c].pc.slot)
    ensures c in Apply(s, step).callers && CallerSound(Apply(s, step), c)
  {
    if HandlesPage(step) {
      PageStepKeepsRecord(s, step, c);
    }
  }

  lemma StepKeepsRecords(s: State, step: Step, c: nat)
    requires Enabled(s, step) && PagesSound(s)
    requires c in s.callers ==> CallerSound(s, c)
    requires c in Apply(s, step).callers
    ensures CallerSound(Apply(s, step), c)
  {
    if Actor(step) != Some(c) {
      StepTouchesActor(s, step);
      OthersKeepTheirRecord(s, step, c);
    } else if step.Check? {
      CheckKeepsRecord(s, c);
    } else {
      assert step.Release? ==> SlotOf(s.callers[c].pc) == Some(s.callers[c].pc.slot);
      OwnStepKeepsRecord(s, step, c);
    }
  }

  lemma {:induction false} StepKeepsInv(s: State, step: Step)
    requires Inv(s) && Enabled(s, step)
    ensures Inv(Apply(s, step))
  {
    StepKeepsAccounts(s, step);
    StepKeepsWakeups(s, step);
    StepKeepsPages(s, step);
    forall c | c in Apply(s, step).callers ensures CallerSound(Apply(s, step), c) {
      StepKeepsRecords(s, step, c);
    }
  }
}
