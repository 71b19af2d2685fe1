/** What becomes of a page over whole runs: young when it is handed out, never again once
    signing on it failed; and how often a call tries. */
module SigningPages {
  import opened Lists
  import opened Options
  import opened WarmPool
  import opened SigningService
  import opened SigningProofs
  import opened SigningTheorems

  // Ages

  /** Wherever the page is, its slot says it was opened at that moment. */
  ghost predicate Aged(s: State, page: nat, born: int)
  {
    && page in s.pages
    && (forall slot | slot in s.pool.idle && slot.page == page :: slot.createdAt == born)
    && (forall c | c in s.callers && SlotOf(s.callers[c].pc).Some? && SlotOf(s.callers[c].pc).value.page == page ::
          SlotOf(s.callers[c].pc).value.createdAt == born)
  }

  /** A pass makes no slots: what is left on the shelf, and what is handed out, was there. */
  lemma TakeMakesNoSlots(pool: Pool<nat>, binding: string, now: int, refresh: int)
    ensures var (after, grant) := Take(pool, binding, now, refresh);
      && (forall slot | slot in after.idle :: slot in pool.idle)
      && (grant.Hit? ==> grant.slot in pool.idle)
      && (grant.Refresh? || grant.Rebind? ==> grant.worn in pool.idle)
  {
  }

  /** A pass takes its caller's slot, if it takes one, from the shelf. */
  lemma CheckedSlot(s: State, c: nat)
    requires Enabled(s, Check(c))
    ensures var t := AfterCheck(s, c);
      && t.pages == s.pages && c in t.callers && t.callers == s.callers[c := t.callers[c]]
      && (forall slot | slot in t.pool.idle :: slot in s.pool.idle)
      && (SlotOf(t.callers[c].pc).Some? ==> SlotOf(t.callers[c].pc).value in s.pool.idle)
  {
    TakeMakesNoSlots(s.pool.(woken := s.pool.woken - {c}), s.callers[c].binding, s.now, s.cfg.refresh);
  }

  lemma CheckKeepsAge(s: State, c: nat, page: nat, born: int)
    requires Enabled(s, Check(c)) && Aged(s, page, born)
    ensures Aged(AfterCheck(s, c), page, born)
  {
    CheckedSlot(s, c);
  }

  lemma StepKeepsAge(s: State, step: Step, page: nat, born: int)
    requires Enabled(s, step) && Aged(s, page, born)
    ensures Aged(Apply(s, step), page, born)
  {
    if step.Check? {
      CheckKeepsAge(s, step.caller, page, born);
    }
  }

  lemma {:induction false} RunKeepsAge(s: State, steps: seq<Step>, page: nat, born: int)
    requires Legal(s, steps) && Aged(s, page, born)
    ensures Aged(After(s, steps), page, born)
    decreases |steps|
  {
    if steps != [] {
      StepKeepsAge(s, steps[0], page, born);
      RunKeepsAge(Apply(s, steps[0]), steps[1..], page, born);
    }
  }

  /** A fresh page is nowhere else. */
  lemma OpenedNow(s: State, c: nat, page: nat)
    requires Inv(s) && Enabled(s, Open(c, page))
    ensures Aged(Apply(s, Open(c, page)), page, s.now)
  {
    forall slot | slot in s.pool.idle ensures slot.page != page {
      var i :| 0 <= i < |s.pool.idle| && s.pool.idle[i] == slot;
      assert Honest(s, s.pool.idle[i]);
    }
  }

  /** A pass serves a page as it is within the refresh age, and gives one up only past that age
      or for being somebody else's. */
  lemma PassServesYoung(u: State, d: nat, page: nat, born: int)
    requires Enabled(u, Check(d)) && Aged(u, page, born) && SlotOf(u.callers[d].pc).None?
    ensures var pc := Apply(u, Check(d)).callers[d].pc;
      && (pc.Holding? && pc.slot.page == page ==> u.now - born < u.cfg.refresh)
      && (pc.Opening? && pc.worn.Some? && pc.worn.value.page == page ==>
            u.now - born >= u.cfg.refresh || pc.worn.value.binding != u.callers[d].binding)
  {
    var looking := u.pool.(woken := u.pool.woken - {d});
    TakePrefersOwn(looking, u.callers[d].binding, u.now, u.cfg.refresh);
    var grant := Take(looking, u.callers[d].binding, u.now, u.cfg.refresh).1;
    if grant.Rebind? {
      assert grant.worn == u.pool.idle[0] && grant.worn in u.pool.idle;
    }
  }

  /** Whatever happens in between, a page found on the shelf is signed on as it is only within
      the refresh age of its opening, and one replaced instead is past that age or was opened
      for somebody else. */
  lemma ServedPagesAreYoung(s: State, before: seq<Step>, c: nat, page: nat, between: seq<Step>, d: nat)
    requires Init(s) && Legal(s, before)
    requires Enabled(After(s, before), Open(c, page))
    requires Legal(Apply(After(s, before), Open(c, page)), between)
    requires Enabled(After(Apply(After(s, before), Open(c, page)), between), Check(d))
    ensures var born := After(s, before).now;
      var u := After(Apply(After(s, before), Open(c, page)), between);
      var pc := Apply(u, Check(d)).callers[d].pc;
      && (pc.Holding? && pc.slot.page == page ==> u.now - born < u.cfg.refresh)
      && (pc.Opening? && pc.worn.Some? && pc.worn.value.page == page ==>
            u.now - born >= u.cfg.refresh || pc.worn.value.binding != u.callers[d].binding)
  {
    var t := After(s, before);
    InitHolds(s);
    RunKeepsInv(s, before);
    OpenedNow(t, c, page);
    var t' := Apply(t, Open(c, page));
    RunKeepsAge(t', between, page, t.now);
    var u := After(t', between);
    StepKeepsInv(t, Open(c, page));
    RunKeepsInv(t', between);
    PassServesYoung(u, d, page, t.now);
  }

  // Pages that failed

  /** On its way out, in one caller's hands, or closed. */
  ghost predicate Condemned(s: State, page: nat)
  {
    || (page in s.pages && s.pages[page].closed)
    || exists c :: c in s.callers && Discards(s.callers[c].pc, page)
  }

  predicate Discards(pc: Pc, page: nat)
  {
    || ((pc.Spoiled? || pc.Disposing?) && pc.slot.page == page)
    || (pc.Opening? && pc.worn.Some? && pc.worn.value.page == page)
  }

  lemma ClosedStaysClosed(s: State, step: Step, page: nat)
    requires Enabled(s, step) && page in s.pages && s.pages[page].closed
    ensures page in Apply(s, step).pages && Apply(s, step).pages[page].closed
  {
  }

  /** The caller that discards a page goes on doing so, or closes it. */
  lemma DiscardGoesOn(s: State, step: Step, c: nat, page: nat)
    requires Enabled(s, step) && Actor(step) == Some(c) && c in s.callers && Discards(s.callers[c].pc, page)
    requires step.Check? ==> !Discards(s.callers[c].pc, page)
    ensures var t := Apply(s, step);
      (page in t.pages && t.pages[page].closed) || (c in t.callers && Discards(t.callers[c].pc, page))
  {
  }

  lemma StepKeepsCondemned(s: State, step: Step, page: nat)
    requires Inv(s) && Enabled(s, step) && Condemned(s, page)
    ensures Condemned(Apply(s, step), page)
  {
    if page in s.pages && s.pages[page].closed {
      ClosedStaysClosed(s, step, page);
    } else {
      var c :| c in s.callers && Discards(s.callers[c].pc, page);
      if Actor(step) == Some(c) {
        DiscardGoesOn(s, step, c, page);
      } else {
        StepTouchesActor(s, step);
        assert c in Apply(s, step).callers && Apply(s, step).callers[c] == s.callers[c];
      }
    }
  }

  lemma {:induction false} RunKeepsCondemned(s: State, steps: seq<Step>, page: nat)
    requires Inv(s) && Legal(s, steps) && Condemned(s, page)
    ensures Condemned(After(s, steps), page)
    decreases |steps|
  {
    if steps != [] {
      StepKeepsCondemned(s, steps[0], page);
      StepKeepsInv(s, steps[0]);
      RunKeepsCondemned(Apply(s, steps[0]), steps[1..], page);
    }
  }

  /** On no shelf, and under no signing call. */
  ghost predicate Useless(s: State, page: nat)
  {
    && (forall slot | slot in s.pool.idle :: slot.page != page)
    && (forall d | d in s.callers && (s.callers[d].pc.Holding? || s.callers[d].pc.Signed?) ::
          s.callers[d].pc.slot.page != page)
  }

  lemma ClosedIsUseless(s: State, page: nat)
    requires Inv(s) && page in s.pages && s.pages[page].closed
    ensures Useless(s, page)
  {
    forall slot | slot in s.pool.idle ensures slot.page != page {
      var i :| 0 <= i < |s.pool.idle| && s.pool.idle[i] == slot;
      assert Honest(s, s.pool.idle[i]);
    }
    forall d | d in s.callers && (s.callers[d].pc.Holding? || s.callers[d].pc.Signed?)
      ensures s.callers[d].pc.slot.page != page
    {
      assert Honest(s, SlotOf(s.callers[d].pc).value);
    }
  }

  lemma DiscardedIsUseless(s: State, c: nat, page: nat)
    requires Inv(s) && c in s.callers && Discards(s.callers[c].pc, page)
    ensures Useless(s, page)
  {
    assert HeldPage(s, c) == Some(page);
    forall slot | slot in s.pool.idle ensures slot.page != page {
      var i :| 0 <= i < |s.pool.idle| && s.pool.idle[i] == slot;
    }
    forall d | d in s.callers && (s.callers[d].pc.Holding? || s.callers[d].pc.Signed?)
      ensures s.callers[d].pc.slot.page != page
    {
      assert d != c && HeldPage(s, d) == Some(s.callers[d].pc.slot.page);
    }
  }

  lemma CondemnedIsUseless(s: State, page: nat)
    requires Inv(s) && Condemned(s, page)
    ensures Useless(s, page)
  {
    if page in s.pages && s.pages[page].closed {
      ClosedIsUseless(s, page);
    } else {
      var c :| c in s.callers && Discards(s.callers[c].pc, page);
      DiscardedIsUseless(s, c, page);
    }
  }

  /** After a failed signature the page never serves anyone again: in every later state it is
      on no shelf and under no signing call. */
  lemma FailedPagesNeverServeAgain(s: State, before: seq<Step>, c: nat, later: seq<Step>)
    requires Init(s) && Legal(s, before) && Enabled(After(s, before), FailSign(c))
    requires Legal(Apply(After(s, before), FailSign(c)), later)
    ensures var page := After(s, before).callers[c].pc.slot.page;
      var u := After(Apply(After(s, before), FailSign(c)), later);
      && (forall slot | slot in u.pool.idle :: slot.page != page)
      && (forall d | d in u.callers && (u.callers[d].pc.Holding? || u.callers[d].pc.Signed?) ::
            u.callers[d].pc.slot.page != page)
  {
    var t := After(s, before);
    var page := t.callers[c].pc.slot.page;
    InitHolds(s);
    RunKeepsInv(s, before);
    StepKeepsInv(t, FailSign(c));
    var t' := Apply(t, FailSign(c));
    assert c in t'.callers && Discards(t'.callers[c].pc, page);
    RunKeepsInv(t', later);
    RunKeepsCondemned(t', later, page);
    CondemnedIsUseless(After(t', later), page);
  }

  /** Shutting down closes what is on the shelf and nothing else, and wakes everyone. */
  lemma ShutdownClosesTheShelf(s: State)
    ensures var t := Apply(s, Shutdown);
      && t.pool.idle == [] && t.pool.blocked == []
      && (forall c | c in s.pool.blocked || c in s.pool.woken :: c in t.pool.woken)
      && t.callers == s.callers && t.pages.Keys == s.pages.Keys
      && (forall p | p in s.pages ::
            && (t.pages[p].closed <==> s.pages[p].closed || exists slot | slot in s.pool.idle :: slot.page == p)
            && t.pages[p].jar == s.pages[p].jar && t.pages[p].proxy == s.pages[p].proxy)
  {
  }

  // Attempts

  /** How many attempts of call `c` ended badly along a run. */
  function BadEnds(s: State, steps: seq<Step>, c: nat): nat
    requires Legal(s, steps)
    decreases |steps|
  {
    if steps == [] then 0
    else
      var t := Apply(s, steps[0]);
      (if EndsBadly(s, t, steps[0], c) then 1 else 0) + BadEnds(t, steps[1..], c)
  }

  /** No page in time, a page that would not open, or a page that was thrown away. */
  predicate EndsBadly(s: State, t: State, step: Step, c: nat)
  {
    && c in s.callers && c in t.callers
    && match step
       case Check(d) =>
         && d == c && s.pool.idle == [] && s.pool.live >= s.pool.capacity && s.callers[c].deadline <= s.now
       case ReturnCredit(d) => d == c && s.callers[c].pc.OpenFailed? && s.callers[c].pc.retryable
       case Dispose(d) => d == c
       case _ => false
  }

  /** Bad ends so far, told from the record: none yet, one, or two and over. */
  function Spent(k: Caller): nat
  {
    if k.pc == Finished(Failed) then 2 else if k.attempt == 2 then 1 else 0
  }

  lemma StepSpends(s: State, step: Step, c: nat)
    requires Inv(s) && Enabled(s, step) && c in s.callers
    ensures c in Apply(s, step).callers
    ensures Spent(Apply(s, step).callers[c]) ==
      Spent(s.callers[c]) + if EndsBadly(s, Apply(s, step), step, c) then 1 else 0
  {
    StepTouchesActor(s, step);
    assert CallerSound(s, c);
    if Actor(step) == Some(c) && step.Check? {
      TakePrefersOwn(s.pool.(woken := s.pool.woken - {c}), s.callers[c].binding, s.now, s.cfg.refresh);
    }
  }

  lemma {:induction false} RunSpends(s: State, steps: seq<Step>, c: nat)
    requires Inv(s) && Legal(s, steps)
    ensures c in s.callers ==> c in After(s, steps).callers
    ensures c in After(s, steps).callers ==>
      Spent(After(s, steps).callers[c]) ==
        (if c in s.callers then Spent(s.callers[c]) else 0) + BadEnds(s, steps, c)
    decreases |steps|
  {
    if steps != [] {
      var t := Apply(s, steps[0]);
      StepTouchesActor(s, steps[0]);
      StepKeepsInv(s, steps[0]);
      if c in s.callers {
        StepSpends(s, steps[0], c);
      }
      RunSpends(t, steps[1..], c);
    }
  }

  /** A call fails exactly when two of its attempts ended badly, and never makes a third. */
  lemma FailsExactlyAfterTwoBadEnds(s: State, steps: seq<Step>, c: nat)
    requires Init(s) && Legal(s, steps) && c in After(s, steps).callers
    ensures After(s, steps).callers[c].pc == Finished(Failed) <==> BadEnds(s, steps, c) == 2
    ensures BadEnds(s, steps, c) <= 2
  {
    InitHolds(s);
    RunSpends(s, steps, c);
  }

  /** Each attempt starts from a look at the pool with the whole waiting time ahead of it, and
      the deadline moves only then. */
  lemma EachAttemptHasItsOwnDeadline(s: State, step: Step, c: nat)
    requires Enabled(s, step) && c in Apply(s, step).callers
    ensures var k := Apply(s, step).callers[c];
      if c in s.callers && k.attempt == s.callers[c].attempt then k.deadline == s.callers[c].deadline
      else k.deadline == s.now + s.cfg.openTimeout && k.pc == Checking
    ensures c !in s.callers ==> Apply(s, step).callers[c].attempt == 1
  {
    StepTouchesActor(s, step);
  }

  // Nobody is stuck

  /** Whoever sleeps is known to the pool, as asleep or as woken. */
  ghost predicate SleepersAreKnown(s: State)
  {
    forall c | c in s.callers && s.callers[c].pc.Parked? :: c in s.pool.blocked || c in s.pool.woken
  }

  lemma WaitersStay(s: State, step: Step, c: nat)
    requires Enabled(s, step) && NoLostWakeup(s) && (c in s.pool.blocked || c in s.pool.woken)
    requires step != Check(c)
    ensures c in PoolAfter(s, step).blocked || c in PoolAfter(s, step).woken
  {
    if step.NapEnds? {
      DropFirstDrops(s.pool.blocked, step.caller);
    }
  }

  lemma StepKnowsSleepers(s: State, step: Step)
    requires Enabled(s, step) && NoLostWakeup(s) && SleepersAreKnown(s)
    ensures SleepersAreKnown(Apply(s, step))
  {
    var t := Apply(s, step);
    StepUsesPool(s, step);
    StepTouchesActor(s, step);
    forall c | c in t.callers && t.callers[c].pc.Parked? ensures c in t.pool.blocked || c in t.pool.woken {
      if step == Check(c) {
        CheckedSleepsKnown(s, c);
      } else {
        assert c in s.callers && s.callers[c].pc.Parked?;
        WaitersStay(s, step, c);
      }
    }
  }

  lemma CheckedSleepsKnown(s: State, c: nat)
    requires Enabled(s, Check(c))
    ensures Apply(s, Check(c)).callers[c].pc.Parked? ==> c in Apply(s, Check(c)).pool.blocked
  {
  }

  lemma {:induction false} RunKnowsSleepers(s: State, steps: seq<Step>)
    requires Inv(s) && Legal(s, steps) && SleepersAreKnown(s)
    ensures SleepersAreKnown(After(s, steps))
    decreases |steps|
  {
    if steps != [] {
      StepKnowsSleepers(s, steps[0]);
      StepKeepsInv(s, steps[0]);
      RunKnowsSleepers(Apply(s, steps[0]), steps[1..]);
    }
  }

  /** In every reachable state a call that has not ended can go on, and where the outcome is the
      browser's - opening, signing - with either one. A sleeper can always look again by itself. */
  lemma NoCallIsStuck(s: State, steps: seq<Step>, c: nat, page: nat)
    requires Init(s) && Legal(s, steps)
    requires c in After(s, steps).callers && page !in After(s, steps).pages
    ensures var t := After(s, steps);
      match t.callers[c].pc
      case Checking => Enabled(t, Check(c))
      case Parked => Enabled(t, Check(c)) || Enabled(t, NapEnds(c))
      case Opening(worn) =>
        if worn.Some? then Enabled(t, CloseWorn(c))
        else Enabled(t, Open(c, page)) && Enabled(t, FailOpen(c, true)) && Enabled(t, FailOpen(c, false))
      case OpenFailed(_) => Enabled(t, ReturnCredit(c))
      case Holding(_) => Enabled(t, Sign(c)) && Enabled(t, FailSign(c))
      case Signed(_, _) => Enabled(t, Release(c))
      case Spoiled(_) => Enabled(t, Discard(c))
      case Disposing(_) => Enabled(t, Dispose(c))
      case Finished(_) => true
  {
    var t := After(s, steps);
    InitHolds(s);
    RunKeepsInv(s, steps);
    RunKnowsSleepers(s, steps);
    var pc := t.callers[c].pc;
    assert SlotOf(pc).Some? ==> Honest(t, SlotOf(pc).value);
  }
}
