/** Safety of the warm pool over every run: whose page signs, where the credits are, and who
    is still waiting. */
module SigningTheorems {
  import opened Options
  import opened Dicts
  import opened BindingKey
  import opened WarmPool
  import opened FakePage
  import opened SigningService
  import opened SigningProofs

  ghost predicate Legal(s: State, steps: seq<Step>)
    decreases |steps|
  {
    steps == [] || (Enabled(s, steps[0]) && Legal(Apply(s, steps[0]), steps[1..]))
  }

  function After(s: State, steps: seq<Step>): State
    requires Legal(s, steps)
    decreases |steps|
  {
    if steps == [] then s else After(Apply(s, steps[0]), steps[1..])
  }

  lemma InitHolds(s: State)
    requires Init(s)
    ensures Inv(s)
  {
    assert Owners(s) == {};
  }

  lemma {:induction false} RunKeepsInv(s: State, steps: seq<Step>)
    requires Inv(s) && Legal(s, steps)
    ensures Inv(After(s, steps))
    decreases |steps|
  {
    if steps != [] {
      StepKeepsInv(s, steps[0]);
      RunKeepsInv(Apply(s, steps[0]), steps[1..]);
    }
  }

  // Whose page

  /** The identities a run speaks of: each readable on its own, any two told apart. */
  ghost predicate Distinguishable(cfg: Config, ids: set<(seq<Entry>, string)>)
  {
    && ([], "") in ids
    && (forall a | a in ids :: Unambiguous(a.0, a.1))
    && (forall a, b | a in ids && b in ids :: Separates(cfg.digest, KeyText(a.0, a.1), KeyText(b.0, b.1)))
  }

  ghost predicate ComesFrom(s: State, ids: set<(seq<Entry>, string)>)
  {
    && (forall p | p in s.pages :: (s.pages[p].jar, s.pages[p].proxy) in ids)
    && (forall c | c in s.callers :: (s.callers[c].jar, s.callers[c].proxy) in ids)
  }

  /** Every request that arrives is one of these identities: its own proxy when it names one,
      and the configured signing proxy when it does not. */
  ghost predicate Speaks(cfg: Config, steps: seq<Step>, ids: set<(seq<Entry>, string)>)
  {
    forall i | 0 <= i < |steps| && steps[i].Arrive? ::
      var r := steps[i].request;
      (r.jar, if r.proxy != "" then r.proxy else cfg.signProxy) in ids
  }

  lemma StepComesFrom(s: State, step: Step, ids: set<(seq<Entry>, string)>)
    requires Enabled(s, step) && ComesFrom(s, ids)
    requires step.Arrive? ==>
      (step.request.jar, if step.request.proxy != "" then step.request.proxy else s.cfg.signProxy) in ids
    ensures ComesFrom(Apply(s, step), ids)
  {
  }

  lemma {:induction false} RunComesFrom(s: State, steps: seq<Step>, ids: set<(seq<Entry>, string)>)
    requires Legal(s, steps) && ComesFrom(s, ids) && Speaks(s.cfg, steps, ids)
    ensures ComesFrom(After(s, steps), ids) && After(s, steps).cfg == s.cfg
    decreases |steps|
  {
    if steps != [] {
      assert steps[0].Arrive? ==> steps[0].request == steps[0 + 0].request;
      StepComesFrom(s, steps[0], ids);
      StepTouchesActor(s, steps[0]);
      assert forall i | 0 <= i < |steps[1..]| :: steps[1..][i] == steps[i + 1];
      RunComesFrom(Apply(s, steps[0]), steps[1..], ids);
    }
  }

  /** What a call was asked to do never changes once it has arrived. */
  ghost predicate Remembers(cfg: Config, k: Caller, r: Request)
  {
    && k.jar == r.jar
    && k.proxy == (if r.proxy != "" then r.proxy else cfg.signProxy)
    && k.plan == r.plan
  }

  lemma StepRemembers(s: State, step: Step, c: nat, r: Request)
    requires Enabled(s, step)
    requires step == Arrive(c, r) || (c in s.callers && Remembers(s.cfg, s.callers[c], r))
    ensures c in Apply(s, step).callers && Remembers(s.cfg, Apply(s, step).callers[c], r)
  {
  }

  lemma {:induction false} ArrivalIsRemembered(s: State, steps: seq<Step>, c: nat, r: Request)
    requires Legal(s, steps)
    requires Arrive(c, r) in steps || (c in s.callers && Remembers(s.cfg, s.callers[c], r))
    ensures c in After(s, steps).callers && Remembers(s.cfg, After(s, steps).callers[c], r)
    decreases |steps|
  {
    if steps != [] {
      StepTouchesActor(s, steps[0]);
      if steps[0] == Arrive(c, r) || (c in s.callers && Remembers(s.cfg, s.callers[c], r)) {
        StepRemembers(s, steps[0], c, r);
      } else {
        assert steps == [steps[0]] + steps[1..];
      }
      ArrivalIsRemembered(Apply(s, steps[0]), steps[1..], c, r);
    }
  }

  /** A call that is there has arrived. */
  lemma {:induction false} CallersArrive(s: State, steps: seq<Step>, c: nat)
    requires Legal(s, steps) && c !in s.callers && c in After(s, steps).callers
    ensures exists r :: Arrive(c, r) in steps
    decreases |steps|
  {
    StepTouchesActor(s, steps[0]);
    if c in Apply(s, steps[0]).callers {
      assert steps[0] == Arrive(c, steps[0].request);
    } else {
      CallersArrive(Apply(s, steps[0]), steps[1..], c);
      var r :| Arrive(c, r) in steps[1..];
      assert Arrive(c, r) in steps;
    }
  }

  ghost predicate Answers(t: State, c: nat)
  {
    c in t.callers && t.callers[c].pc.Finished? && t.callers[c].pc.result.Answered?
  }

  /** Whatever the interleaving, every answered call arrived with some request, and the page
      behind its answer was opened with that request's cookies and through that request's
      exit; the answer is that page's signature of that request's plan. */
  lemma EveryAnswerIsFromOwnPage(s: State, steps: seq<Step>, ids: set<(seq<Entry>, string)>, c: nat)
    requires Init(s) && Legal(s, steps)
    requires Distinguishable(s.cfg, ids) && Speaks(s.cfg, steps, ids)
    requires Answers(After(s, steps), c)
    ensures exists r :: Arrive(c, r) in steps
    ensures var t := After(s, steps);
      var answer := t.callers[c].pc.result;
      forall r | Arrive(c, r) in steps ::
        && answer.page in t.pages
        && AsMap(t.pages[answer.page].jar) == AsMap(r.jar)
        && t.pages[answer.page].proxy == (if r.proxy != "" then r.proxy else s.cfg.signProxy)
        && answer.signed == Signature(s.cfg.hash, s.cfg.platform, t.pages[answer.page].jar, r.plan)
  {
    var t := After(s, steps);
    InitHolds(s);
    RunKeepsInv(s, steps);
    RunComesFrom(s, steps, ids);
    CallersArrive(s, steps, c);
    var k := t.callers[c];
    assert CallerSound(t, c);
    var page := t.pages[k.pc.result.page];
    assert (page.jar, page.proxy) in ids && (k.jar, k.proxy) in ids;
    SameKeyIffSameIdentity(t.cfg.digest, page.jar, page.proxy, k.jar, k.proxy);
    forall r | Arrive(c, r) in steps ensures Remembers(s.cfg, k, r) {
      ArrivalIsRemembered(s, steps, c, r);
    }
  }

  /** So a Douyin answer names the visitor cookie of the request it answers, and names one
      whenever the request carries one. */
  lemma VerifyFpIsOwnVisitor(
    s: State, steps: seq<Step>, ids: set<(seq<Entry>, string)>, c: nat, r: Request)
    requires Init(s) && Legal(s, steps)
    requires Distinguishable(s.cfg, ids) && Speaks(s.cfg, steps, ids)
    requires Answers(After(s, steps), c) && Arrive(c, r) in steps
    ensures var signed := After(s, steps).callers[c].pc.result.signed;
      var own := AsMap(r.jar);
      && ("verifyFp" in signed <==>
          s.cfg.platform.Douyin? && "s_v_web_id" in own && own["s_v_web_id"] != "")
      && ("verifyFp" in signed ==> signed["verifyFp"] == own["s_v_web_id"])
  {
    EveryAnswerIsFromOwnPage(s, steps, ids, c);
    var t := After(s, steps);
    NamesOwnVisitor(s.cfg.hash, s.cfg.platform, t.pages[t.callers[c].pc.result.page].jar, r.plan);
  }

  /** No caller ever signs on a page the service has closed, or on a page another caller or
      the shelf also has. */
  lemma HeldPagesAreOpenAndExclusive(s: State, steps: seq<Step>, c: nat)
    requires Init(s) && Legal(s, steps)
    requires c in After(s, steps).callers && After(s, steps).callers[c].pc.Holding?
    ensures var t := After(s, steps);
      var page := t.callers[c].pc.slot.page;
      && page in t.pages && !t.pages[page].closed
      && (forall slot | slot in t.pool.idle :: slot.page != page)
      && (forall d | d != c && d in t.callers && t.callers[d].pc.Holding? :: t.callers[d].pc.slot.page != page)
  {
    var t := After(s, steps);
    InitHolds(s);
    RunKeepsInv(s, steps);
    assert HeldPage(t, c) == Some(t.callers[c].pc.slot.page);
    forall slot | slot in t.pool.idle ensures slot.page != t.callers[c].pc.slot.page {
      var i :| 0 <= i < |t.pool.idle| && t.pool.idle[i] == slot;
      assert HeldPage(t, c).value != t.pool.idle[i].page;
    }
    forall d | d != c && d in t.callers && t.callers[d].pc.Holding?
      ensures t.callers[d].pc.slot.page != t.callers[c].pc.slot.page
    {
      assert HeldPage(t, d) == Some(t.callers[d].pc.slot.page);
    }
  }

  // Credits

  /** In every reachable state the credits are the idle pages and the calls that own one. */
  lemma CreditsAreConserved(s: State, steps: seq<Step>)
    requires Init(s) && Legal(s, steps)
    ensures var t := After(s, steps);
      && t.pool.live == |t.pool.idle| + |Owners(t)|
      && 0 <= t.pool.live <= t.pool.capacity
      && ((forall c | c in t.callers :: t.callers[c].pc.Finished?) ==> t.pool.live == |t.pool.idle|)
  {
    InitHolds(s);
    RunKeepsInv(s, steps);
    var t := After(s, steps);
    if forall c | c in t.callers :: t.callers[c].pc.Finished? {
      assert Owners(t) == {};
    }
  }

  /** What caller `c`'s own steps did to the credits off the shelf, summed over a run. */
  function NetCredits(s: State, steps: seq<Step>, c: nat): int
    requires Legal(s, steps)
    decreases |steps|
  {
    if steps == [] then 0
    else
      var t := Apply(s, steps[0]);
      (if Actor(steps[0]) == Some(c) then Out(t) - Out(s) else 0) + NetCredits(t, steps[1..], c)
  }

  /** A call's balance is always the one credit it owns or nothing, so a call that has ended -
      answered, failed twice, or crashed opening a page - has given back all it took. */
  lemma {:induction false} CallsBalance(s: State, steps: seq<Step>, c: nat)
    requires Inv(s) && Legal(s, steps)
    ensures NetCredits(s, steps, c) == Credit(After(s, steps), c) - Credit(s, c)
    ensures c !in s.callers && c in After(s, steps).callers && After(s, steps).callers[c].pc.Finished?
      ==> NetCredits(s, steps, c) == 0
    decreases |steps|
  {
    if steps != [] {
      var t := Apply(s, steps[0]);
      StepMovesOwnCredit(s, steps[0]);
      StepTouchesActor(s, steps[0]);
      StepKeepsInv(s, steps[0]);
      CallsBalance(t, steps[1..], c);
    }
  }

  // Waiting

  /** A look at the pool fails exactly when nothing is available at that moment; only then is
      the attempt's deadline consulted, and only a passed deadline ends the attempt. */
  lemma TimesOutOnlyWhenNothingAvailable(s: State, c: nat)
    requires Inv(s) && Enabled(s, Check(c))
    ensures var t := Apply(s, Check(c));
      && (Owns(t.callers[c].pc) <==> Available(s.pool) > 0)
      && (Available(s.pool) == 0 && s.callers[c].deadline > s.now <==> t.callers[c].pc == Parked)
      && (Available(s.pool) == 0 && s.callers[c].deadline <= s.now <==>
          t.callers[c].attempt > s.callers[c].attempt || t.callers[c].pc.Finished?)
  {
    var looking := s.pool.(woken := s.pool.woken - {c});
    TakeSpendsOne(looking, s.callers[c].binding, s.now, s.cfg.refresh);
    assert CallerSound(s, c);
    assert !s.callers[c].pc.Finished?;
  }

  /** While a caller sleeps un-notified and a credit is available, some woken caller is about
      to look and will get one: no release goes unheard. */
  lemma NoReleaseIsLost(s: State, steps: seq<Step>)
    requires Init(s) && Legal(s, steps)
    ensures var t := After(s, steps);
      && (t.pool.blocked != [] ==> Available(t.pool) <= |t.pool.woken|)
      && (t.pool.blocked != [] && Available(t.pool) > 0 ==>
          exists w | w in t.pool.woken ::
            Enabled(t, Check(w)) && Owns(Apply(t, Check(w)).callers[w].pc))
  {
    var t := After(s, steps);
    InitHolds(s);
    RunKeepsInv(s, steps);
    if t.pool.blocked != [] && Available(t.pool) > 0 {
      assert t.pool.woken != {};
      var w :| w in t.pool.woken;
      assert Enabled(t, Check(w));
      TimesOutOnlyWhenNothingAvailable(t, w);
    }
  }
}
