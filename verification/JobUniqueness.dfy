/** One live job per id: what the by-id deletion of a refused `submit` can forget, exactly when,
    and how callers avoid it. */
module JobUniqueness {
  import opened Lists
  import opened Options
  import opened JobQueue
  import opened JobSystem
  import opened Hands
  import opened JobProofs
  import opened JobTheorems

  /** Every job some hand will still act on, and that is not over, can be found by its id. */
  ghost predicate NoLiveForgotten(s: State)
  {
    forall j | j in s.t.records && j in s.place && s.place[j] != Nowhere && !Terminal(s.t.records[j].state) ::
      s.t.records[j].id in s.t.jobs && s.t.jobs[s.t.records[j].id] == j
  }

  /** And every job that can be found and is not over is in some hand. */
  ghost predicate LiveInHand(s: State)
  {
    forall id | id in s.t.jobs && Live(s.t, id) && s.t.jobs[id] in s.place :: s.place[s.t.jobs[id]] != Nowhere
  }

  /** What the refused half of `submit` would have to check before deleting by id: that the
      id does not meanwhile name some other job still in flight. */
  ghost predicate RefusalIsSafe(s: State, p: nat)
    requires p in s.submits && s.submits[p].job in s.t.records
  {
    var id := s.t.records[s.submits[p].job].id;
    id in s.t.jobs && s.t.jobs[id] != s.submits[p].job ==> !Live(s.t, id)
  }

  lemma EvictKeepsLive(t: Table<nat>, id: string)
    requires Indexed(t) && Live(t, id)
    ensures id in Evict(t).jobs && Evict(t).jobs[id] == t.jobs[id]
  {
    EvictForgetsPrefix(t);
    forall i | 0 <= i < Evicted(t) ensures t.order[..Evicted(t)][i] != id {
      assert !Live(t, t.order[i]);
    }
  }

  lemma FinishKeepsLive(t: Table<nat>, j: nat, state: JobState, failure: string, now: int, id: string)
    requires Indexed(t) && j in t.records && Live(t, id) && t.jobs[id] != j
    ensures var u := JobQueue.Finish(t, j, state, failure, now); id in u.jobs && u.jobs[id] == t.jobs[id]
  {
    var u := t.(records := t.records[j := FinishJob(t.records[j], state, failure, now)]);
    SameIndex(t, u);
    if !(t.records[j].state == Cancelled && state != Cancelled) {
      EvictKeepsLive(u, id);
    }
  }

  lemma AddKeepsLive(t: Table<nat>, j: nat, job: Job, id: string)
    requires Indexed(t) && j !in t.records && job.id !in t.jobs && !Terminal(job.state)
    requires Live(t, id) || id == job.id
    ensures var u := Add(t, j, job); id in u.jobs && u.jobs[id] == if id == job.id then j else t.jobs[id]
  {
    EvictKeepsLive(t.(records := t.records[j := job], jobs := t.jobs[job.id := j], order := t.order + [job.id]), id);
  }

  /** A live job keeps being found through a step that is about another job. */
  lemma OthersStayFound(s: State, step: Step, id: string)
    requires Indexed(s.t) && Enabled(s, step) && Live(s.t, id)
    requires step.Refuse? ==> id != s.t.records[s.submits[step.p].job].id
    requires step.Finish? ==> s.t.jobs[id] != JobAt(s, step.w)
    ensures id in Apply(s, step).t.jobs && Apply(s, step).t.jobs[id] == s.t.jobs[id]
  {
    if LeavesIndex(step) {
      OtherStepsLeaveIndex(s, step);
    } else {
      match step
      case Submit(_, c, cid, items) =>
        if cid !in s.t.jobs {
          AddKeepsLive(s.t, c, NewJob(cid, items), id);
        }
      case Finish(w) =>
        FinishKeepsLive(s.t, JobAt(s, w), s.workers[w].verdict, s.workers[w].failure, s.now, id);
      case Refuse(_) =>
    }
  }

  lemma StepKeepsIds(s: State, step: Step, j: nat)
    requires Enabled(s, step) && j in s.t.records
    ensures j in RecordsAfter(s, step) && RecordsAfter(s, step)[j].id == s.t.records[j].id
  {
    if LeavesIndex(step) {
      OtherStepsLeaveIndex(s, step);
    }
  }

  /** A step that leaves its own job live and in hand started from the same, or accepted it. */
  lemma OwnWasLive(s: State, step: Step, j: nat)
    requires Inv(s) && Enabled(s, step) && Touched(s, step) == Some(j)
    requires j in RecordsAfter(s, step) && !Terminal(RecordsAfter(s, step)[j].state)
    requires j in Apply(s, step).place && Apply(s, step).place[j] != Nowhere
    ensures step.Submit? || (!step.Refuse? && !step.Finish?)
    ensures !step.Submit? ==>
      && j in s.t.records && !Terminal(s.t.records[j].state) && s.place[j] != Nowhere
      && RecordsAfter(s, step)[j].id == s.t.records[j].id
  {
    if !step.Submit? {
      TouchedIsKnown(s, step, j);
      StepRecords(s, step);
      StepsGoForward(s, step, j);
      StepKeepsIds(s, step, j);
      TouchedWasInHand(s, step, j);
    }
  }

  lemma TouchedWasInHand(s: State, step: Step, j: nat)
    requires Inv(s) && Enabled(s, step) && Touched(s, step) == Some(j) && !step.Submit? && j in s.place
    requires j in Apply(s, step).place && Apply(s, step).place[j] != Nowhere
    ensures s.place[j] != Nowhere && !step.Refuse? && !step.Finish?
  {
    if step.Receive? {
      assert j in s.t.queue;
    }
  }

  lemma StepForgetsNoLive(s: State, step: Step)
    requires Inv(s) && NoLiveForgotten(s) && Enabled(s, step)
    requires step.Refuse? ==> RefusalIsSafe(s, step.p)
    ensures NoLiveForgotten(Apply(s, step))
  {
    var u := Apply(s, step);
    StepRecords(s, step);
    forall j | j in u.t.records && j in u.place && u.place[j] != Nowhere && !Terminal(u.t.records[j].state)
      ensures u.t.records[j].id in u.t.jobs && u.t.jobs[u.t.records[j].id] == j
    {
      StaysFound(s, step, j);
    }
  }

  lemma StaysFound(s: State, step: Step, j: nat)
    requires Inv(s) && NoLiveForgotten(s) && Enabled(s, step)
    requires step.Refuse? ==> RefusalIsSafe(s, step.p)
    requires j in RecordsAfter(s, step) && !Terminal(RecordsAfter(s, step)[j].state)
    requires j in Apply(s, step).place && Apply(s, step).place[j] != Nowhere
    ensures var id, jobs := RecordsAfter(s, step)[j].id, Apply(s, step).t.jobs;
      id in jobs && jobs[id] == j
  {
    StepRecords(s, step);
    if Touched(s, step) == Some(j) {
      OwnWasLive(s, step, j);
      if step.Submit? {
        AddKeepsLive(s.t, j, NewJob(step.id, step.items), step.id);
      } else {
        OthersStayFound(s, step, s.t.records[j].id);
      }
    } else {
      OthersStay(s, step, j);
      OthersStayFound(s, step, s.t.records[j].id);
    }
  }

  /** A job that can be found and is not over stays in some hand until it is over or refused. */
  lemma StepKeepsLiveInHand(s: State, step: Step)
    requires Inv(s) && LiveInHand(s) && Enabled(s, step)
    ensures LiveInHand(Apply(s, step))
  {
    var u := Apply(s, step);
    StepRecords(s, step);
    forall id | id in u.t.jobs && Live(u.t, id) && u.t.jobs[id] in u.place ensures u.place[u.t.jobs[id]] != Nowhere {
      FoundIsInHand(s, step, id);
    }
  }

  lemma FoundIsInHand(s: State, step: Step, id: string)
    requires Inv(s) && LiveInHand(s) && Enabled(s, step)
    requires var u := Apply(s, step); id in u.t.jobs && Live(u.t, id) && u.t.jobs[id] in u.place
    ensures var u := Apply(s, step); u.place[u.t.jobs[id]] != Nowhere
  {
    var u := Apply(s, step);
    var j := u.t.jobs[id];
    StepRecords(s, step);
    if !step.Submit? || j != step.job {
      NamesComeFromBefore(s, step, id);
      StepsGoForward(s, step, j);
      assert Live(s.t, id);
      if Touched(s, step) != Some(j) {
        OthersStay(s, step, j);
      } else {
        TouchedStaysInHand(s, step, j);
      }
    }
  }

  /** Only a submission puts a name in the table. */
  lemma NamesComeFromBefore(s: State, step: Step, id: string)
    requires Indexed(s.t) && Enabled(s, step) && id in Apply(s, step).t.jobs
    requires step.Submit? ==> Apply(s, step).t.jobs[id] != step.job
    ensures id in s.t.jobs && s.t.jobs[id] == Apply(s, step).t.jobs[id]
  {
    if LeavesIndex(step) {
      OtherStepsLeaveIndex(s, step);
    } else {
      match step
      case Submit(_, c, cid, items) =>
        if cid !in s.t.jobs {
          AddedOrder(s.t, cid);
          EvictForgetsPrefix(
            s.t.(records := s.t.records[c := NewJob(cid, items)], jobs := s.t.jobs[cid := c],
                 order := s.t.order + [cid]));
        }
      case Finish(w) =>
        var j, pc := JobAt(s, w), s.workers[w];
        EvictForgetsPrefix(s.t.(records := s.t.records[j := FinishJob(s.t.records[j], pc.verdict, pc.failure, s.now)]));
      case Refuse(_) =>
    }
  }

  lemma AddedOrder(t: Table<nat>, id: string)
    requires Indexed(t) && id !in t.jobs
    ensures NoRepeats(t.order + [id])
  {
    AppendDiffers(t.order, id);
  }

  /** The job a step is about leaves its hand only when it is over, or out of the table. */
  lemma TouchedStaysInHand(s: State, step: Step, j: nat)
    requires Inv(s) && Enabled(s, step) && Touched(s, step) == Some(j) && j in s.t.records && !step.Submit?
    requires j in Apply(s, step).place && s.place[j] != Nowhere
    requires j in RecordsAfter(s, step) && !Terminal(RecordsAfter(s, step)[j].state)
    requires step.Refuse? ==> s.t.records[j].id in Apply(s, step).t.jobs
    ensures Apply(s, step).place[j] != Nowhere
  {
    assert Sound(s, j);
    if step.Start? {
      StartLetsGoWhenOver(s, step.w, step.pathOk);
    } else if step.Finish? {
      FinishLeavesItOver(s, step.w);
    } else if !step.Refuse? {
      QuietStepsKeepHands(s, step, j);
    }
  }

  /** Only the end of a submission, of a run, or of a skipped job lets go of a job. */
  lemma QuietStepsKeepHands(s: State, step: Step, j: nat)
    requires Enabled(s, step) && j in s.place && !step.Submit? && !step.Refuse? && !step.Start? && !step.Finish?
    ensures j in Apply(s, step).place && (s.place[j] != Nowhere ==> Apply(s, step).place[j] != Nowhere)
  {
  }

  lemma StartLetsGoWhenOver(s: State, w: nat, pathOk: bool)
    requires Enabled(s, Start(w, pathOk)) && s.place.Keys == s.t.records.Keys && s.place[JobAt(s, w)] != Nowhere
    ensures var j, u := JobAt(s, w), Apply(s, Start(w, pathOk));
      j in u.place && (u.place[j] == Nowhere ==> Terminal(u.t.records[j].state))
  {
  }

  lemma FinishLeavesItOver(s: State, w: nat)
    requires Inv(s) && Enabled(s, Finish(w))
    ensures Terminal(RecordsAfter(s, Finish(w))[JobAt(s, w)].state)
  {
    assert Sound(s, JobAt(s, w));
  }

  lemma RefusalForgets(s: State, p: nat)
    requires Inv(s) && NoLiveForgotten(s) && LiveInHand(s) && Enabled(s, Refuse(p))
    ensures NoLiveForgotten(Apply(s, Refuse(p))) <==> RefusalIsSafe(s, p)
  {
    if RefusalIsSafe(s, p) {
      StepForgetsNoLive(s, Refuse(p));
    } else {
      UnsafeRefusalForgets(s, p);
    }
  }

  lemma UnsafeRefusalForgets(s: State, p: nat)
    requires Indexed(s.t) && s.place.Keys == s.t.records.Keys && LiveInHand(s)
    requires Enabled(s, Refuse(p)) && !RefusalIsSafe(s, p)
    ensures !NoLiveForgotten(Apply(s, Refuse(p)))
  {
    var u := Apply(s, Refuse(p));
    var k := s.t.jobs[s.t.records[s.submits[p].job].id];
    assert k in u.t.records && u.place[k] != Nowhere && !Terminal(u.t.records[k].state);
    assert u.t.records[k].id !in u.t.jobs;
  }

  ghost predicate SafeRun(s: State, steps: seq<Step>)
    requires Legal(s, steps)
    decreases |steps|
  {
    steps == [] ||
      ((steps[0].Refuse? ==> RefusalIsSafe(s, steps[0].p)) && SafeRun(Apply(s, steps[0]), steps[1..]))
  }

  lemma {:induction false} SafeRunsForgetNoLive(s: State, steps: seq<Step>)
    requires Inv(s) && NoLiveForgotten(s) && Legal(s, steps) && SafeRun(s, steps)
    ensures Inv(After(s, steps)) && NoLiveForgotten(After(s, steps))
    decreases |steps|
  {
    if steps != [] {
      StepKeepsInv(s, steps[0]);
      StepForgetsNoLive(s, steps[0]);
      SafeRunsForgetNoLive(Apply(s, steps[0]), steps[1..]);
    }
  }

  // What forgets a live job

  ghost predicate NeverForgets(s: State, steps: seq<Step>)
    requires Legal(s, steps)
    decreases |steps|
  {
    NoLiveForgotten(s) && (steps != [] ==> NeverForgets(Apply(s, steps[0]), steps[1..]))
  }

  lemma {:induction false} SafeExactly(s: State, steps: seq<Step>)
    requires Inv(s) && LiveInHand(s) && NoLiveForgotten(s) && Legal(s, steps)
    ensures NeverForgets(s, steps) <==> SafeRun(s, steps)
    decreases |steps|
  {
    if steps != [] {
      var u := Apply(s, steps[0]);
      StepKeepsInv(s, steps[0]);
      StepKeepsLiveInHand(s, steps[0]);
      if steps[0].Refuse? {
        RefusalForgets(s, steps[0].p);
      } else {
        StepForgetsNoLive(s, steps[0]);
      }
      if NoLiveForgotten(u) {
        SafeExactly(u, steps[1..]);
      }
    }
  }

  /** A run from an empty table never makes a live job unreachable if and only if no refused
      `submit` in it deletes an id that names some other live job: nothing else forgets one. */
  lemma RunsForgetExactlyWhenUnsafe(s: State, steps: seq<Step>)
    requires Init(s) && Legal(s, steps)
    ensures NeverForgets(s, steps) <==> SafeRun(s, steps)
  {
    InitHolds(s);
    SafeExactly(s, steps);
  }

  lemma {:induction false} RunKeepsLiveInHand(s: State, steps: seq<Step>)
    requires Inv(s) && LiveInHand(s) && Legal(s, steps)
    ensures LiveInHand(After(s, steps))
    decreases |steps|
  {
    if steps != [] {
      StepKeepsInv(s, steps[0]);
      StepKeepsLiveInHand(s, steps[0]);
      RunKeepsLiveInHand(Apply(s, steps[0]), steps[1..]);
    }
  }

  /** In every reachable state that has forgotten nothing, the refused half of `submit` keeps
      every live job reachable exactly when its id does not name another live job. */
  lemma RefusalForgetsExactlyWhenUnsafe(s: State, steps: seq<Step>, p: nat)
    requires Init(s) && Legal(s, steps)
    requires NoLiveForgotten(After(s, steps)) && Enabled(After(s, steps), Refuse(p))
    ensures NoLiveForgotten(Apply(After(s, steps), Refuse(p))) <==> RefusalIsSafe(After(s, steps), p)
  {
    InitHolds(s);
    RunKeepsInv(s, steps);
    RunKeepsLiveInHand(s, steps);
    RefusalForgets(After(s, steps), p);
  }

  // What callers can do about it

  /** Two submissions of one id overlap: the second adds its job while the first is still between
      its halves. */
  ghost predicate Overlaps(s: State, step: Step)
  {
    step.Submit? && step.id !in s.t.jobs &&
    exists p | p in s.submits && s.submits[p].job in s.t.records :: s.t.records[s.submits[p].job].id == step.id
  }

  ghost predicate Apart(s: State, steps: seq<Step>)
    requires Legal(s, steps)
    decreases |steps|
  {
    steps != [] ==> !Overlaps(s, steps[0]) && Apart(Apply(s, steps[0]), steps[1..])
  }

  /** The id of a job between the halves of its `submit` names that job or nothing. */
  ghost predicate OwnIds(s: State)
  {
    forall p | p in s.submits && s.submits[p].job in s.t.records ::
      OwnName(s.t, s.submits[p].job)
  }

  ghost predicate OwnName(t: Table<nat>, j: nat)
    requires j in t.records
  {
    t.records[j].id in t.jobs ==> t.jobs[t.records[j].id] == j
  }

  lemma SubmitsComeFromBefore(s: State, step: Step, p: nat)
    requires Enabled(s, step) && p in Apply(s, step).submits
    ensures (step.Submit? && p == step.p) || (p in s.submits && Apply(s, step).submits[p].job == s.submits[p].job)
  {
  }

  lemma StepKeepsOwnName(s: State, step: Step, p: nat)
    requires Inv(s) && OwnIds(s) && Enabled(s, step) && !Overlaps(s, step)
    requires p in Apply(s, step).submits && Apply(s, step).submits[p].job in Apply(s, step).t.records
    ensures OwnName(Apply(s, step).t, Apply(s, step).submits[p].job)
  {
    var u := Apply(s, step);
    var j := u.submits[p].job;
    var id := u.t.records[j].id;
    StepRecords(s, step);
    SubmitsComeFromBefore(s, step, p);
    StepKeepsIndex(s, step);
    if id in u.t.jobs && p in s.submits && s.submits[p].job == j {
      assert j in s.t.records;
      StepKeepsIds(s, step, j);
      if !step.Submit? {
        NamesComeFromBefore(s, step, id);
      } else if step.id !in s.t.jobs {
        assert id != step.id;
        AddedIsNamedOnce(s, step, id);
      }
    } else if id in u.t.jobs {
      AddedIsNamedOnce(s, step, id);
    }
  }

  /** After a submission that took effect only its own id can name its job. */
  lemma AddedIsNamedOnce(s: State, step: Step, id: string)
    requires Indexed(s.t) && Enabled(s, step) && step.Submit? && step.id !in s.t.jobs
    requires id in Apply(s, step).t.jobs
    ensures if id == step.id then Apply(s, step).t.jobs[id] == step.job
      else id in s.t.jobs && Apply(s, step).t.jobs[id] == s.t.jobs[id]
  {
    AddedOrder(s.t, step.id);
    EvictForgetsPrefix(
      s.t.(records := s.t.records[step.job := NewJob(step.id, step.items)], jobs := s.t.jobs[step.id := step.job],
           order := s.t.order + [step.id]));
  }

  lemma StepKeepsOwnIds(s: State, step: Step)
    requires Inv(s) && OwnIds(s) && Enabled(s, step) && !Overlaps(s, step)
    ensures OwnIds(Apply(s, step))
  {
    var u := Apply(s, step);
    forall p | p in u.submits && u.submits[p].job in u.t.records ensures OwnName(u.t, u.submits[p].job) {
      StepKeepsOwnName(s, step, p);
    }
  }

  /** If no two submissions of one id overlap, every refusal in the run is safe, whatever is
      cancelled, evicted, finished or submitted under other ids between the halves. */
  lemma {:induction false} ApartRunsAreSafe(s: State, steps: seq<Step>)
    requires Inv(s) && OwnIds(s) && Legal(s, steps) && Apart(s, steps)
    ensures SafeRun(s, steps)
    decreases |steps|
  {
    if steps != [] {
      StepKeepsInv(s, steps[0]);
      StepKeepsOwnIds(s, steps[0]);
      ApartRunsAreSafe(Apply(s, steps[0]), steps[1..]);
    }
  }

  /** Nothing but the rest of a `submit` happens between its halves. */
  ghost predicate Undivided(s: State, steps: seq<Step>)
    requires Legal(s, steps)
    decreases |steps|
  {
    steps != [] ==>
      && (s.submits != map[] ==> steps[0].Send? || steps[0].Refuse?)
      && Undivided(Apply(s, steps[0]), steps[1..])
  }

  lemma {:induction false} UndividedRunsAreApart(s: State, steps: seq<Step>)
    requires Legal(s, steps) && Undivided(s, steps)
    ensures Apart(s, steps)
    decreases |steps|
  {
    if steps != [] {
      UndividedRunsAreApart(Apply(s, steps[0]), steps[1..]);
    }
  }

  /** Over every run in which no two submissions of one id overlap - in particular over every run
      with undivided submissions - no live job is ever forgotten. */
  lemma ApartRunsForgetNothing(s: State, steps: seq<Step>)
    requires Init(s) && Legal(s, steps) && (Apart(s, steps) || Undivided(s, steps))
    ensures SafeRun(s, steps) && NeverForgets(s, steps)
  {
    if Undivided(s, steps) {
      UndividedRunsAreApart(s, steps);
    }
    ApartRunsAreSafe(s, steps);
    RunsForgetExactlyWhenUnsafe(s, steps);
  }

  /** So at most one job per id is ever queued or running, and the table answers for it. */
  lemma OneLiveJobPerId(s: State, steps: seq<Step>, j: nat, k: nat)
    requires Init(s) && Legal(s, steps) && (Apart(s, steps) || Undivided(s, steps))
    requires var u := After(s, steps);
      && j in u.t.records && j in u.place && u.place[j] != Nowhere && !Terminal(u.t.records[j].state)
      && k in u.t.records && k in u.place && u.place[k] != Nowhere && !Terminal(u.t.records[k].state)
      && u.t.records[j].id == u.t.records[k].id
    ensures var u := After(s, steps);
      j == k && u.t.records[j].id in u.t.jobs && u.t.jobs[u.t.records[j].id] == j
  {
    InitHolds(s);
    ApartRunsForgetNothing(s, steps);
    SafeRunsForgetNoLive(s, steps);
  }

  /** A refused submission with nothing between its halves deletes its own job and no other. */
  lemma UndividedSubmitIsSafe(s: State, p: nat, j: nat, id: string, items: nat)
    requires Inv(s) && Enabled(s, Submit(p, j, id, items)) && id !in s.t.jobs
    requires |s.t.queue| >= s.t.capacity
    ensures var u := Apply(s, Submit(p, j, id, items));
      && Enabled(u, Send(p)) && Enabled(Apply(u, Send(p)), Refuse(p))
      && RefusalIsSafe(Apply(u, Send(p)), p)
  {
    AddKeepsLive(s.t, j, NewJob(id, items), id);
    AddLeavesOthers(s.t, j, NewJob(id, items));
    EvictLeavesRest(
      s.t.(records := s.t.records[j := NewJob(id, items)], jobs := s.t.jobs[id := j], order := s.t.order + [id]));
    var u := Apply(s, Submit(p, j, id, items));
    assert u.t.jobs[id] == j;
    assert Apply(u, Send(p)).t == u.t;
  }
}
