/** Safety of the downloader's job table over every run. */
module JobTheorems {
  import opened Options
  import opened JobQueue
  import opened JobSystem
  import opened JobProofs

  ghost predicate Legal(s: State, steps: seq<Step>)
    decreases |steps|
  {
    steps == [] || (Enabled(s, steps[0]) && Legal(Apply(s, steps[0]), steps[1..]))
  }

  function After(s: State, steps: seq<Step>): State
    requires Legal(s, steps)
    decreases |steps|
  {
    if steps == [] then s else After(Apply(s, steps[0]), steps[1..])
  }

  lemma {:induction false} RunKeepsInv(s: State, steps: seq<Step>)
    requires Inv(s) && Legal(s, steps)
    ensures Inv(After(s, steps))
    decreases |steps|
  {
    if steps != [] {
      StepKeepsInv(s, steps[0]);
      RunKeepsInv(Apply(s, steps[0]), steps[1..]);
    }
  }

  lemma InitHolds(s: State)
    requires Init(s)
    ensures Inv(s)
  {
  }

  // The index and the states

  /** In every reachable state the map and the order list hold the same ids, none twice, and
      a job is stamped finished exactly when it is over. */
  lemma TableStaysConsistent(s: State, steps: seq<Step>)
    requires Init(s) && Legal(s, steps)
    ensures var t := After(s, steps).t;
      && (forall i, j | 0 <= i < j < |t.order| :: t.order[i] != t.order[j])
      && (forall id :: id in t.jobs <==> id in t.order)
      && (forall id | id in t.jobs :: t.jobs[id] in t.records && t.records[t.jobs[id]].id == id)
      && (forall j | j in t.records ::
            t.records[j].finished.None? <==> t.records[j].state.Queued? || t.records[j].state.Running?)
  {
    InitHolds(s);
    RunKeepsInv(s, steps);
    var u := After(s, steps);
    forall j | j in u.t.records
      ensures u.t.records[j].finished.None? <==> u.t.records[j].state.Queued? || u.t.records[j].state.Running?
    {
      assert Sound(u, j);
    }
  }

  predicate Forward(a: JobState, b: JobState)
  {
    a == b || (a.Queued? && (b.Running? || b.Cancelled?)) || (a.Running? && Terminal(b))
  }

  /** Forward, and started at most once, exactly when it begins to run. */
  ghost predicate MovesOn(a: Job, b: Job)
  {
    && Forward(a.state, b.state)
    && (a.started.Some? ==> b.started == a.started)
    && (a.state.Queued? && b.state.Running? <==> a.started.None? && b.started.Some?)
  }

  lemma QuietStepsKeepState(s: State, step: Step, j: nat)
    requires Enabled(s, step) && j in s.t.records && !step.Cancel? && !step.Start? && !step.Finish?
    ensures j in RecordsAfter(s, step)
    ensures RecordsAfter(s, step)[j].state == s.t.records[j].state
    ensures RecordsAfter(s, step)[j].started == s.t.records[j].started
  {
  }

  lemma StartMovesOn(s: State, w: nat, pathOk: bool)
    requires Inv(s) && Enabled(s, Start(w, pathOk))
    ensures MovesOn(s.t.records[JobAt(s, w)], Apply(s, Start(w, pathOk)).t.records[JobAt(s, w)])
  {
    assert Sound(s, JobAt(s, w));
  }

  lemma FinishMovesOn(s: State, w: nat)
    requires Inv(s) && Enabled(s, Finish(w))
    ensures MovesOn(s.t.records[JobAt(s, w)], RecordsAfter(s, Finish(w))[JobAt(s, w)])
  {
    assert Sound(s, JobAt(s, w));
  }

  lemma CancelMovesOn(s: State, id: string)
    requires Inv(s) && Enabled(s, Cancel(id)) && id in s.t.jobs
    ensures MovesOn(s.t.records[s.t.jobs[id]], CancelJob(s.t.records[s.t.jobs[id]], s.now))
  {
  }

  /** One step moves a job forward or not at all, and starts it at most from rest. */
  lemma StepsGoForward(s: State, step: Step, j: nat)
    requires Inv(s) && Enabled(s, step) && j in s.t.records
    ensures j in Apply(s, step).t.records
    ensures MovesOn(s.t.records[j], Apply(s, step).t.records[j])
  {
    StepRecords(s, step);
    if Touched(s, step) != Some(j) {
      OthersStay(s, step, j);
    } else if step.Start? {
      StartMovesOn(s, step.w, step.pathOk);
    } else if step.Finish? {
      FinishMovesOn(s, step.w);
    } else if step.Cancel? {
      CancelMovesOn(s, step.id);
    } else {
      QuietStepsKeepState(s, step, j);
    }
  }

  /** A job that is over stays exactly as over as it was. */
  lemma {:induction false} OverIsForever(s: State, steps: seq<Step>, j: nat)
    requires Inv(s) && Legal(s, steps) && j in s.t.records && Terminal(s.t.records[j].state)
    ensures j in After(s, steps).t.records
    ensures After(s, steps).t.records[j].state == s.t.records[j].state
    decreases |steps|
  {
    if steps != [] {
      StepsGoForward(s, steps[0], j);
      StepKeepsInv(s, steps[0]);
      OverIsForever(Apply(s, steps[0]), steps[1..], j);
    }
  }

  /** How many times a run moves a job from queued to running. */
  function Starts(s: State, steps: seq<Step>, j: nat): nat
    requires Legal(s, steps)
    decreases |steps|
  {
    if steps == [] then 0
    else
      var u := Apply(s, steps[0]);
      (if j in s.t.records && s.t.records[j].state.Queued? && j in u.t.records && u.t.records[j].state.Running?
       then 1 else 0) + Starts(u, steps[1..], j)
  }

  /** Each job runs at most once in its life. */
  lemma {:induction false} RunsAtMostOnce(s: State, steps: seq<Step>, j: nat)
    requires Inv(s) && Legal(s, steps)
    ensures Starts(s, steps, j) <= 1
    ensures j in s.t.records && s.t.records[j].started.Some? ==> Starts(s, steps, j) == 0
    decreases |steps|
  {
    if steps != [] {
      var u := Apply(s, steps[0]);
      StepKeepsInv(s, steps[0]);
      if j in s.t.records {
        StepsGoForward(s, steps[0], j);
      }
      RunsAtMostOnce(u, steps[1..], j);
    }
  }

  /** In every reachable state, whatever order the items ended in and wherever a cancel
      landed: done is every item stored, partial is some and not all, failed is none, and the
      byte total of each is the sum over the stored items. */
  lemma OutcomesMeanWhatTheySay(s: State, steps: seq<Step>, j: nat)
    requires Init(s) && Legal(s, steps) && j in After(s, steps).t.records
    ensures var job := After(s, steps).t.records[j];
      && (job.state.Done? ==> forall i | 0 <= i < |job.items| :: job.items[i].state.Stored?)
      && (job.state.Partial? ==>
            && (exists i | 0 <= i < |job.items| :: job.items[i].state.Stored?)
            && (exists i | 0 <= i < |job.items| :: job.items[i].state.Missed?)
            && (forall i | 0 <= i < |job.items| :: job.items[i].state.Stored? || job.items[i].state.Missed?))
      && (job.state.Failed? ==> forall i | 0 <= i < |job.items| :: !job.items[i].state.Stored?)
      && (job.state.Done? || job.state.Partial? || job.state.Failed? ==> job.bytesTotal == Bytes(job.items))
  {
    InitHolds(s);
    RunKeepsInv(s, steps);
    var u := After(s, steps);
    assert Sound(u, j);
    var job := u.t.records[j];
    CountStoredMeans(job.items);
    if job.state.Partial? {
      var i :| 0 <= i < |job.items| && !job.items[i].state.Stored?;
      assert Over(job.items[i]);
    }
  }
}
