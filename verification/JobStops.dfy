/** How jobs are stopped, and how they end when nobody stops them, over every run. */
module JobStops {
  import opened Options
  import opened JobQueue
  import opened JobSystem
  import opened JobProofs
  import opened JobTheorems
  import opened Hands

  /** Cancelling a job that waits or runs stamps it cancelled and signals it if it can be
      signalled; one that is over is left alone; and nothing else changes either way. */
  lemma CancelStopsLiveJobs(s: State, id: string)
    requires Enabled(s, Cancel(id)) && id in s.t.jobs
    ensures var j := s.t.jobs[id];
      var a, u := s.t.records[j], Apply(s, Cancel(id));
      && u == s.(t := s.t.(records := s.t.records[j := u.t.records[j]]))
      && u.t.records[j] ==
           if a.state.Queued? || a.state.Running?
           then a.(state := Cancelled, finished := Some(s.now), signalled := a.signalled || a.cancellable)
           else a
  {
  }

  // Signals

  /** Its files are being transferred. */
  predicate Transfers(s: State, j: nat)
  {
    j in s.place && s.place[j].AtWorker? && s.place[j].w in s.workers && s.workers[s.place[j].w].Working?
  }

  /** A job whose files transfer can be signalled, and has been exactly if it is cancelled. */
  ghost predicate Signals(s: State, j: nat)
  {
    j in s.t.records && Transfers(s, j) ==>
      s.t.records[j].cancellable && (s.t.records[j].signalled <==> s.t.records[j].state.Cancelled?)
  }

  lemma SignalsAtStart(s: State, w: nat, pathOk: bool)
    requires Inv(s) && Enabled(s, Start(w, pathOk))
    ensures Signals(Apply(s, Start(w, pathOk)), JobAt(s, w))
  {
    assert Sound(s, JobAt(s, w));
  }

  lemma SignalsAtCancel(s: State, id: string)
    requires Inv(s) && Enabled(s, Cancel(id)) && id in s.t.jobs && Signals(s, s.t.jobs[id])
    ensures Signals(Apply(s, Cancel(id)), s.t.jobs[id])
  {
    assert Sound(s, s.t.jobs[id]);
  }

  lemma SignalsAtItems(s: State, step: Step)
    requires Inv(s) && Enabled(s, step) && (step.ItemRuns? || step.ItemEnds?) && Signals(s, JobAt(s, step.w))
    ensures Signals(Apply(s, step), JobAt(s, step.w))
  {
  }

  /** Steps after which the job in question has no transfers under way. */
  predicate EndsTransfers(step: Step)
  {
    step.Submit? || step.Send? || step.Refuse? || step.Receive? || step.Join? || step.Settle? || step.Finish?
  }

  lemma NoTransfersAfter(s: State, step: Step, j: nat)
    requires Inv(s) && Enabled(s, step) && j in s.t.records && Touched(s, step) == Some(j) && EndsTransfers(step)
    ensures !Transfers(Apply(s, step), j)
  {
  }

  lemma TouchedSignals(s: State, step: Step, j: nat)
    requires Inv(s) && Enabled(s, step) && j in s.t.records && Signals(s, j) && Touched(s, step) == Some(j)
    ensures Signals(Apply(s, step), j)
  {
    if EndsTransfers(step) {
      NoTransfersAfter(s, step, j);
    } else {
      match step
      case Start(w, pathOk) => SignalsAtStart(s, w, pathOk);
      case Cancel(id) => SignalsAtCancel(s, id);
      case ItemRuns(_, _, _) => SignalsAtItems(s, step);
      case ItemEnds(_, _, _, _) => SignalsAtItems(s, step);
    }
  }

  lemma StepSignals(s: State, step: Step, j: nat)
    requires Inv(s) && Enabled(s, step) && Signals(s, j)
    ensures Signals(Apply(s, step), j)
  {
    if j in s.t.records && Touched(s, step) != Some(j) {
      OthersStay(s, step, j);
    } else if j in s.t.records {
      TouchedSignals(s, step, j);
    } else {
      StepRecords(s, step);
      StepKeepsPlaces(s, step);
      if j in Apply(s, step).t.records {
        assert step.Submit? && Apply(s, step).place[j] == AtSubmit(step.p);
      }
    }
  }

  lemma {:induction false} RunSignals(s: State, steps: seq<Step>, j: nat)
    requires Inv(s) && Legal(s, steps) && Signals(s, j)
    ensures Signals(After(s, steps), j)
    decreases |steps|
  {
    if steps != [] {
      StepSignals(s, steps[0], j);
      StepKeepsInv(s, steps[0]);
      RunSignals(Apply(s, steps[0]), steps[1..], j);
    }
  }

  // A job cancelled while its files transfer

  /** Cancelled, and on its way to being finished as that by its worker, or done with. */
  ghost predicate StopsAs(s: State, j: nat, w: nat)
  {
    && j in s.t.records && s.t.records[j].state.Cancelled?
    && j in s.place
    && (s.place[j] == Nowhere
        || (s.place[j] == AtWorker(w) && w in s.workers
            && (s.workers[w] == Finishing(j, Cancelled, "")
                || (s.workers[w].Working? && s.t.records[j].signalled))))
  }

  lemma TouchedStops(s: State, step: Step, j: nat, w: nat)
    requires Inv(s) && Enabled(s, step) && StopsAs(s, j, w) && Touched(s, step) == Some(j)
    ensures StopsAs(Apply(s, step), j, w)
  {
    StepRecords(s, step);
    match step
    case Finish(v) => assert s.place[j] == AtWorker(v);
    case _ =>
  }

  lemma {:induction false} RunStops(s: State, steps: seq<Step>, j: nat, w: nat)
    requires Inv(s) && Legal(s, steps) && StopsAs(s, j, w)
    ensures StopsAs(After(s, steps), j, w)
    decreases |steps|
  {
    if steps != [] {
      if Touched(s, steps[0]) == Some(j) {
        TouchedStops(s, steps[0], j, w);
      } else {
        OthersStay(s, steps[0], j);
      }
      StepKeepsInv(s, steps[0]);
      RunStops(Apply(s, steps[0]), steps[1..], j, w);
    }
  }

  lemma CancelReaches(t: State, id: string, w: nat)
    requires Inv(t) && Enabled(t, Cancel(id)) && id in t.t.jobs && Signals(t, t.t.jobs[id])
    requires w in t.workers && t.workers[w].Working? && t.workers[w].job == t.t.jobs[id]
    ensures StopsAs(Apply(t, Cancel(id)), t.t.jobs[id], w)
  {
    assert Sound(t, t.t.jobs[id]);
    CancelStopsLiveJobs(t, id);
  }

  lemma StoppingWorker(u: State, j: nat, w: nat)
    requires Inv(u) && StopsAs(u, j, w)
    ensures forall v | v in u.workers && JobOf(u.workers[v]) == Some(j) ::
      v == w && (u.workers[v].Working? || u.workers[v] == Finishing(j, Cancelled, ""))
    ensures Enabled(u, Join(w)) && u.workers[w].job == j ==>
      Apply(u, Join(w)).workers[w] == Finishing(j, Cancelled, "")
  {
  }

  /** A job cancelled while its files transfer is cancelled from then on; its worker, whatever
      the transfers report, goes from the join to finishing it as cancelled and never counts
      its items. */
  lemma CancelledWhileTransferring(s: State, before: seq<Step>, id: string, w: nat, later: seq<Step>)
    requires Init(s) && Legal(s, before)
    requires Enabled(After(s, before), Cancel(id)) && id in After(s, before).t.jobs
    requires w in After(s, before).workers && After(s, before).workers[w].Working?
    requires After(s, before).workers[w].job == After(s, before).t.jobs[id]
    requires Legal(Apply(After(s, before), Cancel(id)), later)
    ensures var j := After(s, before).t.jobs[id];
      var u := After(Apply(After(s, before), Cancel(id)), later);
      && j in u.t.records && u.t.records[j].state.Cancelled?
      && (forall v | v in u.workers && JobOf(u.workers[v]) == Some(j) ::
            v == w && (u.workers[v].Working? || u.workers[v] == Finishing(j, Cancelled, "")))
      && (Enabled(u, Join(w)) && u.workers[w].job == j ==>
            Apply(u, Join(w)).workers[w] == Finishing(j, Cancelled, ""))
  {
    var t := After(s, before);
    var j := t.t.jobs[id];
    InitHolds(s);
    RunKeepsInv(s, before);
    RunSignals(s, before, j);
    StepKeepsInv(t, Cancel(id));
    CancelReaches(t, id, w);
    var t' := Apply(t, Cancel(id));
    RunStops(t', later, j, w);
    RunKeepsInv(t', later);
    StoppingWorker(After(t', later), j, w);
  }

  // A job nobody stops

  /** Along this run somebody cancelled this very job. */
  ghost predicate IsCancelled(s: State, steps: seq<Step>, j: nat)
    requires Legal(s, steps)
    decreases |steps|
  {
    steps != [] &&
    ((steps[0].Cancel? && steps[0].id in s.t.jobs && s.t.jobs[steps[0].id] == j)
     || IsCancelled(Apply(s, steps[0]), steps[1..], j))
  }

  /** Neither cancelled nor about to be finished as that. */
  ghost predicate LeftAlone(s: State, j: nat)
  {
    && (j in s.t.records ==> !s.t.records[j].state.Cancelled?)
    && (forall w | w in s.workers && s.workers[w].Finishing? && s.workers[w].job == j ::
          s.workers[w].verdict != Cancelled)
  }

  /** A worker concludes "cancelled" only at the join, and only when closing or signalled. */
  lemma NewVerdicts(s: State, step: Step, w: nat)
    requires Enabled(s, step) && w in Apply(s, step).workers && Apply(s, step).workers[w].Finishing?
    ensures w in s.workers
    ensures var pc := Apply(s, step).workers[w];
      && (pc != s.workers[w] ==> AtPc(s, w) && Touched(s, step) == Some(JobAt(s, w)) && pc.job == JobAt(s, w))
      && (pc != s.workers[w] && pc.verdict == Cancelled ==>
            step == Join(w) && s.workers[w].Working? && (s.closing || s.t.records[JobAt(s, w)].signalled))
  {
    if step.Settle? {
      VerdictIsNotCancelled(s.t.records[JobAt(s, step.w)].items);
    }
  }

  lemma VerdictIsNotCancelled(items: seq<Item>)
    ensures Verdict(items) != Cancelled
  {
    VerdictMeans(items);
  }

  lemma VerdictsLeaveAlone(s: State, step: Step, j: nat, w: nat)
    requires Inv(s) && Enabled(s, step) && Signals(s, j) && LeftAlone(s, j) && !s.closing
    requires w in Apply(s, step).workers && Apply(s, step).workers[w].Finishing? && Apply(s, step).workers[w].job == j
    ensures Apply(s, step).workers[w].verdict != Cancelled
  {
    NewVerdicts(s, step, w);
    if step == Join(w) && s.workers[w].Working? {
      assert Transfers(s, JobAt(s, w));
    }
  }

  /** Only a cancel of this job, or a worker finishing it as that, makes it cancelled. */
  lemma TouchedIsLeftAlone(s: State, step: Step, j: nat)
    requires Enabled(s, step) && LeftAlone(s, j) && j in s.t.records && !step.Submit?
    requires Touched(s, step) == Some(j) && !step.Cancel?
    ensures j in RecordsAfter(s, step) && !RecordsAfter(s, step)[j].state.Cancelled?
  {
  }

  lemma StepLeavesAlone(s: State, step: Step, j: nat)
    requires Inv(s) && Enabled(s, step) && Signals(s, j) && LeftAlone(s, j) && !s.closing
    requires !(step.Cancel? && step.id in s.t.jobs && s.t.jobs[step.id] == j)
    ensures LeftAlone(Apply(s, step), j)
  {
    StepRecords(s, step);
    forall w | w in Apply(s, step).workers && Apply(s, step).workers[w].Finishing? && Apply(s, step).workers[w].job == j
      ensures Apply(s, step).workers[w].verdict != Cancelled
    {
      VerdictsLeaveAlone(s, step, j, w);
    }
    if j in s.t.records && Touched(s, step) == Some(j) {
      TouchedIsLeftAlone(s, step, j);
    } else if j in s.t.records {
      OthersKeepRecord(s, step, j);
    }
  }

  lemma {:induction false} RunLeavesAlone(s: State, steps: seq<Step>, j: nat)
    requires Inv(s) && Legal(s, steps) && Signals(s, j) && LeftAlone(s, j)
    requires !After(s, steps).closing && !IsCancelled(s, steps, j)
    ensures LeftAlone(After(s, steps), j)
    decreases |steps|
  {
    if steps != [] {
      ClosingStays(s, steps);
      StepLeavesAlone(s, steps[0], j);
      StepSignals(s, steps[0], j);
      StepKeepsInv(s, steps[0]);
      RunLeavesAlone(Apply(s, steps[0]), steps[1..], j);
    }
  }

  lemma {:induction false} ClosingStays(s: State, steps: seq<Step>)
    requires Legal(s, steps)
    ensures s.closing ==> After(s, steps).closing
    decreases |steps|
  {
    if steps != [] {
      ClosingStays(Apply(s, steps[0]), steps[1..]);
    }
  }

  /** While the service is open, a job nobody cancelled ends as its items say, and only so:
      done exactly if every file was stored, failed exactly if none was, and partial otherwise. */
  lemma UnstoppedJobsEndAsTheirItems(s: State, steps: seq<Step>, j: nat)
    requires Init(s) && Legal(s, steps) && !After(s, steps).closing && !IsCancelled(s, steps, j)
    requires j in After(s, steps).t.records && After(s, steps).t.records[j].finished.Some?
    ensures var job := After(s, steps).t.records[j];
      && (job.state.Done? <==> forall i | 0 <= i < |job.items| :: job.items[i].state.Stored?)
      && (job.state.Failed? <==> forall i | 0 <= i < |job.items| :: !job.items[i].state.Stored?)
      && (job.state.Partial? <==>
            (exists i | 0 <= i < |job.items| :: job.items[i].state.Stored?)
            && (exists i | 0 <= i < |job.items| :: !job.items[i].state.Stored?))
  {
    var u := After(s, steps);
    var job := u.t.records[j];
    InitHolds(s);
    RunKeepsInv(s, steps);
    RunLeavesAlone(s, steps, j);
    assert Sound(u, j);
    CountStoredMeans(job.items);
  }

  /** What a worker concludes from a job's items: done, failed or partial as they are, with the
      error of a job of which nothing was stored. */
  lemma SettleConcludes(s: State, w: nat)
    requires Enabled(s, Settle(w))
    ensures var j := s.workers[w].job;
      var items := s.t.records[j].items;
      var pc := Apply(s, Settle(w)).workers[w];
      && pc.Finishing? && pc.job == j
      && (pc.verdict.Done? <==> forall i | 0 <= i < |items| :: items[i].state.Stored?)
      && (pc.verdict.Failed? <==> items != [] && forall i | 0 <= i < |items| :: !items[i].state.Stored?)
      && (pc.verdict.Done? || pc.verdict.Failed? || pc.verdict.Partial?)
      && pc.failure == if pc.verdict.Failed? then "every item failed" else ""
  {
    VerdictMeans(s.t.records[JobAt(s, w)].items);
  }

  // Nobody is stuck

  /** What a worker still waits for are files of its job. */
  ghost predicate PendingAreFiles(s: State)
  {
    forall w | AtPc(s, w) && s.workers[w].Working? ::
      forall k | k in s.workers[w].pending :: k < |s.t.records[JobAt(s, w)].items|
  }

  lemma FilesStay(s: State, step: Step, j: nat)
    requires Enabled(s, step) && j in s.t.records
    ensures j in RecordsAfter(s, step) && |RecordsAfter(s, step)[j].items| == |s.t.records[j].items|
  {
    match step
    case Start(w, _) =>
    case _ =>
  }

  /** A worker begins with all files of its job, and goes on with fewer. */
  lemma WorkingAfter(s: State, step: Step, w: nat)
    requires Enabled(s, step) && w in Apply(s, step).workers && Apply(s, step).workers[w].Working?
    ensures w in s.workers
    ensures var pc := Apply(s, step).workers[w];
      || pc == s.workers[w]
      || (AtPc(s, w) && pc.job == JobAt(s, w)
          && forall k | k in pc.pending ::
               (s.workers[w].Working? && k in s.workers[w].pending) || k < |s.t.records[JobAt(s, w)].items|)
  {
  }

  lemma PendingAfter(s: State, step: Step, w: nat)
    requires Inv(s) && PendingAreFiles(s)
    requires Enabled(s, step) && w in Apply(s, step).workers && Apply(s, step).workers[w].Working?
    ensures AtPc(s, w)
    ensures var pc := Apply(s, step).workers[w];
      pc.job == JobAt(s, w) && forall k | k in pc.pending :: k < |s.t.records[JobAt(s, w)].items|
  {
    WorkingAfter(s, step, w);
    assert JobOf(s.workers[w]).Some? ==> JobOf(s.workers[w]).value in s.place;
  }

  lemma {:induction false} RunKeepsPending(s: State, steps: seq<Step>)
    requires Inv(s) && Legal(s, steps) && PendingAreFiles(s)
    ensures PendingAreFiles(After(s, steps))
    decreases |steps|
  {
    if steps != [] {
      var u := Apply(s, steps[0]);
      StepRecords(s, steps[0]);
      forall w | AtPc(u, w) && u.workers[w].Working?
        ensures forall k | k in u.workers[w].pending :: k < |u.t.records[JobAt(u, w)].items|
      {
        PendingAfter(s, steps[0], w);
        FilesStay(s, steps[0], JobAt(s, w));
      }
      StepKeepsInv(s, steps[0]);
      RunKeepsPending(u, steps[1..]);
    }
  }

  lemma HasItsJob(u: State, w: nat)
    requires Inv(u) && w in u.workers
    ensures JobOf(u.workers[w]).Some? ==> AtPc(u, w)
  {
    assert JobOf(u.workers[w]).Some? ==> JobOf(u.workers[w]).value in u.place;
  }

  /** A worker with a job can go on: each file it waits for may end stored or not, and with none
      left it joins. One without a job takes the next, or stops once the service closes. */
  ghost predicate GoesOn(u: State, w: nat, bytes: nat)
    requires w in u.workers
  {
    match u.workers[w]
    case Idle => (u.t.queue != [] ==> Enabled(u, Receive(w))) && (u.closing ==> Enabled(u, Stop(w)))
    case Got(_) => Enabled(u, Start(w, true)) && Enabled(u, Start(w, false))
    case Working(_, pending) =>
      && (pending == {} ==> Enabled(u, Join(w)))
      && (forall k | k in pending ::
            && Enabled(u, ItemRuns(w, k, bytes))
            && Enabled(u, ItemEnds(w, k, true, bytes)) && Enabled(u, ItemEnds(w, k, false, bytes)))
    case Joined(_) => Enabled(u, Settle(w))
    case Finishing(_, _, _) => Enabled(u, Finish(w))
    case Stopped => true
  }

  lemma WorkerGoesOn(u: State, w: nat, bytes: nat)
    requires w in u.workers && PendingAreFiles(u) && (JobOf(u.workers[w]).Some? ==> AtPc(u, w))
    ensures GoesOn(u, w, bytes)
  {
  }

  /** In every reachable state every worker can. */
  lemma NoWorkerIsStuck(s: State, steps: seq<Step>, w: nat, bytes: nat)
    requires Init(s) && Legal(s, steps) && w in After(s, steps).workers
    ensures GoesOn(After(s, steps), w, bytes)
  {
    InitHolds(s);
    RunKeepsInv(s, steps);
    RunKeepsPending(s, steps);
    HasItsJob(After(s, steps), w);
    WorkerGoesOn(After(s, steps), w, bytes);
  }

  /** Nor is a submission, a cancellation, or the other half of a submission. */
  lemma NoSubmitterIsStuck(s: State, steps: seq<Step>, p: nat, j: nat, id: string, items: nat)
    requires Init(s) && Legal(s, steps) && j !in After(s, steps).t.records && items > 0
    ensures var u := After(s, steps);
      && Enabled(u, Cancel(id)) && Enabled(u, Close)
      && if p !in u.submits then Enabled(u, Submit(p, j, id, items))
         else if u.submits[p].Sending? then Enabled(u, Send(p)) else Enabled(u, Refuse(p))
  {
    InitHolds(s);
    RunKeepsInv(s, steps);
  }
}
