/** What a job's files are recorded as, over every run: what their transfers reported. */
module JobItems {
  import opened Options
  import opened JobQueue
  import opened JobSystem
  import opened JobProofs
  import opened JobTheorems

  /** A job taken in waits with as many files as were submitted, none of them begun. */
  lemma SubmittedJobWaits(s: State, p: nat, j: nat, id: string, items: nat)
    requires Enabled(s, Submit(p, j, id, items)) && id !in s.t.jobs
    ensures var u := Apply(s, Submit(p, j, id, items));
      && j in u.t.records && u.t.records == s.t.records[j := u.t.records[j]]
      && var job := u.t.records[j];
         && job.id == id && job.state.Queued? && |job.items| == items && job.started == None && job.finished == None
         && (forall k | 0 <= k < items :: job.items[k] == Item(Waiting, 0))
  {
    StepRecords(s, Submit(p, j, id, items));
  }

  /** This report is the last word on file `k` of the job. */
  predicate Ends(s: State, step: Step, j: nat, k: nat, item: Item)
  {
    && step.ItemEnds? && step.index == k && step.w in s.workers && s.workers[step.w].Working?
    && s.workers[step.w].job == j
    && item == if step.stored then Item(Stored, step.bytes) else Item(Missed, 0)
  }

  ghost predicate WasReported(s: State, steps: seq<Step>, j: nat, k: nat, item: Item)
    requires Legal(s, steps)
    decreases |steps|
  {
    steps != [] && (Ends(s, steps[0], j, k, item) || WasReported(Apply(s, steps[0]), steps[1..], j, k, item))
  }

  /** Transfers write the items of the job they are of; nothing else does. */
  lemma ItemsAfterTransfer(s: State, step: Step, j: nat, k: nat)
    requires Enabled(s, step) && (step.ItemRuns? || step.ItemEnds?) && j == JobAt(s, step.w)
    requires k < |s.t.records[j].items|
    ensures j in RecordsAfter(s, step)
    ensures var items := RecordsAfter(s, step)[j].items;
      && |items| == |s.t.records[j].items|
      && (items[k] == s.t.records[j].items[k] || Ends(s, step, j, k, items[k]) || items[k].state.Fetching?)
  {
  }

  lemma OtherStepsKeepItems(s: State, step: Step, j: nat)
    requires Enabled(s, step) && !step.ItemRuns? && !step.ItemEnds? && j in s.t.records
    ensures j in RecordsAfter(s, step) && RecordsAfter(s, step)[j].items == s.t.records[j].items
  {
    match step
    case Start(w, _) =>
    case Finish(w) =>
    case _ =>
  }

  lemma ItemAfterStep(s: State, step: Step, j: nat, k: nat)
    requires Enabled(s, step) && j in s.t.records && k < |s.t.records[j].items|
    ensures j in Apply(s, step).t.records
    ensures var items := Apply(s, step).t.records[j].items;
      && |items| == |s.t.records[j].items|
      && (items[k] == s.t.records[j].items[k] || Ends(s, step, j, k, items[k]) || items[k].state.Fetching?)
  {
    StepRecords(s, step);
    if !step.ItemRuns? && !step.ItemEnds? {
      OtherStepsKeepItems(s, step, j);
    } else if j == JobAt(s, step.w) {
      ItemsAfterTransfer(s, step, j, k);
    } else {
      OthersKeepRecord(s, step, j);
    }
  }

  lemma {:induction false} ItemAfterRun(s: State, steps: seq<Step>, j: nat, k: nat)
    requires Inv(s) && Legal(s, steps) && j in s.t.records && k < |s.t.records[j].items|
    ensures j in After(s, steps).t.records
    ensures var items := After(s, steps).t.records[j].items;
      && |items| == |s.t.records[j].items|
      && (items[k] == s.t.records[j].items[k] || WasReported(s, steps, j, k, items[k]) || items[k].state.Fetching?)
    decreases |steps|
  {
    if steps != [] {
      ItemAfterStep(s, steps[0], j, k);
      StepKeepsInv(s, steps[0]);
      ItemAfterRun(Apply(s, steps[0]), steps[1..], j, k);
    }
  }

  lemma AppearsWaiting(s: State, step: Step, j: nat)
    requires Enabled(s, step) && Indexed(s.t) && j !in s.t.records && j in Apply(s, step).t.records
    ensures var items := Apply(s, step).t.records[j].items;
      forall k | 0 <= k < |items| :: items[k].state.Waiting?
  {
    StepRecords(s, step);
  }

  lemma {:induction false} WaitingItemAfterRun(s: State, steps: seq<Step>, j: nat, k: nat)
    requires Inv(s) && Legal(s, steps) && j in s.t.records
    requires forall i | 0 <= i < |s.t.records[j].items| :: s.t.records[j].items[i].state.Waiting?
    requires j in After(s, steps).t.records && k < |After(s, steps).t.records[j].items|
    requires Over(After(s, steps).t.records[j].items[k])
    ensures WasReported(s, steps, j, k, After(s, steps).t.records[j].items[k])
  {
    assert Sound(s, j);
    ItemAfterRun(s, steps, j, 0);
    ItemAfterRun(s, steps, j, k);
  }

  lemma {:induction false} NewItemAfterRun(s: State, steps: seq<Step>, j: nat, k: nat)
    requires Inv(s) && Legal(s, steps) && j !in s.t.records && j in After(s, steps).t.records
    requires k < |After(s, steps).t.records[j].items| && Over(After(s, steps).t.records[j].items[k])
    ensures WasReported(s, steps, j, k, After(s, steps).t.records[j].items[k])
    decreases |steps|
  {
    var u := Apply(s, steps[0]);
    StepKeepsInv(s, steps[0]);
    if j in u.t.records {
      AppearsWaiting(s, steps[0], j);
      WaitingItemAfterRun(u, steps[1..], j, k);
    } else {
      NewItemAfterRun(u, steps[1..], j, k);
    }
  }

  /** Over every run: a file that counts as stored, at some size, was reported stored at that size
      by the worker that had the job, and one that counts as missed was reported so. */
  lemma ItemsAreWhatWasReported(s: State, steps: seq<Step>, j: nat, k: nat)
    requires Init(s) && Legal(s, steps) && j in After(s, steps).t.records
    requires k < |After(s, steps).t.records[j].items|
    ensures var item := After(s, steps).t.records[j].items[k];
      item.state.Stored? || item.state.Missed? ==> WasReported(s, steps, j, k, item)
  {
    InitHolds(s);
    if Over(After(s, steps).t.records[j].items[k]) {
      NewItemAfterRun(s, steps, j, k);
    }
  }
}
