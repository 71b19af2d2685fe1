/** Where a job's text, error, partial text and revision come from, over every run. */
module TranscriberOutcomes {
  import opened Lists
  import opened Options
  import opened Transcriber
  import opened TranscriberSystem
  import opened TranscriberProofs
  import opened TranscriberTheorems

  /** The worker's report is about this job. */
  predicate Reports(s: State, step: Step, j: nat)
  {
    (step.RecordSegment? || step.CompleteJob?) && step.w in s.workers && s.workers[step.w] == Transcribing(j)
  }

  /** Along this run the backend's answer for this job came back so, before any other. */
  ghost predicate Brought(s: State, steps: seq<Step>, j: nat, ok: bool, text: string)
    requires Legal(s, steps)
    decreases |steps|
  {
    steps != [] &&
    (if steps[0].CompleteJob? && Reports(s, steps[0], j) then steps[0].ok == ok && steps[0].text == text
     else Brought(Apply(s, steps[0]), steps[1..], j, ok, text))
  }

  /** Along this run somebody deleted the id while it named this job. */
  ghost predicate Deleted(s: State, steps: seq<Step>, j: nat)
    requires Legal(s, steps)
    decreases |steps|
  {
    steps != [] &&
    ((steps[0].DeleteJob? && steps[0].id in s.t.jobs && s.t.jobs[steps[0].id] == j)
     || Deleted(Apply(s, steps[0]), steps[1..], j))
  }

  /** What one step adds to what was heard for this job. */
  function Segment(s: State, step: Step, j: nat): string
  {
    if step.RecordSegment? && Reports(s, step, j) then step.text else ""
  }

  /** The segments reported for this job along a run, one after the other. */
  function Heard(s: State, steps: seq<Step>, j: nat): string
    requires Legal(s, steps)
    decreases |steps|
  {
    if steps == [] then ""
    else
      Segment(s, steps[0], j) + Heard(Apply(s, steps[0]), steps[1..], j)
  }

  // One step

  /** A deletion's or a completion's effect on the record it is about. */
  lemma EndingRecords(s: State, step: Step, j: nat)
    requires Inv(s) && Enabled(s, step) && Touched(s, step) == Some(j) && j in s.t.records
    requires step.DeleteJob? || step.CompleteJob?
    ensures j in Apply(s, step).t.records
    ensures var a, b := s.t.records[j], Apply(s, step).t.records[j];
      if !(a.state.Queued? || a.state.Running?) then b == a
      else if step.DeleteJob? then b == a.(state := Cancelled, partial := "", revision := a.revision + 1)
      else if step.ok then b == a.(state := Done, text := step.text, partial := "", revision := a.revision + 1)
      else b == a.(state := Failed, error := step.text, partial := "", revision := a.revision + 1)
  {
    var job := s.t.records[j];
    assert Sound(s, j);
    match step
    case DeleteJob(id) => RememberLeavesRest(s.t, id, j, WasCancelled(job));
    case CompleteJob(w, ok, text) =>
      assert JobOf(s.workers[w]) == Some(j);
      RememberLeavesRest(s.t, job.id, j, Finished(job, ok, text));
  }

  /** What every other step does to the record it is about. */
  lemma WorkingRecords(s: State, step: Step, j: nat)
    requires Inv(s) && Enabled(s, step) && Touched(s, step) == Some(j) && j in s.t.records
    requires step.TakeJob? || step.RecordSegment? || step.CloseJob? || step.SubmitJob?
    ensures j in Apply(s, step).t.records
    ensures var a, b := s.t.records[j], Apply(s, step).t.records[j];
      match step
      case TakeJob(_) => b == if a.state.Queued? then a.(state := Running) else a
      case RecordSegment(_, text) =>
        b == if a.state.Running? && text != ""
             then a.(partial := a.partial + text, revision := a.revision + 1) else a
      case _ => b == a
  {
    assert Sound(s, j);
    if step.TakeJob? {
      assert j in s.t.queue;
    } else if step.RecordSegment? {
      assert JobOf(s.workers[step.w]) == Some(j);
    }
  }

  /** A job that is over keeps its whole record. */
  lemma OverStaysAsItIs(s: State, step: Step, j: nat)
    requires Inv(s) && Enabled(s, step) && j in s.t.records
    requires !s.t.records[j].state.Queued? && !s.t.records[j].state.Running?
    ensures j in Apply(s, step).t.records && Apply(s, step).t.records[j] == s.t.records[j]
  {
    if Touched(s, step) != Some(j) {
      OthersStay(s, step, j);
    } else if step.DeleteJob? || step.CompleteJob? {
      EndingRecords(s, step, j);
    } else {
      WorkingRecords(s, step, j);
    }
  }

  lemma {:induction false} OverKeepsItsAnswer(s: State, steps: seq<Step>, j: nat)
    requires Inv(s) && Legal(s, steps) && j in s.t.records
    requires !s.t.records[j].state.Queued? && !s.t.records[j].state.Running?
    ensures j in After(s, steps).t.records && After(s, steps).t.records[j] == s.t.records[j]
    decreases |steps|
  {
    if steps != [] {
      OverStaysAsItIs(s, steps[0], j);
      StepKeepsInv(s, steps[0]);
      OverKeepsItsAnswer(Apply(s, steps[0]), steps[1..], j);
    }
  }

  /** A new job waits, with nothing to show. */
  lemma SubmittedJobWaits(s: State, j: nat, id: string)
    requires Enabled(s, SubmitJob(j, id))
    ensures var u := Apply(s, SubmitJob(j, id));
      if id in s.t.jobs || |s.t.queue| >= s.t.queueSize then u == s
      else
        && u.t.records == s.t.records[j := Job(id, Queued, "", "", 0, "")]
        && u.t.jobs == s.t.jobs[id := j] && u.t.queue == s.t.queue + [j] && u.t.ended == s.t.ended
  {
  }

  // Over runs

  /** What a job that is not over shows: no text, no error, and the segments heard. */
  ghost predicate Shows(job: Job, heard: string)
  {
    (job.state.Queued? || job.state.Running?) && job.text == "" && job.error == "" && job.partial == heard
  }

  /** How a job ended: as the backend said, or cancelled by somebody. */
  ghost predicate EndsAs(s: State, steps: seq<Step>, j: nat, job: Job)
    requires Legal(s, steps)
  {
    && job.partial == ""
    && match job.state
       case Done => job.error == "" && Brought(s, steps, j, true, job.text)
       case Failed => job.text == "" && Brought(s, steps, j, false, job.error)
       case Cancelled => job.text == "" && job.error == "" && Deleted(s, steps, j)
       case _ => false
  }

  lemma StepShows(s: State, step: Step, j: nat, heard: string)
    requires Inv(s) && Enabled(s, step) && j in s.t.records && Shows(s.t.records[j], heard)
    ensures j in Apply(s, step).t.records
    ensures var job := Apply(s, step).t.records[j];
      if step.CompleteJob? && Reports(s, step, j) then
        && job.partial == ""
        && (if step.ok then job.state == Done && job.text == step.text && job.error == ""
            else job.state == Failed && job.error == step.text && job.text == "")
      else if step.DeleteJob? && step.id in s.t.jobs && s.t.jobs[step.id] == j then
        job.state == Cancelled && job.partial == "" && job.text == "" && job.error == ""
      else
        Shows(job, heard + Segment(s, step, j))
  {
    assert Sound(s, j);
    assert heard + "" == heard;
    if Touched(s, step) != Some(j) {
      OthersStay(s, step, j);
    } else if step.DeleteJob? || step.CompleteJob? {
      EndingRecords(s, step, j);
    } else {
      WorkingRecords(s, step, j);
      if step.RecordSegment? {
        assert s.place[j].AtWorker?;
      }
    }
  }

  /** The step that ends a job is the reason it ended. */
  lemma EndedByFirstStep(s: State, steps: seq<Step>, j: nat, heard: string)
    requires Inv(s) && Legal(s, steps) && steps != [] && j in s.t.records && Shows(s.t.records[j], heard)
    ensures j in Apply(s, steps[0]).t.records
    ensures var job := Apply(s, steps[0]).t.records[j];
      job.state.Queued? || job.state.Running? || EndsAs(s, steps, j, job)
  {
    StepShows(s, steps[0], j, heard);
  }

  /** Still going, showing what it had shown and what was heard since; or ended for a reason. */
  ghost predicate GoesOnOrEnds(s: State, steps: seq<Step>, j: nat, heard: string, job: Job)
    requires Legal(s, steps)
  {
    Shows(job, heard + Heard(s, steps, j)) || EndsAs(s, steps, j, job)
  }

  /** What happens after a first step that did not end the job, seen from before it. */
  lemma OneStepEarlier(s: State, steps: seq<Step>, j: nat, heard: string, job: Job)
    requires Legal(s, steps) && steps != []
    requires !(steps[0].CompleteJob? && Reports(s, steps[0], j))
    requires GoesOnOrEnds(Apply(s, steps[0]), steps[1..], j, heard + Segment(s, steps[0], j), job)
    ensures GoesOnOrEnds(s, steps, j, heard, job)
  {
    var u, segment := Apply(s, steps[0]), Segment(s, steps[0], j);
    if Shows(job, (heard + segment) + Heard(u, steps[1..], j)) {
      Regroup(heard, segment, Heard(u, steps[1..], j));
    } else {
      EndedLater(s, steps, j, job);
    }
  }

  lemma EndedLater(s: State, steps: seq<Step>, j: nat, job: Job)
    requires Legal(s, steps) && steps != [] && EndsAs(Apply(s, steps[0]), steps[1..], j, job)
    requires !(steps[0].CompleteJob? && Reports(s, steps[0], j))
    ensures EndsAs(s, steps, j, job)
  {
  }

  lemma StillShowing(s: State, step: Step, j: nat, heard: string)
    requires Inv(s) && Enabled(s, step) && j in s.t.records && Shows(s.t.records[j], heard)
    requires j in Apply(s, step).t.records
    requires Apply(s, step).t.records[j].state.Queued? || Apply(s, step).t.records[j].state.Running?
    ensures !(step.CompleteJob? && Reports(s, step, j))
    ensures Shows(Apply(s, step).t.records[j], heard + Segment(s, step, j))
  {
    StepShows(s, step, j, heard);
  }

  /** From a state where the job is waiting or running: it still is, or it ended in one of the
      three ways. */
  lemma {:induction false} LiveJobEnds(s: State, steps: seq<Step>, j: nat, heard: string)
    requires Inv(s) && Legal(s, steps) && j in s.t.records && Shows(s.t.records[j], heard)
    ensures j in After(s, steps).t.records
    ensures GoesOnOrEnds(s, steps, j, heard, After(s, steps).t.records[j])
    decreases |steps|, 1
  {
    if steps == [] {
      assert heard + "" == heard;
    } else {
      StepKeepsInv(s, steps[0]);
      EndedByFirstStep(s, steps, j, heard);
      LaterThanFirstStep(s, steps, j, heard);
    }
  }

  lemma {:induction false} LaterThanFirstStep(s: State, steps: seq<Step>, j: nat, heard: string)
    requires Inv(s) && Legal(s, steps) && j in s.t.records && Shows(s.t.records[j], heard)
    requires steps != [] && Inv(Apply(s, steps[0])) && j in Apply(s, steps[0]).t.records
    requires var job := Apply(s, steps[0]).t.records[j];
      job.state.Queued? || job.state.Running? || EndsAs(s, steps, j, job)
    ensures j in After(s, steps).t.records
    ensures GoesOnOrEnds(s, steps, j, heard, After(s, steps).t.records[j])
    decreases |steps|, 0
  {
    var u := Apply(s, steps[0]);
    if u.t.records[j].state.Queued? || u.t.records[j].state.Running? {
      StillShowing(s, steps[0], j, heard);
      LiveJobEnds(u, steps[1..], j, heard + Segment(s, steps[0], j));
      OneStepEarlier(s, steps, j, heard, After(u, steps[1..]).t.records[j]);
    } else {
      OverKeepsItsAnswer(u, steps[1..], j);
    }
  }

  lemma {:induction false} UnknownJobEnds(s: State, steps: seq<Step>, j: nat)
    requires Inv(s) && Legal(s, steps) && j !in s.t.records && j in After(s, steps).t.records
    ensures var job := After(s, steps).t.records[j];
      GoesOnOrEnds(s, steps, j, "", job)
    decreases |steps|
  {
    var u := Apply(s, steps[0]);
    StepKeepsInv(s, steps[0]);
    NotReported(s, steps[0], j);
    if j in u.t.records {
      StepRecords(s, steps[0]);
      SubmittedJobWaits(s, j, steps[0].id);
      LiveJobEnds(u, steps[1..], j, "");
    } else {
      UnknownJobEnds(u, steps[1..], j);
    }
    assert "" + Heard(u, steps[1..], j) == Heard(u, steps[1..], j);
    OneStepEarlier(s, steps, j, "", After(s, steps).t.records[j]);
  }

  /** Nobody works on, or finds, a job that is not there. */
  lemma NotReported(s: State, step: Step, j: nat)
    requires Inv(s) && Enabled(s, step) && j !in s.t.records
    ensures !Reports(s, step, j)
    ensures j in Apply(s, step).t.records ==> step.SubmitJob? && step.job == j
  {
    StepRecords(s, step);
    if step.RecordSegment? || step.CompleteJob? {
      assert JobOf(s.workers[step.w]).Some?;
    }
  }

  /** Over every run: a done job's text is what the backend brought for it, with no error; a
      failed job's error is what it brought, with no text; a cancelled job was deleted; none of
      these keeps a partial text, while a job still going shows exactly the segments heard. */
  lemma AnswersAreWhatWasBrought(s: State, steps: seq<Step>, j: nat)
    requires Init(s) && Legal(s, steps) && j in After(s, steps).t.records
    ensures var job := After(s, steps).t.records[j];
      match job.state
      case Done => job.error == "" && job.partial == "" && Brought(s, steps, j, true, job.text)
      case Failed => job.text == "" && job.partial == "" && Brought(s, steps, j, false, job.error)
      case Cancelled => job.text == "" && job.error == "" && job.partial == "" && Deleted(s, steps, j)
      case _ => job.text == "" && job.error == "" && job.partial == Heard(s, steps, j)
  {
    InitHolds(s);
    UnknownJobEnds(s, steps, j);
    assert "" + Heard(s, steps, j) == Heard(s, steps, j);
  }

  /** A poller that sees the same revision has missed nothing but the start: each step leaves it
      or adds one, and what is shown only changes with it. */
  lemma RevisionTellsOfChanges(s: State, step: Step, j: nat)
    requires Inv(s) && Enabled(s, step) && j in s.t.records
    ensures j in Apply(s, step).t.records
    ensures var a, b := s.t.records[j], Apply(s, step).t.records[j];
      && (b.revision == a.revision || b.revision == a.revision + 1)
      && (b.revision == a.revision <==> b == a || (a.state.Queued? && b == a.(state := Running)))
  {
    if Touched(s, step) != Some(j) {
      OthersStay(s, step, j);
    } else if step.DeleteJob? || step.CompleteJob? {
      EndingRecords(s, step, j);
    } else {
      WorkingRecords(s, step, j);
    }
  }

  /** In every reachable state a worker can go on: without a job it takes the next one, with one
      the backend may report a segment or come back with either answer, and then it lets go. */
  lemma NoWorkerIsStuck(s: State, steps: seq<Step>, w: nat, text: string, j: nat, id: string)
    requires Init(s) && Legal(s, steps) && w in After(s, steps).workers && j !in After(s, steps).t.records
    ensures var u := After(s, steps);
      && Enabled(u, SubmitJob(j, id)) && Enabled(u, DeleteJob(id))
      && match u.workers[w]
         case Idle => u.t.queue != [] ==> Enabled(u, TakeJob(w))
         case Transcribing(_) =>
           && Enabled(u, RecordSegment(w, text))
           && Enabled(u, CompleteJob(w, true, text)) && Enabled(u, CompleteJob(w, false, text))
         case Closing(_) => Enabled(u, CloseJob(w))
  {
    InitHolds(s);
    RunKeepsInv(s, steps);
    var u := After(s, steps);
    assert JobOf(u.workers[w]).Some? ==> JobOf(u.workers[w]).value in u.place;
    assert u.t.queue != [] ==> u.t.queue[0] in u.t.queue;
  }
}
