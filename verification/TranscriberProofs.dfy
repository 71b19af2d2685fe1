/** What every interleaving around the transcriber's table keeps, and what follows. */
module TranscriberProofs {
  import opened Lists
  import opened Options
  import opened Hands
  import opened Transcriber
  import opened TranscriberSystem

  // The index

  /** The `n` most recent. */
  function LastOf(ids: seq<string>, n: nat): seq<string>
  {
    if |ids| <= n then ids else ids[|ids| - n..]
  }

  /** Expiry leaves the jobs and the queue alone, drops the ones longest over, and keeps every
      job that is not over where it is found. */
  lemma {:induction false} ExpireKeeps(t: Table<nat>)
    requires Indexed(t) && LiveFound(t)
    ensures var u := Expire(t);
      && u == t.(jobs := u.jobs, ended := u.ended)
      && Indexed(u) && LiveFound(u) && |u.ended| <= u.history
      && u.ended == LastOf(t.ended, t.history)
      && u.jobs.Keys <= t.jobs.Keys
    decreases |t.ended|
  {
    if |t.ended| > t.history {
      var id := t.ended[0];
      assert id in t.ended;
      var next := t.(jobs := t.jobs - {id}, ended := t.ended[1..]);
      assert t.ended == [id] + next.ended;
      PrependDiffers(id, next.ended);
      ExpireKeeps(next);
    }
  }

  lemma RememberKeeps(t: Table<nat>, id: string, j: nat, job: Job)
    requires Indexed(t) && LiveFound(t)
    requires j in t.records && id in t.jobs && t.jobs[id] == j && job.id == id && Over(job.state)
    ensures var u := Remember(t, id, j, job);
      && Indexed(u) && LiveFound(u) && |u.ended| <= u.history
      && u.records == t.records[j := job.(partial := "")]
      && u.queue == t.queue && u.queueSize == t.queueSize && u.history == t.history
      && u.ended == LastOf(DropFirst(t.ended, id) + [id], t.history)
  {
    DropFirstDrops(t.ended, id);
    AppendDiffers(DropFirst(t.ended, id), id);
    var mid := t.(records := t.records[j := job.(partial := "")], ended := DropFirst(t.ended, id) + [id]);
    assert Indexed(mid);
    ExpireKeeps(mid);
  }

  lemma ForgetKeeps(t: Table<nat>, id: string)
    requires Indexed(t) && LiveFound(t)
    requires id in t.jobs ==> Over(t.records[t.jobs[id]].state)
    ensures Indexed(Forget(t, id)) && LiveFound(Forget(t, id)) && |Forget(t, id).ended| <= |t.ended|
  {
    DropFirstDrops(t.ended, id);
  }

  /** A worker forgetting a cancelled job never takes the job that has its id now. */
  lemma ForgetIfSameKeeps(t: Table<nat>, id: string, j: nat)
    requires Indexed(t) && LiveFound(t) && j in t.records && Over(t.records[j].state)
    ensures var u := ForgetIfSame(t, id, j); Indexed(u) && LiveFound(u) && |u.ended| <= |t.ended|
  {
    if id in t.jobs && t.jobs[id] == j {
      ForgetKeeps(t, id);
    }
  }

  /** The table's own invariant, with the index within its bound. */
  ghost predicate TableSound(t: Table<nat>)
  {
    Indexed(t) && LiveFound(t) && |t.ended| <= t.history && t.history >= 1
  }

  lemma DeleteKeepsTable(t: Table<nat>, id: string)
    requires TableSound(t)
    ensures TableSound(Delete(t, id))
  {
    if id in t.jobs {
      var job := t.records[t.jobs[id]];
      if Over(job.state) {
        ForgetKeeps(t, id);
      } else {
        RememberKeeps(t, id, t.jobs[id], WasCancelled(job));
      }
    }
  }

  lemma TakeKeepsTable(t: Table<nat>, j: nat)
    requires TableSound(t) && j in t.records && (t.records[j].state.Queued? || t.records[j].state.Cancelled?)
    ensures TableSound(Take(t, j))
  {
    if t.records[j].state == Cancelled {
      ForgetIfSameKeeps(t, t.records[j].id, j);
    }
  }

  lemma SubmitKeepsTable(t: Table<nat>, j: nat, id: string)
    requires TableSound(t) && j !in t.records
    ensures TableSound(Submit(t, j, NewJob(id)).0)
  {
  }

  lemma StepKeepsTable(s: State, step: Step)
    requires Inv(s) && Enabled(s, step)
    ensures TableSound(Apply(s, step).t)
  {
    match step
    case SubmitJob(j, id) => SubmitKeepsTable(s.t, j, id);
    case DeleteJob(id) => DeleteKeepsTable(s.t, id);
    case TakeJob(w) =>
      var j := s.t.queue[0];
      assert j in s.t.queue;
      assert Sound(s, j);
      TakeKeepsTable(s.t.(queue := s.t.queue[1..]), j);
    case RecordSegment(_, _) =>
    case CompleteJob(w, ok, text) => CompleteKeepsTable(s, w, ok, text);
    case CloseJob(w) =>
      var j := s.workers[w].job;
      if s.t.records[j].state == Cancelled {
        ForgetIfSameKeeps(s.t, s.t.records[j].id, j);
      }
  }

  lemma CompleteKeepsTable(s: State, w: nat, ok: bool, text: string)
    requires Inv(s) && Enabled(s, CompleteJob(w, ok, text))
    ensures TableSound(Complete(s.t, s.workers[w].job, ok, text))
  {
    var j := s.workers[w].job;
    assert JobOf(s.workers[w]) == Some(j);
    assert Sound(s, j);
    var job := s.t.records[j];
    if job.state != Cancelled {
      RememberKeeps(s.t, job.id, j, Finished(job, ok, text));
    }
  }

  // Places and states

  lemma WorkersUnmoved(workers: map<nat, Pc>, place: map<nat, Place>, j: nat, to: Place)
    requires WorkersPlaced(workers, place) && !to.AtWorker?
    requires j in place ==> !place[j].AtWorker?
    ensures WorkersPlaced(workers, place[j := to])
  {
  }

  lemma WorkerTakes(workers: map<nat, Pc>, place: map<nat, Place>, w: nat, j: nat)
    requires WorkersPlaced(workers, place) && w in workers && workers[w].Idle?
    requires j in place ==> !place[j].AtWorker?
    ensures WorkersPlaced(workers[w := Transcribing(j)], place[j := AtWorker(w)])
  {
  }

  lemma WorkerLetsGo(workers: map<nat, Pc>, place: map<nat, Place>, w: nat)
    requires WorkersPlaced(workers, place) && w in workers && JobOf(workers[w]).Some?
    ensures WorkersPlaced(workers[w := Idle], place[JobOf(workers[w]).value := Nowhere])
  {
  }

  lemma ExpireLeavesRest<J>(t: Table<J>)
    ensures Expire(t) == t.(jobs := Expire(t).jobs, ended := Expire(t).ended)
    decreases |t.ended|
  {
  }

  /** The records and the queue after a step. */
  lemma StepRecords(s: State, step: Step)
    requires Enabled(s, step)
    ensures var u := Apply(s, step).t;
      && u.queueSize == s.t.queueSize && u.history == s.t.history
      && u.queue == (match step
         case TakeJob(_) => s.t.queue[1..]
         case SubmitJob(j, id) => if id in s.t.jobs || |s.t.queue| >= s.t.queueSize then s.t.queue else s.t.queue + [j]
         case _ => s.t.queue)
      && u.records.Keys == (match step
         case SubmitJob(j, id) =>
           if id in s.t.jobs || |s.t.queue| >= s.t.queueSize then s.t.records.Keys else s.t.records.Keys + {j}
         case _ => s.t.records.Keys)
  {
    match step
    case DeleteJob(id) =>
      if id in s.t.jobs && s.t.jobs[id] in s.t.records {
        var job := s.t.records[s.t.jobs[id]];
        RememberLeavesRest(s.t, id, s.t.jobs[id], WasCancelled(job));
      }
    case CompleteJob(w, ok, text) =>
      var j := s.workers[w].job;
      var job := s.t.records[j];
      RememberLeavesRest(s.t, job.id, j, Finished(job, ok, text));
    case _ =>
  }

  lemma RememberLeavesRest<J>(t: Table<J>, id: string, j: J, job: Job)
    ensures var u := Remember(t, id, j, job);
      && u.records == t.records[j := job.(partial := "")] && u.queue == t.queue
      && u.queueSize == t.queueSize && u.history == t.history
  {
    ExpireLeavesRest(t.(records := t.records[j := job.(partial := "")], ended := DropFirst(t.ended, id) + [id]));
  }

  /** The job a worker takes off the queue is one nobody else has. */
  lemma TakenFromQueue(s: State)
    requires Placed(s) && s.t.queue != []
    ensures s.t.queue[0] in s.place && s.place[s.t.queue[0]] == InQueue
  {
    assert s.t.queue[0] in s.t.queue;
  }

  lemma TakeKeepsPlaces(s: State, w: nat)
    requires Placed(s) && Enabled(s, TakeJob(w))
    ensures Placed(Apply(s, TakeJob(w)))
  {
    StepRecords(s, TakeJob(w));
    TakenFromQueue(s);
    var j := s.t.queue[0];
    if s.t.records[j].state == Cancelled {
      PopKeepsQueue(s.t.queue, s.t.queueSize, s.place, Nowhere);
      WorkersUnmoved(s.workers, s.place, j, Nowhere);
    } else {
      PopKeepsQueue(s.t.queue, s.t.queueSize, s.place, AtWorker(w));
      WorkerTakes(s.workers, s.place, w, j);
    }
  }

  lemma CloseKeepsPlaces(s: State, w: nat)
    requires Placed(s) && Enabled(s, CloseJob(w))
    ensures Placed(Apply(s, CloseJob(w)))
  {
    StepRecords(s, CloseJob(w));
    var j := s.workers[w].job;
    assert JobOf(s.workers[w]) == Some(j);
    QueueUnmoved(s.t.queue, s.t.queueSize, s.place, j, Nowhere);
    WorkerLetsGo(s.workers, s.place, w);
  }

  lemma StepKeepsPlaces(s: State, step: Step)
    requires Placed(s) && Enabled(s, step)
    ensures Placed(Apply(s, step))
  {
    StepRecords(s, step);
    match step
    case SubmitJob(j, id) =>
      if !(id in s.t.jobs || |s.t.queue| >= s.t.queueSize) {
        PushKeepsQueue(s.t.queue, s.t.queueSize, s.place, j);
        WorkersUnmoved(s.workers, s.place, j, InQueue);
      }
    case DeleteJob(_) =>
    case TakeJob(w) => TakeKeepsPlaces(s, w);
    case RecordSegment(_, _) =>
    case CompleteJob(w, _, _) =>
      var j := s.workers[w].job;
      assert JobOf(s.workers[w]) == Some(j);
      assert WorkersPlaced(Apply(s, step).workers, s.place);
    case CloseJob(w) => CloseKeepsPlaces(s, w);
  }

  /** A step moves a job's state forward, or not at all. */
  predicate Forward(a: JobState, b: JobState)
  {
    a == b || (a.Queued? && (b.Running? || b.Cancelled?)) || (a.Running? && Over(b))
  }

  /** The one job a step may change or move. */
  function Touched(s: State, step: Step): Option<nat>
    requires Enabled(s, step)
  {
    match step
    case SubmitJob(j, id) => Some(j)
    case DeleteJob(id) => if id in s.t.jobs then Some(s.t.jobs[id]) else None
    case TakeJob(_) => Some(s.t.queue[0])
    case _ => Some(s.workers[step.w].job)
  }

  lemma OthersStay(s: State, step: Step, j: nat)
    requires Enabled(s, step) && j in s.t.records && Touched(s, step) != Some(j)
    ensures j in Apply(s, step).t.records && Apply(s, step).t.records[j] == s.t.records[j]
    ensures j in s.place ==> j in Apply(s, step).place && Apply(s, step).place[j] == s.place[j]
    ensures Placed(s) && s.place[j].AtWorker? ==>
      s.place[j].w in Apply(s, step).workers && Apply(s, step).workers[s.place[j].w] == s.workers[s.place[j].w]
  {
    match step
    case DeleteJob(id) =>
      if id in s.t.jobs && s.t.jobs[id] in s.t.records {
        var job := s.t.records[s.t.jobs[id]];
        RememberLeavesRest(s.t, id, s.t.jobs[id], WasCancelled(job));
      }
    case CompleteJob(w, ok, text) =>
      var k := s.workers[w].job;
      var job := s.t.records[k];
      RememberLeavesRest(s.t, job.id, k, Finished(job, ok, text));
    case _ =>
  }

  lemma TouchedMoves(s: State, step: Step, j: nat)
    requires Inv(s) && Enabled(s, step) && Touched(s, step) == Some(j) && j in s.t.records
    ensures j in Apply(s, step).t.records && j in Apply(s, step).place
    ensures Forward(s.t.records[j].state, Apply(s, step).t.records[j].state)
    ensures Sound(Apply(s, step), j)
  {
    assert Sound(s, j);
    match step
    case DeleteJob(id) =>
      var job := s.t.records[j];
      RememberLeavesRest(s.t, id, j, WasCancelled(job));
    case TakeJob(_) => assert j in s.t.queue;
    case RecordSegment(w, _) => assert JobOf(s.workers[w]) == Some(j);
    case CompleteJob(w, ok, text) =>
      var job := s.t.records[j];
      assert JobOf(s.workers[w]) == Some(j);
      RememberLeavesRest(s.t, job.id, j, Finished(job, ok, text));
    case CloseJob(w) => assert JobOf(s.workers[w]) == Some(j);
  }

  lemma StepKeepsSound(s: State, step: Step, j: nat)
    requires Inv(s) && Enabled(s, step) && j in Apply(s, step).t.records
    ensures j in Apply(s, step).place && Sound(Apply(s, step), j)
    ensures j in s.t.records ==> Forward(s.t.records[j].state, Apply(s, step).t.records[j].state)
  {
    StepRecords(s, step);
    if j in s.t.records {
      if Touched(s, step) == Some(j) {
        TouchedMoves(s, step, j);
      } else {
        OthersStay(s, step, j);
        assert Sound(s, j);
      }
    }
  }

  lemma StepKeepsInv(s: State, step: Step)
    requires Inv(s) && Enabled(s, step)
    ensures Inv(Apply(s, step))
  {
    StepKeepsTable(s, step);
    StepKeepsPlaces(s, step);
    forall j | j in Apply(s, step).t.records ensures Sound(Apply(s, step), j) {
      StepKeepsSound(s, step, j);
    }
  }
}
