/** What every interleaving around the job table keeps. */
module JobProofs {
  import opened Lists
  import opened Options
  import opened JobQueue
  import opened JobSystem
  import opened Hands

  // The index

  lemma {:induction false} EvictKeepsIndex(t: Table<nat>)
    requires Indexed(t)
    ensures Indexed(Evict(t))
  {
    EvictForgetsPrefix(t);
    CutApart(t.order, Evicted(t));
  }

  lemma AddKeepsIndex(t: Table<nat>, j: nat, job: Job)
    requires Indexed(t) && j !in t.records
    ensures Indexed(Add(t, j, job))
  {
    if job.id !in t.jobs {
      EvictKeepsIndex(t.(records := t.records[j := job], jobs := t.jobs[job.id := j], order := t.order + [job.id]));
    }
  }

  /** Changing jobs in place, ids apart, leaves the index alone. */
  lemma SameIndex(t: Table<nat>, u: Table<nat>)
    requires Indexed(t) && u.jobs == t.jobs && u.order == t.order
    requires forall j | j in t.records :: j in u.records && u.records[j].id == t.records[j].id
    ensures Indexed(u)
  {
  }

  lemma FinishKeepsIndex(t: Table<nat>, j: nat, state: JobState, failure: string, now: int)
    requires Indexed(t) && j in t.records
    ensures Indexed(JobQueue.Finish(t, j, state, failure, now))
  {
    var u := t.(records := t.records[j := FinishJob(t.records[j], state, failure, now)]);
    SameIndex(t, u);
    EvictKeepsIndex(u);
  }

  lemma WithdrawKeepsIndex(t: Table<nat>, id: string)
    requires Indexed(t)
    ensures Indexed(Withdraw(t, id))
  {
    DropFirstDrops(t.order, id);
  }

  /** Steps that touch at most the fields of jobs, the queue or the workers. */
  predicate LeavesIndex(step: Step)
  {
    !step.Submit? && !step.Refuse? && !step.Finish?
  }

  predicate SameIds(a: map<nat, Job>, b: map<nat, Job>)
  {
    forall j | j in a :: j in b && b[j].id == a[j].id
  }

  lemma WithJobKeepsIds(s: State, j: nat, job: Job)
    requires j in s.t.records && job.id == s.t.records[j].id
    ensures SameIds(s.t.records, WithJob(s, j, job).t.records)
  {
  }

  lemma OtherStepsLeaveIndex(s: State, step: Step)
    requires Enabled(s, step) && LeavesIndex(step)
    ensures var u := Apply(s, step).t;
      u.jobs == s.t.jobs && u.order == s.t.order && SameIds(s.t.records, u.records)
  {
    match step
    case Cancel(id) =>
      if id in s.t.jobs {
        WithJobKeepsIds(s, s.t.jobs[id], CancelJob(s.t.records[s.t.jobs[id]], s.now));
      }
    case Start(w, _) => WithJobKeepsIds(s, JobAt(s, w), StartJob(s.t.records[JobAt(s, w)], s.now));
    case _ =>
  }

  lemma StepKeepsIndex(s: State, step: Step)
    requires Indexed(s.t) && Enabled(s, step)
    ensures Indexed(Apply(s, step).t)
  {
    if LeavesIndex(step) {
      OtherStepsLeaveIndex(s, step);
      SameIndex(s.t, Apply(s, step).t);
    } else {
      match step
      case Submit(p, j, id, items) => AddKeepsIndex(s.t, j, NewJob(id, items));
      case Refuse(p) => WithdrawKeepsIndex(s.t, s.t.records[s.submits[p].job].id);
      case Finish(w) => FinishKeepsIndex(s.t, JobAt(s, w), s.workers[w].verdict, s.workers[w].failure, s.now);
    }
  }

  // Places

  lemma {:induction false} EvictLeavesRest<J>(t: Table<J>)
    ensures Evict(t) == t.(jobs := Evict(t).jobs, order := Evict(t).order)
    decreases |t.order|
  {
    if !(t.history <= 0 || |t.order| <= t.history || Live(t, t.order[0])) {
      EvictLeavesRest(t.(jobs := t.jobs - {t.order[0]}, order := t.order[1..]));
    }
  }

  lemma WorkersUnmoved(workers: map<nat, Pc>, place: map<nat, Place>, j: nat, to: Place)
    requires WorkersPlaced(workers, place) && !to.AtWorker?
    requires j in place ==> !place[j].AtWorker?
    ensures WorkersPlaced(workers, place[j := to])
  {
  }

  lemma SubmitsUnmoved(submits: map<nat, Half>, place: map<nat, Place>, j: nat, to: Place)
    requires SubmitsPlaced(submits, place) && !to.AtSubmit?
    requires j in place ==> !place[j].AtSubmit?
    ensures SubmitsPlaced(submits, place[j := to])
  {
  }

  lemma SubmitKeepsPlaces(s: State, step: Step)
    requires Placed(s) && Enabled(s, step) && step.Submit? && step.id !in s.t.jobs
    ensures Placed(Apply(s, step))
  {
    var u := Apply(s, step);
    EvictLeavesRest(s.t.(records := s.t.records[step.job := NewJob(step.id, step.items)],
                         jobs := s.t.jobs[step.id := step.job], order := s.t.order + [step.id]));
    QueueUnmoved(s.t.queue, s.t.capacity, s.place, step.job, AtSubmit(step.p));
    WorkersUnmoved(s.workers, s.place, step.job, AtSubmit(step.p));
    assert SubmitsPlaced(u.submits, u.place);
  }

  lemma SubmitEnds(submits: map<nat, Half>, place: map<nat, Place>, p: nat, to: Place)
    requires SubmitsPlaced(submits, place) && p in submits && !to.AtSubmit?
    ensures SubmitsPlaced(submits - {p}, place[submits[p].job := to])
  {
  }

  lemma WorkerTakes(workers: map<nat, Pc>, place: map<nat, Place>, w: nat, j: nat)
    requires WorkersPlaced(workers, place) && w in workers && JobOf(workers[w]).None?
    requires j in place ==> !place[j].AtWorker?
    ensures WorkersPlaced(workers[w := Got(j)], place[j := AtWorker(w)])
  {
  }

  lemma WorkerDrops(workers: map<nat, Pc>, place: map<nat, Place>, w: nat)
    requires WorkersPlaced(workers, place) && w in workers && JobOf(workers[w]).Some?
    ensures WorkersPlaced(workers[w := Idle], place[JobOf(workers[w]).value := Nowhere])
  {
  }

  lemma SendKeepsPlaces(s: State, p: nat)
    requires Placed(s) && Enabled(s, Send(p))
    ensures Placed(Apply(s, Send(p)))
  {
    var j := s.submits[p].job;
    if |s.t.queue| < s.t.capacity {
      PushKeepsQueue(s.t.queue, s.t.capacity, s.place, j);
      WorkersUnmoved(s.workers, s.place, j, InQueue);
      SubmitEnds(s.submits, s.place, p, InQueue);
    } else {
      assert SubmitsPlaced(s.submits[p := Refusing(j)], s.place);
    }
  }

  lemma RefuseKeepsPlaces(s: State, p: nat)
    requires Placed(s) && Enabled(s, Refuse(p))
    ensures Placed(Apply(s, Refuse(p)))
  {
    var j := s.submits[p].job;
    QueueUnmoved(s.t.queue, s.t.capacity, s.place, j, Nowhere);
    WorkersUnmoved(s.workers, s.place, j, Nowhere);
    SubmitEnds(s.submits, s.place, p, Nowhere);
  }

  lemma ReceiveKeepsPlaces(s: State, w: nat)
    requires Placed(s) && Enabled(s, Receive(w))
    ensures Placed(Apply(s, Receive(w)))
  {
    var j := s.t.queue[0];
    assert j in s.t.queue;
    PopKeepsQueue(s.t.queue, s.t.capacity, s.place, AtWorker(w));
    WorkerTakes(s.workers, s.place, w, j);
    SubmitsUnmoved(s.submits, s.place, j, AtWorker(w));
  }

  /** A worker lets go of its job. */
  lemma LetGoKeepsPlaces(s: State, u: State, w: nat)
    requires Placed(s) && AtPc(s, w)
    requires u.place == s.place[JobAt(s, w) := Nowhere] && u.submits == s.submits
    requires u.t.queue == s.t.queue && u.t.capacity == s.t.capacity && u.t.records.Keys == s.t.records.Keys
    requires u.workers == s.workers[w := Idle]
    ensures Placed(u)
  {
    QueueUnmoved(s.t.queue, s.t.capacity, s.place, JobAt(s, w), Nowhere);
    WorkerDrops(s.workers, s.place, w);
    SubmitsUnmoved(s.submits, s.place, JobAt(s, w), Nowhere);
  }

  /** The jobs in hand stay in the same hands. */
  lemma SamePlaces(s: State, u: State)
    requires Placed(s) && u.place == s.place && u.submits == s.submits
    requires u.t.queue == s.t.queue && u.t.capacity == s.t.capacity && u.t.records.Keys == s.t.records.Keys
    requires u.workers.Keys == s.workers.Keys
    requires forall w | w in s.workers :: JobOf(u.workers[w]) == JobOf(s.workers[w])
    ensures Placed(u)
  {
  }

  lemma StartKeepsPlaces(s: State, w: nat, pathOk: bool)
    requires Placed(s) && Enabled(s, Start(w, pathOk))
    ensures Placed(Apply(s, Start(w, pathOk)))
  {
    var u := Apply(s, Start(w, pathOk));
    if s.t.records[JobAt(s, w)].state == Cancelled {
      LetGoKeepsPlaces(s, u, w);
    } else {
      SamePlaces(s, u);
    }
  }

  lemma FinishKeepsPlaces(s: State, w: nat)
    requires Placed(s) && Enabled(s, Finish(w))
    ensures Placed(Apply(s, Finish(w)))
  {
    var j, pc := JobAt(s, w), s.workers[w];
    EvictLeavesRest(s.t.(records := s.t.records[j := FinishJob(s.t.records[j], pc.verdict, pc.failure, s.now)]));
    LetGoKeepsPlaces(s, Apply(s, Finish(w)), w);
  }

  predicate MovesNoJob(step: Step)
  {
    !(step.Submit? || step.Send? || step.Refuse? || step.Receive? || step.Start? || step.Finish?)
  }

  lemma StillStepsMoveNoJob(s: State, step: Step)
    requires Indexed(s.t) && Enabled(s, step) && MovesNoJob(step)
    ensures var u := Apply(s, step);
      && u.place == s.place && u.submits == s.submits
      && u.t.queue == s.t.queue && u.t.capacity == s.t.capacity && u.t.records.Keys == s.t.records.Keys
      && u.workers.Keys == s.workers.Keys
      && (forall w | w in s.workers :: JobOf(u.workers[w]) == JobOf(s.workers[w]))
  {
  }

  lemma StepKeepsPlaces(s: State, step: Step)
    requires Indexed(s.t) && Placed(s) && Enabled(s, step)
    ensures Placed(Apply(s, step))
  {
    if MovesNoJob(step) {
      StillStepsMoveNoJob(s, step);
      SamePlaces(s, Apply(s, step));
    } else {
      match step
      case Submit(_, _, id, _) =>
        if id !in s.t.jobs {
          SubmitKeepsPlaces(s, step);
        }
      case Send(p) => SendKeepsPlaces(s, p);
      case Refuse(p) => RefuseKeepsPlaces(s, p);
      case Receive(w) => ReceiveKeepsPlaces(s, w);
      case Start(w, pathOk) => StartKeepsPlaces(s, w, pathOk);
      case Finish(w) => FinishKeepsPlaces(s, w);
    }
  }

  // Jobs

  /** The one job a step may change or move. */
  function Touched(s: State, step: Step): Option<nat>
    requires Enabled(s, step)
  {
    match step
    case Submit(_, j, id, _) => if id in s.t.jobs then None else Some(j)
    case Send(p) => Some(s.submits[p].job)
    case Refuse(p) => Some(s.submits[p].job)
    case Cancel(id) => if id in s.t.jobs then Some(s.t.jobs[id]) else None
    case Receive(_) => Some(s.t.queue[0])
    case Close => None
    case Stop(_) => None
    case Tick(_) => None
    case _ => Some(JobAt(s, step.w))
  }

  lemma AddLeavesOthers<J>(t: Table<J>, j: J, job: Job)
    ensures Add(t, j, job).records == if job.id in t.jobs then t.records else t.records[j := job]
    ensures Add(t, j, job).queue == t.queue && Add(t, j, job).history == t.history
  {
    EvictLeavesRest(t.(records := t.records[j := job], jobs := t.jobs[job.id := j], order := t.order + [job.id]));
  }

  lemma FinishLeavesOthers<J>(t: Table<J>, j: J, state: JobState, failure: string, now: int)
    requires j in t.records
    ensures JobQueue.Finish(t, j, state, failure, now).records ==
      t.records[j := FinishJob(t.records[j], state, failure, now)]
    ensures JobQueue.Finish(t, j, state, failure, now).queue == t.queue
  {
    EvictLeavesRest(t.(records := t.records[j := FinishJob(t.records[j], state, failure, now)]));
  }

  /** The records after a step. */
  function RecordsAfter(s: State, step: Step): map<nat, Job>
    requires Enabled(s, step)
  {
    match step
    case Submit(_, j, id, items) => if id in s.t.jobs then s.t.records else s.t.records[j := NewJob(id, items)]
    case Finish(w) =>
      s.t.records[JobAt(s, w) := FinishJob(s.t.records[JobAt(s, w)], s.workers[w].verdict, s.workers[w].failure, s.now)]
    case _ => Apply(s, step).t.records
  }

  lemma StepRecords(s: State, step: Step)
    requires Enabled(s, step)
    ensures Apply(s, step).t.records == RecordsAfter(s, step)
  {
    match step
    case Submit(p, j, id, items) => AddLeavesOthers(s.t, j, NewJob(id, items));
    case Finish(w) => FinishLeavesOthers(s.t, JobAt(s, w), s.workers[w].verdict, s.workers[w].failure, s.now);
    case _ =>
  }

  lemma OthersKeepRecord(s: State, step: Step, j: nat)
    requires Enabled(s, step) && j in s.t.records && Touched(s, step) != Some(j)
    ensures j in RecordsAfter(s, step) && RecordsAfter(s, step)[j] == s.t.records[j]
  {
  }

  lemma OthersKeepPlace(s: State, step: Step, j: nat)
    requires Enabled(s, step) && j in s.place && Touched(s, step) != Some(j)
    ensures j in Apply(s, step).place && Apply(s, step).place[j] == s.place[j]
  {
  }

  lemma OthersKeepWorker(s: State, step: Step, j: nat)
    requires Enabled(s, step) && Placed(s) && j in s.place && Touched(s, step) != Some(j) && s.place[j].AtWorker?
    ensures var w, u := s.place[j].w, Apply(s, step); w in u.workers && u.workers[w] == s.workers[w]
  {
    assert JobOf(s.workers[s.place[j].w]) == Some(j);
  }

  lemma OthersStay(s: State, step: Step, j: nat)
    requires Enabled(s, step) && Placed(s) && j in s.t.records && Touched(s, step) != Some(j)
    ensures var u := Apply(s, step);
      && j in u.t.records && u.t.records[j] == s.t.records[j]
      && j in u.place && u.place[j] == s.place[j]
      && (s.place[j].AtWorker? ==> s.place[j].w in u.workers && u.workers[s.place[j].w] == s.workers[s.place[j].w])
  {
    StepRecords(s, step);
    OthersKeepRecord(s, step, j);
    OthersKeepPlace(s, step, j);
    if s.place[j].AtWorker? {
      OthersKeepWorker(s, step, j);
    }
  }

  lemma OthersStaySound(s: State, step: Step, j: nat)
    requires Enabled(s, step) && Placed(s) && j in s.t.records && Touched(s, step) != Some(j)
    requires Sound(s, j)
    ensures j in Apply(s, step).t.records && j in Apply(s, step).place && Sound(Apply(s, step), j)
  {
    OthersStay(s, step, j);
  }

  lemma FreshIsUncounted(n: nat)
    ensures CountStored(NewJob("", n).items) == 0 && Bytes(NewJob("", n).items) == 0
  {
    CountStoredMeans(NewJob("", n).items);
  }

  lemma VerdictSettles(job: Job)
    requires |job.items| > 0
    requires forall i | 0 <= i < |job.items| :: Over(job.items[i])
    ensures Terminal(Verdict(job.items))
    ensures Settled(job.(bytesTotal := Bytes(job.items), state := Verdict(job.items)))
  {
    CountStoredMeans(job.items);
  }

  lemma TouchedBySubmit(s: State, step: Step, j: nat)
    requires Enabled(s, step) && Placed(s) && step.Submit? && Touched(s, step) == Some(j)
    requires j in s.t.records ==> Sound(s, j)
    ensures j in Apply(s, step).t.records && j in Apply(s, step).place && Sound(Apply(s, step), j)
  {
    StepRecords(s, step);
    FreshIsUncounted(step.items);
    assert NewJob(step.id, step.items).items == NewJob("", step.items).items;
  }

  lemma TouchedBySend(s: State, p: nat)
    requires Enabled(s, Send(p)) && Placed(s) && s.submits[p].job in s.t.records && Sound(s, s.submits[p].job)
    ensures var j, u := s.submits[p].job, Apply(s, Send(p)); j in u.t.records && j in u.place && Sound(u, j)
  {
  }

  lemma TouchedByRefusal(s: State, p: nat)
    requires Enabled(s, Refuse(p)) && Placed(s) && s.submits[p].job in s.t.records && Sound(s, s.submits[p].job)
    ensures var j, u := s.submits[p].job, Apply(s, Refuse(p)); j in u.t.records && j in u.place && Sound(u, j)
  {
  }

  lemma TouchedByReceive(s: State, w: nat)
    requires Enabled(s, Receive(w)) && Placed(s) && s.t.queue[0] in s.t.records && Sound(s, s.t.queue[0])
    ensures var j, u := s.t.queue[0], Apply(s, Receive(w)); j in u.t.records && j in u.place && Sound(u, j)
  {
    assert s.t.queue[0] in s.t.queue;
  }

  lemma TouchedByCancel(s: State, id: string)
    requires Enabled(s, Cancel(id)) && Placed(s) && id in s.t.jobs && Sound(s, s.t.jobs[id])
    ensures Sound(Apply(s, Cancel(id)), s.t.jobs[id])
  {
  }

  lemma TouchedByItemRunning(s: State, w: nat, k: nat, bytes: nat)
    requires Enabled(s, ItemRuns(w, k, bytes)) && Placed(s) && Sound(s, JobAt(s, w))
    ensures var j, u := JobAt(s, w), Apply(s, ItemRuns(w, k, bytes)); j in u.place && Sound(u, j)
  {
  }

  lemma TouchedByItemEnding(s: State, w: nat, k: nat, stored: bool, bytes: nat)
    requires Enabled(s, ItemEnds(w, k, stored, bytes)) && Placed(s) && Sound(s, JobAt(s, w))
    ensures var j, u := JobAt(s, w), Apply(s, ItemEnds(w, k, stored, bytes)); j in u.place && Sound(u, j)
  {
  }

  lemma TouchedByStart(s: State, w: nat, pathOk: bool)
    requires Enabled(s, Start(w, pathOk)) && Placed(s) && Sound(s, JobAt(s, w))
    ensures Sound(Apply(s, Start(w, pathOk)), JobAt(s, w))
  {
    var job := s.t.records[JobAt(s, w)];
    CountStoredMeans(job.items);
  }

  lemma TouchedByJoin(s: State, w: nat)
    requires Enabled(s, Join(w)) && Placed(s) && Sound(s, JobAt(s, w))
    ensures JobAt(s, w) in Apply(s, Join(w)).place && Sound(Apply(s, Join(w)), JobAt(s, w))
  {
  }

  lemma TouchedBySettle(s: State, w: nat)
    requires Enabled(s, Settle(w)) && Placed(s) && Sound(s, JobAt(s, w))
    ensures JobAt(s, w) in Apply(s, Settle(w)).place && Sound(Apply(s, Settle(w)), JobAt(s, w))
  {
    VerdictSettles(s.t.records[JobAt(s, w)]);
  }

  lemma TouchedByFinish(s: State, w: nat)
    requires Enabled(s, Finish(w)) && Placed(s) && Sound(s, JobAt(s, w))
    ensures var j, u := JobAt(s, w), Apply(s, Finish(w)); j in u.t.records && j in u.place && Sound(u, j)
  {
    StepRecords(s, Finish(w));
  }

  lemma TouchedIsKnown(s: State, step: Step, j: nat)
    requires Enabled(s, step) && Indexed(s.t) && Placed(s) && Touched(s, step) == Some(j) && !step.Submit?
    ensures j in s.t.records
  {
  }

  lemma TouchedByWorker(s: State, step: Step, j: nat)
    requires Enabled(s, step) && Placed(s) && Touched(s, step) == Some(j) && j in s.t.records && Sound(s, j)
    requires step.Start? || step.ItemRuns? || step.ItemEnds? || step.Join? || step.Settle? || step.Finish?
    ensures j in Apply(s, step).t.records && j in Apply(s, step).place && Sound(Apply(s, step), j)
  {
    match step
    case Start(w, pathOk) => TouchedByStart(s, w, pathOk);
    case ItemRuns(w, k, bytes) => TouchedByItemRunning(s, w, k, bytes);
    case ItemEnds(w, k, stored, bytes) => TouchedByItemEnding(s, w, k, stored, bytes);
    case Join(w) => TouchedByJoin(s, w);
    case Settle(w) => TouchedBySettle(s, w);
    case Finish(w) => TouchedByFinish(s, w);
  }

  lemma TouchedStaysSound(s: State, step: Step, j: nat)
    requires Enabled(s, step) && Placed(s) && Touched(s, step) == Some(j) && !step.Submit?
    requires j in s.t.records && Sound(s, j)
    ensures j in Apply(s, step).t.records && j in Apply(s, step).place && Sound(Apply(s, step), j)
  {
    if step.Send? {
      TouchedBySend(s, step.p);
    } else if step.Refuse? {
      TouchedByRefusal(s, step.p);
    } else if step.Receive? {
      TouchedByReceive(s, step.w);
    } else if step.Cancel? {
      TouchedByCancel(s, step.id);
    } else {
      TouchedByWorker(s, step, j);
    }
  }

  lemma StepKeepsSound(s: State, step: Step, j: nat)
    requires Enabled(s, step) && Indexed(s.t) && Placed(s)
    requires j in s.t.records ==> Sound(s, j)
    requires j in Apply(s, step).t.records
    ensures j in Apply(s, step).place && Sound(Apply(s, step), j)
  {
    if Touched(s, step) != Some(j) {
      StepRecords(s, step);
      assert j in s.t.records;
      OthersStaySound(s, step, j);
    } else if step.Submit? {
      TouchedBySubmit(s, step, j);
    } else {
      TouchedIsKnown(s, step, j);
      TouchedStaysSound(s, step, j);
    }
  }

  lemma StepKeepsInv(s: State, step: Step)
    requires Inv(s) && Enabled(s, step)
    ensures Inv(Apply(s, step))
  {
    StepKeepsIndex(s, step);
    StepKeepsPlaces(s, step);
    forall j | j in Apply(s, step).t.records ensures Sound(Apply(s, step), j) {
      StepKeepsSound(s, step, j);
    }
  }
}
