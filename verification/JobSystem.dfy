/** Every interleaving of submitters, workers, item transfers and cancellers around the job
    table. One step is one section under the mutex, one channel operation, or one item
    transfer reporting. */
module JobSystem {
  import opened Lists
  import opened Options
  import opened JobQueue
  import opened Hands

  /** The half of `submit` still to run for a job already in the table. */
  datatype Half = Sending(job: nat) | Refusing(job: nat)

  datatype Pc =
    | Idle
    | Got(job: nat)
    | Working(job: nat, pending: set<nat>)
    | Joined(job: nat)
    | Finishing(job: nat, verdict: JobState, failure: string)
    | Stopped

  datatype State = State(
    t: Table<nat>, place: map<nat, Place>, workers: map<nat, Pc>, submits: map<nat, Half>, closing: bool, now: int)

  datatype Step =
    | Submit(p: nat, job: nat, id: string, items: nat)
    | Send(p: nat)
    | Refuse(p: nat)
    | Cancel(id: string)
    | Receive(w: nat)
    | Start(w: nat, pathOk: bool)
    | ItemRuns(w: nat, index: nat, bytes: nat)
    | ItemEnds(w: nat, index: nat, stored: bool, bytes: nat)
    | Join(w: nat)
    | Settle(w: nat)
    | Finish(w: nat)
    | Close
    | Stop(w: nat)
    | Tick(later: int)

  function JobOf(pc: Pc): Option<nat>
  {
    match pc
    case Got(j) => Some(j)
    case Working(j, _) => Some(j)
    case Joined(j) => Some(j)
    case Finishing(j, _, _) => Some(j)
    case _ => None
  }

  predicate AtPc(s: State, w: nat)
  {
    w in s.workers && JobOf(s.workers[w]).Some? && JobOf(s.workers[w]).value in s.t.records
  }

  function JobAt(s: State, w: nat): nat
    requires AtPc(s, w)
  {
    JobOf(s.workers[w]).value
  }

  ghost predicate Enabled(s: State, step: Step)
  {
    match step
    case Submit(p, j, _, items) => p !in s.submits && j !in s.t.records && items > 0
    case Send(p) => p in s.submits && s.submits[p].Sending?
    case Refuse(p) => p in s.submits && s.submits[p].Refusing? && s.submits[p].job in s.t.records
    case Cancel(id) => id in s.t.jobs ==> s.t.jobs[id] in s.t.records
    case Receive(w) => w in s.workers && s.workers[w].Idle? && s.t.queue != []
    case Start(w, _) => AtPc(s, w) && s.workers[w].Got?
    case ItemRuns(w, k, _) =>
      AtPc(s, w) && s.workers[w].Working? && k in s.workers[w].pending && k < |s.t.records[JobAt(s, w)].items|
    case ItemEnds(w, k, _, _) =>
      AtPc(s, w) && s.workers[w].Working? && k in s.workers[w].pending && k < |s.t.records[JobAt(s, w)].items|
    case Join(w) => AtPc(s, w) && s.workers[w].Working? && s.workers[w].pending == {}
    case Settle(w) => AtPc(s, w) && s.workers[w].Joined?
    case Finish(w) => AtPc(s, w) && s.workers[w].Finishing?
    case Close => true
    case Stop(w) => w in s.workers && s.workers[w].Idle? && s.closing
    case Tick(later) => later >= s.now
  }

  function WithJob(s: State, j: nat, job: Job): State
  {
    s.(t := s.t.(records := s.t.records[j := job]))
  }

  function WithPc(s: State, w: nat, pc: Pc): State
  {
    s.(workers := s.workers[w := pc])
  }

  function Upto(n: nat): (r: set<nat>)
    ensures forall k: nat :: k in r <==> k < n
  {
    if n == 0 then {} else Upto(n - 1) + {n - 1}
  }

  function Apply(s: State, step: Step): State
    requires Enabled(s, step)
  {
    match step
    case Submit(p, j, id, items) =>
      if id in s.t.jobs then s
      else
        s.(t := Add(s.t, j, NewJob(id, items)), place := s.place[j := AtSubmit(p)],
           submits := s.submits[p := Sending(j)])
    case Send(p) =>
      var j := s.submits[p].job;
      if |s.t.queue| < s.t.capacity then
        s.(t := s.t.(queue := s.t.queue + [j]), place := s.place[j := InQueue], submits := s.submits - {p})
      else
        s.(submits := s.submits[p := Refusing(j)])
    case Refuse(p) =>
      var j := s.submits[p].job;
      s.(t := Withdraw(s.t, s.t.records[j].id), place := s.place[j := Nowhere], submits := s.submits - {p})
    case Cancel(id) =>
      if id in s.t.jobs then WithJob(s, s.t.jobs[id], CancelJob(s.t.records[s.t.jobs[id]], s.now)) else s
    case Receive(w) =>
      var j := s.t.queue[0];
      WithPc(s.(t := s.t.(queue := s.t.queue[1..]), place := s.place[j := AtWorker(w)]), w, Got(j))
    case Start(w, pathOk) =>
      var j := JobAt(s, w);
      var job := s.t.records[j];
      var u := WithJob(s, j, StartJob(job, s.now));
      if job.state == Cancelled then WithPc(u.(place := u.place[j := Nowhere]), w, Idle)
      else if pathOk then WithPc(u, w, Working(j, Upto(|job.items|)))
      else WithPc(u, w, Finishing(j, Failed, "unsafe path segment"))
    case ItemRuns(w, k, bytes) =>
      var j := JobAt(s, w);
      WithJob(s, j, s.t.records[j].(items := s.t.records[j].items[k := Item(Fetching, bytes)]))
    case ItemEnds(w, k, stored, bytes) =>
      var j := JobAt(s, w);
      var item := if stored then Item(Stored, bytes) else Item(Missed, 0);
      WithPc(WithJob(s, j, s.t.records[j].(items := s.t.records[j].items[k := item])),
             w, Working(j, s.workers[w].pending - {k}))
    case Join(w) =>
      var j := JobAt(s, w);
      WithPc(s, w, if s.closing || s.t.records[j].signalled then Finishing(j, Cancelled, "") else Joined(j))
    case Settle(w) =>
      var j := JobAt(s, w);
      var job := s.t.records[j];
      var verdict := Verdict(job.items);
      WithPc(WithJob(s, j, job.(bytesTotal := Bytes(job.items))), w,
             Finishing(j, verdict, if verdict == Failed then "every item failed" else ""))
    case Finish(w) =>
      var j := JobAt(s, w);
      var pc := s.workers[w];
      WithPc(s.(t := JobQueue.Finish(s.t, j, pc.verdict, pc.failure, s.now), place := s.place[j := Nowhere]), w, Idle)
    case Close => s.(closing := true)
    case Stop(w) => WithPc(s, w, Stopped)
    case Tick(later) => s.(now := later)
  }

  ghost predicate Init(s: State)
  {
    && s.t.records == map[] && s.t.jobs == map[] && s.t.order == [] && s.t.queue == []
    && s.place == map[] && s.submits == map[] && !s.closing
    && forall w | w in s.workers :: s.workers[w] == Idle
  }

  // What holds between steps

  /** The map and the order list name the same jobs, each once, under its own id. */
  ghost predicate Indexed(t: Table<nat>)
  {
    && NoRepeats(t.order)
    && (forall id :: id in t.jobs <==> id in t.order)
    && (forall id | id in t.jobs :: t.jobs[id] in t.records && t.records[t.jobs[id]].id == id)
  }

  ghost predicate WorkersPlaced(workers: map<nat, Pc>, place: map<nat, Place>)
  {
    && (forall w | w in workers && JobOf(workers[w]).Some? ::
          JobOf(workers[w]).value in place && place[JobOf(workers[w]).value] == AtWorker(w))
    && (forall j | j in place && place[j].AtWorker? :: place[j].w in workers && JobOf(workers[place[j].w]) == Some(j))
  }

  ghost predicate SubmitsPlaced(submits: map<nat, Half>, place: map<nat, Place>)
  {
    && (forall p | p in submits :: submits[p].job in place && place[submits[p].job] == AtSubmit(p))
    && (forall j | j in place && place[j].AtSubmit? :: place[j].p in submits && submits[place[j].p].job == j)
  }

  /** `place` is exact: the queue, the workers and the submitters hold what it says, once. */
  ghost predicate Placed(s: State)
  {
    && s.place.Keys == s.t.records.Keys
    && QueuePlaced(s.t.queue, s.t.capacity, s.place)
    && WorkersPlaced(s.workers, s.place)
    && SubmitsPlaced(s.submits, s.place)
  }

  /** The transfer of this file is over, one way or the other. */
  predicate Over(item: Item)
  {
    item.state.Stored? || item.state.Missed?
  }

  /** What a finished job says about its items. */
  ghost predicate Settled(job: Job)
  {
    && (job.state == Done || job.state == Partial ==> forall i | 0 <= i < |job.items| :: Over(job.items[i]))
    && |job.items| > 0
    && (job.state == Done ==> CountStored(job.items) == |job.items|)
    && (job.state == Partial ==> 0 < CountStored(job.items) < |job.items|)
    && (job.state == Failed ==> CountStored(job.items) == 0)
    && (job.state.Done? || job.state.Partial? || job.state.Failed? ==> job.bytesTotal == Bytes(job.items))
  }

  /** A job's own fields, given where it is. */
  ghost predicate Sound(s: State, j: nat)
    requires j in s.t.records && j in s.place
  {
    var job := s.t.records[j];
    && (job.finished.Some? <==> Terminal(job.state))
    && Settled(job)
    && (job.state == Queued ==> job.started == None && CountStored(job.items) == 0 && job.bytesTotal == 0)
    && (job.state == Running ==> job.started.Some? && s.place[j].AtWorker?)
    && match s.place[j]
       case AtSubmit(_) => job.state.Queued? || job.state.Cancelled?
       case InQueue => job.state.Queued? || job.state.Cancelled?
       case AtWorker(w) => w in s.workers && WorkerSound(s.workers[w], job)
       case Nowhere => true
  }

  ghost predicate WorkerSound(pc: Pc, job: Job)
  {
    match pc
    case Got(_) => job.state.Queued? || job.state.Cancelled?
    case Working(_, pending) =>
      && (job.state.Running? || job.state.Cancelled?)
      && forall i | 0 <= i < |job.items| && i !in pending :: Over(job.items[i])
    case Joined(_) =>
      && (job.state.Running? || job.state.Cancelled?)
      && forall i | 0 <= i < |job.items| :: Over(job.items[i])
    case Finishing(_, verdict, _) =>
      && (job.state.Running? || job.state.Cancelled?)
      && Terminal(verdict)
      && Settled(job.(state := verdict))
    case _ => true
  }

  ghost predicate Inv(s: State)
  {
    && Indexed(s.t)
    && Placed(s)
    && forall j | j in s.t.records :: Sound(s, j)
  }
}
