/** Every interleaving of submitters, workers and `DELETE` callers around the transcriber's
    table. One step is what runs between two awaits, or one segment the backend's
    thread reports; process shutdown is not a step. */
module TranscriberSystem {
  import opened Lists
  import opened Options
  import opened Hands
  import opened Transcriber

  datatype Pc = Idle | Transcribing(job: nat) | Closing(job: nat)

  datatype State = State(t: Table<nat>, place: map<nat, Place>, workers: map<nat, Pc>)

  datatype Step =
    | SubmitJob(job: nat, id: string)
    | DeleteJob(id: string)
    | TakeJob(w: nat)
    | RecordSegment(w: nat, text: string)
    | CompleteJob(w: nat, ok: bool, text: string)
    | CloseJob(w: nat)

  function JobOf(pc: Pc): Option<nat>
  {
    match pc
    case Idle => None
    case Transcribing(j) => Some(j)
    case Closing(j) => Some(j)
  }

  ghost predicate Enabled(s: State, step: Step)
  {
    match step
    case SubmitJob(j, _) => j !in s.t.records
    case DeleteJob(_) => true
    case TakeJob(w) => w in s.workers && s.workers[w].Idle? && s.t.queue != [] && s.t.queue[0] in s.t.records
    case RecordSegment(w, _) => w in s.workers && s.workers[w].Transcribing? && s.workers[w].job in s.t.records
    case CompleteJob(w, _, _) => w in s.workers && s.workers[w].Transcribing? && s.workers[w].job in s.t.records
    case CloseJob(w) => w in s.workers && s.workers[w].Closing? && s.workers[w].job in s.t.records
  }

  function Apply(s: State, step: Step): State
    requires Enabled(s, step)
  {
    match step
    case SubmitJob(j, id) =>
      var (t, answer) := Submit(s.t, j, NewJob(id));
      s.(t := t, place := if answer == Accepted then s.place[j := InQueue] else s.place)
    case DeleteJob(id) => s.(t := Delete(s.t, id))
    case TakeJob(w) =>
      var j := s.t.queue[0];
      var t := Take(s.t.(queue := s.t.queue[1..]), j);
      if s.t.records[j].state == Cancelled then s.(t := t, place := s.place[j := Nowhere])
      else State(t, s.place[j := AtWorker(w)], s.workers[w := Transcribing(j)])
    case RecordSegment(w, text) =>
      var j := s.workers[w].job;
      s.(t := s.t.(records := s.t.records[j := Hear(s.t.records[j], text)]))
    case CompleteJob(w, ok, text) =>
      var j := s.workers[w].job;
      s.(t := Complete(s.t, j, ok, text), workers := s.workers[w := Closing(j)])
    case CloseJob(w) =>
      var j := s.workers[w].job;
      State(Close(s.t, j), s.place[j := Nowhere], s.workers[w := Idle])
  }

  ghost predicate Init(s: State)
  {
    && s.t.records == map[] && s.t.jobs == map[] && s.t.ended == [] && s.t.queue == []
    && s.place == map[] && s.t.history >= 1
    && forall w | w in s.workers :: s.workers[w] == Idle
  }

  // What holds between steps

  /** The index names exactly the jobs that are over, each once. */
  ghost predicate Indexed(t: Table<nat>)
  {
    && (forall id | id in t.jobs :: t.jobs[id] in t.records && t.records[t.jobs[id]].id == id)
    && NoRepeats(t.ended)
    && (forall id :: id in t.ended <==> id in t.jobs && Over(t.records[t.jobs[id]].state))
  }

  /** A job that is not over is the one its id finds. */
  ghost predicate LiveFound(t: Table<nat>)
  {
    forall j | j in t.records && !Over(t.records[j].state) ::
      t.records[j].id in t.jobs && t.jobs[t.records[j].id] == j
  }

  ghost predicate WorkersPlaced(workers: map<nat, Pc>, place: map<nat, Place>)
  {
    && (forall w | w in workers && JobOf(workers[w]).Some? ::
          JobOf(workers[w]).value in place && place[JobOf(workers[w]).value] == AtWorker(w))
    && (forall j | j in place && place[j].AtWorker? :: place[j].w in workers && JobOf(workers[place[j].w]) == Some(j))
  }

  ghost predicate Placed(s: State)
  {
    && s.place.Keys == s.t.records.Keys
    && QueuePlaced(s.t.queue, s.t.queueSize, s.place)
    && WorkersPlaced(s.workers, s.place)
    && forall j | j in s.place :: !s.place[j].AtSubmit?
  }

  ghost predicate Sound(s: State, j: nat)
    requires j in s.t.records && j in s.place
  {
    var state := s.t.records[j].state;
    match s.place[j]
    case AtSubmit(_) => true
    case InQueue => state.Queued? || state.Cancelled?
    case AtWorker(w) =>
      && w in s.workers
      && (s.workers[w].Transcribing? ==> state.Running? || state.Cancelled?)
      && (s.workers[w].Closing? ==> Over(state))
    case Nowhere => Over(state)
  }

  ghost predicate Inv(s: State)
  {
    && Indexed(s.t) && |s.t.ended| <= s.t.history && s.t.history >= 1
    && LiveFound(s.t)
    && Placed(s)
    && forall j | j in s.t.records :: Sound(s, j)
  }
}
