/** The transcriber's job table between two awaits: a dictionary of jobs, a least-recently
    finished index of the ones that are over, and a bounded queue. */
module Transcriber {
  import opened Lists
  import opened Options

  datatype JobState = Queued | Running | Done | Failed | Cancelled

  predicate Over(state: JobState)
  {
    state.Done? || state.Failed? || state.Cancelled?
  }

  datatype Job = Job(id: string, state: JobState, text: string, partial: string, revision: nat, error: string)

  /** `records` gives the fields behind every job object `J` the table has seen. */
  datatype Table<J> = Table(
    records: map<J, Job>, jobs: map<string, J>, ended: seq<string>, queue: seq<J>, history: nat, queueSize: nat)

  function NewJob(id: string): Job
  {
    Job(id, Queued, "", "", 0, "")
  }

  function Forget<J(==)>(t: Table<J>, id: string): Table<J>
  {
    t.(jobs := t.jobs - {id}, ended := DropFirst(t.ended, id))
  }

  /** `forget_job` with an expected job: an id that was reused keeps its new job. */
  function ForgetIfSame<J(==)>(t: Table<J>, id: string, j: J): Table<J>
  {
    if id in t.jobs && t.jobs[id] == j then Forget(t, id) else t
  }

  /** Dropping the jobs that ended longest ago until the index fits. */
  function Expire<J(==)>(t: Table<J>): Table<J>
    decreases |t.ended|
  {
    if |t.ended| <= t.history then t
    else Expire(t.(jobs := t.jobs - {t.ended[0]}, ended := t.ended[1..]))
  }

  function Remember<J(==)>(t: Table<J>, id: string, j: J, job: Job): Table<J>
  {
    Expire(t.(records := t.records[j := job.(partial := "")], ended := DropFirst(t.ended, id) + [id]))
  }

  datatype Submission = Existing | Accepted | QueueFull

  function Submit<J(==)>(t: Table<J>, j: J, job: Job): (Table<J>, Submission)
  {
    if job.id in t.jobs then (t, Existing)
    else if |t.queue| >= t.queueSize then (t, QueueFull)
    else (t.(records := t.records[j := job], jobs := t.jobs[job.id := j], queue := t.queue + [j]), Accepted)
  }

  function WasCancelled(job: Job): Job
  {
    job.(state := Cancelled, revision := job.revision + 1)
  }

  /** `DELETE`: a cancellation while the job is queued or running, an acknowledgement after. */
  function Delete<J(==)>(t: Table<J>, id: string): Table<J>
  {
    if id !in t.jobs || t.jobs[id] !in t.records then t
    else
      var j := t.jobs[id];
      var job := t.records[j];
      if Over(job.state) then Forget(t, id)
      else Remember(t, id, j, WasCancelled(job))
  }

  /** A worker taking a job off the queue. */
  function Take<J(==)>(t: Table<J>, j: J): Table<J>
    requires j in t.records
  {
    var job := t.records[j];
    if job.state == Cancelled then ForgetIfSame(t, job.id, j)
    else t.(records := t.records[j := job.(state := Running)])
  }

  /** A recognised segment reported while the job runs. */
  function Hear(job: Job, text: string): Job
  {
    if job.state == Cancelled || text == "" then job
    else job.(partial := job.partial + text, revision := job.revision + 1)
  }

  function Finished(job: Job, ok: bool, text: string): Job
  {
    if ok then job.(state := Done, text := text, revision := job.revision + 1)
    else job.(state := Failed, error := text, revision := job.revision + 1)
  }

  /** The transcript, or the error, coming back from the worker's thread. */
  function Complete<J(==)>(t: Table<J>, j: J, ok: bool, text: string): Table<J>
    requires j in t.records
  {
    var job := t.records[j];
    if job.state == Cancelled then t else Remember(t, job.id, j, Finished(job, ok, text))
  }

  /** The worker's last section, after its heartbeat has stopped. */
  function Close<J(==)>(t: Table<J>, j: J): Table<J>
    requires j in t.records
  {
    if t.records[j].state == Cancelled then ForgetIfSame(t, t.records[j].id, j) else t
  }

  /** Remembering overwrites the job it is about, so its earlier fields do not matter. */
  lemma {:induction false} RememberOverwrites<J>(t: Table<J>, id: string, j: J, was: Job, job: Job)
    ensures Remember(t.(records := t.records[j := was]), id, j, job) == Remember(t, id, j, job)
  {
    assert t.records[j := was][j := job.(partial := "")] == t.records[j := job.(partial := "")];
  }

  // The table in place

  class JobObject {
    const id: string
    var state: JobState
    var text: string
    var partial: string
    var revision: nat
    var error: string

    constructor (id: string)
      ensures Record() == NewJob(id)
    {
      this.id, state, text, partial, revision, error := id, Queued, "", "", 0, "";
    }

    function Record(): Job
      reads this
    {
      Job(id, state, text, partial, revision, error)
    }

    /** `record_segment`; false is the exception that stops a cancelled job's backend. */
    method RecordSegment(segment: string) returns (goOn: bool)
      modifies this`partial, this`revision
      ensures Record() == Hear(old(Record()), segment)
      ensures goOn == (state != Cancelled)
      ensures goOn ==> partial == old(partial) + segment && (revision > old(revision) <==> segment != "")
      ensures !goOn ==> partial == old(partial) && revision == old(revision)
    {
      if state == Cancelled {
        return false;
      }
      if segment != "" {
        partial := partial + segment;
        revision := revision + 1;
      }
      return true;
    }

    method SetResult(ok: bool, result: string)
      modifies this
      ensures Record() == Finished(old(Record()), ok, result)
      ensures revision == old(revision) + 1 && partial == old(partial)
      ensures ok ==> state == Done && text == result && error == old(error)
      ensures !ok ==> state == Failed && error == result && text == old(text)
    {
      if ok {
        text := result;
        state := Done;
      } else {
        state := Failed;
        error := result;
      }
      revision := revision + 1;
    }
  }

  class JobTable {
    var jobs: map<string, JobObject>
    var ended: seq<string>
    var queue: seq<JobObject>
    const history: nat
    const queueSize: nat
    ghost var known: set<JobObject>

    constructor (history: nat, queueSize: nat)
      ensures Valid() && View() == Table(map[], map[], [], [], history, queueSize)
    {
      jobs, ended, queue, known := map[], [], [], {};
      this.history, this.queueSize := history, queueSize;
    }

    ghost predicate Valid()
      reads this
    {
      jobs.Values <= known && forall j | j in queue :: j in known
    }

    ghost function Records(): map<JobObject, Job>
      reads this`known, known
    {
      map j | j in known :: j.Record()
    }

    ghost function View(): Table<JobObject>
      reads this, known
    {
      Table(Records(), jobs, ended, queue, history, queueSize)
    }

    method RemoveEnded(id: string)
      requires Valid()
      modifies this`ended
      ensures Valid() && ended == DropFirst(old(ended), id)
    {
      var i := 0;
      while i < |ended| && ended[i] != id
        invariant 0 <= i <= |ended| && id !in ended[..i]
      {
        i := i + 1;
      }
      DropFirstFrom(ended, id, i);
      if i < |ended| {
        assert ended[i..][1..] == ended[i + 1..];
        ended := ended[..i] + ended[i + 1..];
      }
    }

    method ForgetJob(id: string, expected: Option<JobObject>)
      requires Valid()
      modifies this`jobs, this`ended
      ensures Valid()
      ensures View() ==
        if expected.Some? then ForgetIfSame(old(View()), id, expected.value) else Forget(old(View()), id)
    {
      if expected.Some? && (id !in jobs || jobs[id] != expected.value) {
        return;
      }
      jobs := jobs - {id};
      RemoveEnded(id);
    }

    method RememberTerminal(id: string, job: JobObject)
      requires Valid() && job in known
      modifies this`jobs, this`ended, job`partial
      ensures Valid() && View() == Remember(old(View()), id, job, old(job.Record()))
      ensures job.partial == ""
    {
      job.partial := "";
      RemoveEnded(id);
      ended := ended + [id];
      assert Records() == old(Records())[job := old(job.Record()).(partial := "")];
      ExpireOldest();
    }

    /** The loop that forgets what ended longest ago. */
    method ExpireOldest()
      requires Valid()
      modifies this`jobs, this`ended
      ensures Valid() && View() == Expire(old(View()))
    {
      while |ended| > history
        invariant Valid() && Records() == old(Records())
        invariant Expire(old(View()).(jobs := jobs, ended := ended)) == Expire(old(View()))
      {
        var expired := ended[0];
        ended := ended[1..];
        jobs := jobs - {expired};
      }
    }

    method SubmitJob(candidate: JobObject) returns (answer: Submission)
      requires Valid() && candidate !in known
      modifies this`jobs, this`queue, this`known
      ensures Valid() && (View(), answer) == Submit(old(View()), candidate, candidate.Record())
      ensures answer == Existing <==> candidate.id in old(jobs)
      ensures answer == QueueFull <==> candidate.id !in old(jobs) && |old(queue)| >= queueSize
      ensures answer != Accepted ==> jobs == old(jobs) && queue == old(queue)
      ensures answer == Accepted ==>
        jobs == old(jobs)[candidate.id := candidate] && queue == old(queue) + [candidate]
    {
      if candidate.id in jobs {
        return Existing;
      }
      var before := jobs;
      jobs := jobs[candidate.id := candidate];
      if |queue| >= queueSize {
        jobs := jobs - {candidate.id};
        assert jobs == before;
        return QueueFull;
      }
      known := known + {candidate};
      queue := queue + [candidate];
      assert View().records == old(View()).records[candidate := candidate.Record()];
      return Accepted;
    }

    /** The cancelling half of `DELETE`. */
    method CancelLive(id: string, job: JobObject)
      requires Valid() && job in known
      modifies this`jobs, this`ended, job`state, job`revision, job`partial
      ensures Valid() && View() == Remember(old(View()), id, job, WasCancelled(old(job.Record())))
      ensures job.state == Cancelled && job.revision == old(job.revision) + 1 && job.partial == ""
    {
      job.state := Cancelled;
      job.revision := job.revision + 1;
      assert job.Record() == WasCancelled(old(job.Record()));
      assert View() == old(View()).(records := old(View()).records[job := job.Record()]);
      RememberOverwrites(old(View()), id, job, job.Record(), job.Record());
      RememberTerminal(id, job);
    }

    method DeleteJob(id: string) returns (found: bool)
      requires Valid()
      modifies this`jobs, this`ended, if id in jobs then {jobs[id]} else {}
      ensures Valid() && found == (id in old(jobs)) && View() == Delete(old(View()), id)
      ensures found && (old(jobs[id].state).Queued? || old(jobs[id].state).Running?) ==>
        var job := old(jobs[id]);
        && job.state == Cancelled && job.revision == old(jobs[id].revision) + 1 && job.partial == ""
        && job.text == old(jobs[id].text) && job.error == old(jobs[id].error)
      ensures found && !old(jobs[id].state).Queued? && !old(jobs[id].state).Running? ==>
        jobs == old(jobs) - {id} && old(jobs[id]).Record() == old(jobs[id].Record())
      ensures !found ==> jobs == old(jobs) && ended == old(ended)
    {
      if id !in jobs {
        return false;
      }
      var job := jobs[id];
      assert job in jobs.Values;
      if job.state == Queued || job.state == Running {
        CancelLive(id, job);
        return true;
      }
      ForgetJob(id, None);
      return true;
    }

    method TakeJob() returns (job: JobObject, skipped: bool)
      requires Valid() && queue != []
      modifies this`jobs, this`ended, this`queue, {queue[0]}
      ensures Valid() && job == old(queue[0]) && skipped == (old(job.state) == Cancelled)
      ensures View() == Take(old(View()).(queue := old(queue)[1..]), job)
      ensures !skipped ==> job.Record() == old(queue[0].Record()).(state := Running) && jobs == old(jobs)
      ensures skipped ==> job.Record() == old(queue[0].Record())
      ensures skipped && job.id in old(jobs) && old(jobs)[job.id] == job ==> jobs == old(jobs) - {job.id}
      ensures skipped && !(job.id in old(jobs) && old(jobs)[job.id] == job) ==> jobs == old(jobs)
    {
      job := queue[0];
      assert job in queue;
      queue := queue[1..];
      if job.state == Cancelled {
        ForgetJob(job.id, Some(job));
        return job, true;
      }
      job.state := Running;
      return job, false;
    }

    method CompleteJob(job: JobObject, ok: bool, text: string)
      requires Valid() && job in known
      modifies this`jobs, this`ended, job
      ensures Valid() && View() == Complete(old(View()), job, ok, text)
      ensures old(job.state) == Cancelled ==> job.Record() == old(job.Record()) && jobs == old(jobs)
      ensures old(job.state) != Cancelled ==> job.revision == old(job.revision) + 1 && job.partial == ""
      ensures old(job.state) != Cancelled && ok ==>
        job.state == Done && job.text == text && job.error == old(job.error)
      ensures old(job.state) != Cancelled && !ok ==>
        job.state == Failed && job.error == text && job.text == old(job.text)
    {
      if job.state == Cancelled {
        return;
      }
      FinishLive(job, ok, text);
    }

    method FinishLive(job: JobObject, ok: bool, text: string)
      requires Valid() && job in known
      modifies this`jobs, this`ended, job
      ensures Valid() && View() == Remember(old(View()), job.id, job, Finished(old(job.Record()), ok, text))
      ensures job.revision == old(job.revision) + 1 && job.partial == ""
      ensures ok ==> job.state == Done && job.text == text && job.error == old(job.error)
      ensures !ok ==> job.state == Failed && job.error == text && job.text == old(job.text)
    {
      job.SetResult(ok, text);
      assert View() == old(View()).(records := old(View()).records[job := job.Record()]);
      RememberOverwrites(old(View()), job.id, job, job.Record(), job.Record());
      RememberTerminal(job.id, job);
    }

    method CloseJob(job: JobObject)
      requires Valid() && job in known
      modifies this`jobs, this`ended
      ensures Valid() && View() == Close(old(View()), job)
      ensures jobs ==
        if job.state == Cancelled && job.id in old(jobs) && old(jobs)[job.id] == job then old(jobs) - {job.id}
        else old(jobs)
    {
      if job.state == Cancelled {
        ForgetJob(job.id, Some(job));
      }
    }
  }
}
