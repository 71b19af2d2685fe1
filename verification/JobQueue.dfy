/** The downloader's job table: every section of `manager` that runs under its mutex, as a
    class over job objects and as a function on the table's value. */
module JobQueue {
  import opened Lists
  import opened Options

  datatype JobState = Queued | Running | Done | Partial | Failed | Cancelled

  predicate Terminal(state: JobState)
  {
    state.Done? || state.Partial? || state.Failed? || state.Cancelled?
  }

  datatype ItemState = Waiting | Fetching | Stored | Missed

  /** One file of a job; `bytes` is its progress, and its size once stored. */
  datatype Item = Item(state: ItemState, bytes: nat)

  /** `cancellable` is "the job holds a cancel function"; `signalled` is "it was called". */
  datatype Job = Job(
    id: string, state: JobState, items: seq<Item>, bytesTotal: nat, error: string,
    started: Option<int>, finished: Option<int>, cancellable: bool, signalled: bool)

  /** `records` gives the fields behind every job pointer `J` the table has seen. */
  datatype Table<J> = Table(
    records: map<J, Job>, jobs: map<string, J>, order: seq<string>, queue: seq<J>, capacity: nat, history: int)

  function NewJob(id: string, items: nat): Job
  {
    Job(id, Queued, seq(items, _ => Item(Waiting, 0)), 0, "", None, None, false, false)
  }

  predicate Live<J(==)>(t: Table<J>, id: string)
  {
    id in t.jobs && t.jobs[id] in t.records && !Terminal(t.records[t.jobs[id]].state)
  }

  /** Forgetting the oldest jobs while there are too many and the oldest is over. */
  function Evict<J(==)>(t: Table<J>): Table<J>
    decreases |t.order|
  {
    if t.history <= 0 || |t.order| <= t.history || Live(t, t.order[0]) then t
    else Evict(t.(jobs := t.jobs - {t.order[0]}, order := t.order[1..]))
  }

  function Add<J(==)>(t: Table<J>, j: J, job: Job): Table<J>
  {
    if job.id in t.jobs then t
    else Evict(t.(records := t.records[j := job], jobs := t.jobs[job.id := j], order := t.order + [job.id]))
  }

  /** The refused half of `submit`: by id, whatever that id now names. */
  function Withdraw<J(==)>(t: Table<J>, id: string): Table<J>
  {
    t.(jobs := t.jobs - {id}, order := DropFirst(t.order, id))
  }

  function CancelJob(job: Job, now: int): Job
  {
    if Terminal(job.state) then job
    else job.(state := Cancelled, finished := Some(now), signalled := job.signalled || job.cancellable)
  }

  function StartJob(job: Job, now: int): Job
  {
    if job.state == Cancelled then job
    else job.(state := Running, started := Some(now), cancellable := true, signalled := false)
  }

  function Bytes(items: seq<Item>): nat
  {
    if items == [] then 0
    else (if items[0].state.Stored? then items[0].bytes else 0) + Bytes(items[1..])
  }

  function CountStored(items: seq<Item>): nat
  {
    if items == [] then 0
    else (if items[0].state.Stored? then 1 else 0) + CountStored(items[1..])
  }

  /** What `settle` concludes from the items. */
  function Verdict(items: seq<Item>): JobState
  {
    if CountStored(items) == |items| then Done
    else if CountStored(items) == 0 then Failed
    else Partial
  }

  function FinishJob(job: Job, state: JobState, failure: string, now: int): Job
  {
    if job.state == Cancelled && state != Cancelled then job
    else job.(state := state, error := failure, finished := Some(now), cancellable := false)
  }

  function Finish<J(==)>(t: Table<J>, j: J, state: JobState, failure: string, now: int): Table<J>
    requires j in t.records
  {
    var job := t.records[j];
    if job.state == Cancelled && state != Cancelled then t
    else Evict(t.(records := t.records[j := FinishJob(job, state, failure, now)]))
  }

  // What the functions mean

  /** How many of the oldest ids eviction forgets. */
  function Evicted<J(==)>(t: Table<J>): (k: nat)
    ensures k <= |t.order|
    ensures k > 0 ==> t.history > 0 && |t.order| - k >= t.history
    decreases |t.order|
  {
    if t.history <= 0 || |t.order| <= t.history || Live(t, t.order[0]) then 0
    else 1 + Evicted(t.(jobs := t.jobs - {t.order[0]}, order := t.order[1..]))
  }

  /** Eviction forgets exactly an oldest-first prefix of ids, none of them in flight, and
      leaves every other id pointing where it did. */
  lemma {:induction false} EvictForgetsPrefix<J>(t: Table<J>)
    requires NoRepeats(t.order)
    ensures Evict(t) == t.(jobs := Evict(t).jobs, order := t.order[Evicted(t)..])
    ensures forall id :: id in Evict(t).jobs <==> id in t.jobs && id !in t.order[..Evicted(t)]
    ensures forall id | id in Evict(t).jobs :: Evict(t).jobs[id] == t.jobs[id]
    ensures forall i | 0 <= i < Evicted(t) :: !Live(t, t.order[i])
    ensures forall i | 0 <= i < Evicted(t) && t.order[i] in t.jobs && t.jobs[t.order[i]] in t.records ::
      !t.records[t.jobs[t.order[i]]].state.Queued? && !t.records[t.jobs[t.order[i]]].state.Running?
    decreases |t.order|
  {
    if !(t.history <= 0 || |t.order| <= t.history || Live(t, t.order[0])) {
      var rest := t.(jobs := t.jobs - {t.order[0]}, order := t.order[1..]);
      EvictForgetsPrefix(rest);
      var m := Evicted(rest);
      assert t.order[..m + 1] == [t.order[0]] + rest.order[..m];
      forall i | 0 < i < m + 1 ensures !Live(t, t.order[i]) {
        assert rest.order[i - 1] == t.order[i] && !Live(rest, rest.order[i - 1]);
        assert t.order[i] != t.order[0];
      }
    }
  }

  /** It stops as soon as the table is within its history, or at a job still in flight. */
  lemma {:induction false} EvictStopsAtLive<J>(t: Table<J>)
    ensures var after := Evict(t);
      t.history <= 0 || |after.order| <= t.history || Live(after, after.order[0])
    decreases |t.order|
  {
    if !(t.history <= 0 || |t.order| <= t.history || Live(t, t.order[0])) {
      EvictStopsAtLive(t.(jobs := t.jobs - {t.order[0]}, order := t.order[1..]));
    }
  }

  lemma {:induction false} CountStoredMeans(items: seq<Item>)
    ensures 0 <= CountStored(items) <= |items|
    ensures CountStored(items) == |items| <==> forall i | 0 <= i < |items| :: items[i].state.Stored?
    ensures CountStored(items) == 0 <==> forall i | 0 <= i < |items| :: !items[i].state.Stored?
    ensures CountStored(items) == 0 ==> Bytes(items) == 0
  {
    if items != [] {
      CountStoredMeans(items[1..]);
      assert forall i | 0 < i < |items| :: items[i] == items[1..][i - 1];
    }
  }

  /** The verdict read off the items: done is every one stored, failed is none of at least one,
      partial is some and not all. */
  lemma VerdictMeans(items: seq<Item>)
    ensures Verdict(items).Done? <==> forall i | 0 <= i < |items| :: items[i].state.Stored?
    ensures Verdict(items).Failed? <==> items != [] && forall i | 0 <= i < |items| :: !items[i].state.Stored?
    ensures Verdict(items).Partial? <==>
      (exists i | 0 <= i < |items| :: items[i].state.Stored?)
      && (exists i | 0 <= i < |items| :: !items[i].state.Stored?)
  {
    CountStoredMeans(items);
  }

  /** What a stored file counts for: its size, whatever was recorded at its index before; and a
      file that is not stored counts for nothing. */
  lemma {:induction false} BytesAreTheStored(items: seq<Item>, k: nat, item: Item)
    requires k < |items|
    ensures Bytes(items[k := item]) - (if item.state.Stored? then item.bytes else 0)
      == Bytes(items) - (if items[k].state.Stored? then items[k].bytes else 0)
  {
    var changed := items[k := item];
    if k == 0 {
      assert changed[1..] == items[1..];
    } else {
      assert changed[1..] == items[1..][k - 1 := item];
      BytesAreTheStored(items[1..], k - 1, item);
    }
  }

  // The table in place

  class JobObject {
    const id: string
    var state: JobState
    var items: seq<Item>
    var bytesTotal: nat
    var error: string
    var started: Option<int>
    var finished: Option<int>
    var cancellable: bool
    var signalled: bool

    constructor (id: string, items: nat)
      ensures Record() == NewJob(id, items)
      ensures state == Queued && |this.items| == items && started == None && finished == None
      ensures forall k | 0 <= k < items :: this.items[k] == Item(Waiting, 0)
    {
      this.id, state, bytesTotal, error := id, Queued, 0, "";
      this.items := seq(items, _ => Item(Waiting, 0));
      started, finished, cancellable, signalled := None, None, false, false;
    }

    function Record(): Job
      reads this
    {
      Job(id, state, items, bytesTotal, error, started, finished, cancellable, signalled)
    }
  }

  class Manager {
    var jobs: map<string, JobObject>
    var order: seq<string>
    var queue: seq<JobObject>
    const capacity: nat
    const history: int
    ghost var known: set<JobObject>

    constructor (queueSize: nat, history: int)
      ensures Valid() && View() == Table(map[], map[], [], [], queueSize, history)
    {
      jobs, order, queue, known := map[], [], [], {};
      capacity, this.history := queueSize, history;
    }

    ghost predicate Valid()
      reads this
    {
      jobs.Values <= known && forall j | j in queue :: j in known
    }

    ghost function Records(): map<JobObject, Job>
      reads this`known, known
    {
      map j | j in known :: j.Record()
    }

    ghost function View(): Table<JobObject>
      reads this, known
    {
      Table(Records(), jobs, order, queue, capacity, history)
    }

    method EvictLocked()
      requires Valid()
      modifies this`jobs, this`order
      ensures Valid() && View() == Evict(old(View()))
    {
      if history <= 0 {
        return;
      }
      ghost var start := View();
      while |order| > history
        invariant Valid() && Records() == start.records
        invariant Evict(start.(jobs := jobs, order := order)) == Evict(start)
      {
        var oldest := order[0];
        if oldest in jobs {
          assert jobs[oldest] in jobs.Values;
          assert start.records[jobs[oldest]] == jobs[oldest].Record();
          if !Terminal(jobs[oldest].state) {
            assert Live(start.(jobs := jobs, order := order), oldest);
            break;
          }
        }
        assert !Live(start.(jobs := jobs, order := order), oldest);
        jobs := jobs - {oldest};
        order := order[1..];
      }
    }

    /** The first half of `submit`; `isNew` is false for a repeated id. */
    method Register(candidate: JobObject) returns (isNew: bool)
      requires Valid() && candidate !in known
      modifies this`jobs, this`order, this`known
      ensures Valid()
      ensures isNew == (candidate.id !in old(jobs))
      ensures View() == Add(old(View()), candidate, candidate.Record())
    {
      if candidate.id in jobs {
        return false;
      }
      known := known + {candidate};
      jobs := jobs[candidate.id := candidate];
      order := order + [candidate.id];
      assert View() == old(View()).(
        records := old(View()).records[candidate := candidate.Record()],
        jobs := old(jobs)[candidate.id := candidate], order := old(order) + [candidate.id]);
      EvictLocked();
      return true;
    }

    /** The send between the halves of `submit`: it happens at once or not at all. */
    method TrySend(candidate: JobObject) returns (sent: bool)
      requires Valid() && candidate in known
      modifies this`queue
      ensures Valid() && sent == (|old(queue)| < capacity)
      ensures View() == if sent then old(View()).(queue := old(queue) + [candidate]) else old(View())
    {
      sent := |queue| < capacity;
      if sent {
        queue := queue + [candidate];
      }
    }

    method DropOrderLocked(id: string)
      requires Valid()
      modifies this`order
      ensures Valid() && order == DropFirst(old(order), id)
    {
      var index := 0;
      while index < |order|
        invariant 0 <= index <= |order| && order == old(order) && id !in order[..index]
      {
        DropFirstFrom(order, id, index);
        if order[index] == id {
          assert order[index..][1..] == order[index + 1..];
          order := order[..index] + order[index + 1..];
          return;
        }
        index := index + 1;
      }
      DropFirstFrom(order, id, index);
    }

    method Refuse(candidate: JobObject)
      requires Valid()
      modifies this`jobs, this`order
      ensures Valid() && View() == Withdraw(old(View()), candidate.id)
    {
      jobs := jobs - {candidate.id};
      DropOrderLocked(candidate.id);
    }

    method Cancel(id: string, now: int) returns (found: bool)
      requires Valid()
      modifies if id in jobs then {jobs[id]} else {}
      ensures Valid() && found == (id in jobs)
      ensures View() == old(View()).(records :=
        if id in jobs then old(View()).records[jobs[id] := CancelJob(old(View()).records[jobs[id]], now)]
        else old(View()).records)
      ensures found && (old(jobs[id].state).Queued? || old(jobs[id].state).Running?) ==>
        && jobs[id].state == Cancelled && jobs[id].finished == Some(now)
        && (jobs[id].signalled <==> old(jobs[id].signalled) || old(jobs[id].cancellable))
        && jobs[id].items == old(jobs[id].items) && jobs[id].bytesTotal == old(jobs[id].bytesTotal)
        && jobs[id].error == old(jobs[id].error) && jobs[id].started == old(jobs[id].started)
        && jobs[id].cancellable == old(jobs[id].cancellable)
      ensures found && !old(jobs[id].state).Queued? && !old(jobs[id].state).Running? ==>
        jobs[id].Record() == old(jobs[id].Record())
    {
      if id !in jobs {
        return false;
      }
      var job := jobs[id];
      assert job in jobs.Values;
      if Terminal(job.state) {
        return true;
      }
      job.state := Cancelled;
      job.finished := Some(now);
      if job.cancellable {
        job.signalled := true;
      }
      return true;
    }

    /** A worker's first section of `run`; `skip` when the job was cancelled while queued. */
    method Start(job: JobObject, now: int) returns (skip: bool)
      requires Valid() && job in known
      modifies job
      ensures Valid() && skip == (old(job.state) == Cancelled)
      ensures View() == old(View()).(records :=
        old(View()).records[job := StartJob(old(View()).records[job], now)])
      ensures skip ==> job.Record() == old(job.Record())
      ensures !skip ==>
        && job.state == Running && job.started == Some(now) && job.cancellable && !job.signalled
        && job.items == old(job.items) && job.error == old(job.error)
        && job.bytesTotal == old(job.bytesTotal) && job.finished == old(job.finished)
    {
      if job.state == Cancelled {
        return true;
      }
      job.state := Running;
      job.started := Some(now);
      job.cancellable := true;
      job.signalled := false;
      return false;
    }

    method RecordItem(job: JobObject, index: nat, item: Item)
      requires Valid() && job in known && index < |job.items|
      modifies job`items
      ensures Valid()
      ensures View() == old(View()).(records := old(View()).records[job :=
        old(View()).records[job].(items := old(View()).records[job].items[index := item])])
    {
      job.items := job.items[index := item];
    }

    /** The counting section of `settle`. */
    method Count(job: JobObject) returns (verdict: JobState)
      requires Valid() && job in known
      modifies job`bytesTotal
      ensures Valid() && verdict == Verdict(job.items)
      ensures View() == old(View()).(records := old(View()).records[job :=
        old(View()).records[job].(bytesTotal := Bytes(job.items))])
    {
      var done, failed, total, i := 0, 0, 0, 0;
      while i < |job.items|
        invariant 0 <= i <= |job.items|
        invariant done + failed == i
        invariant done + CountStored(job.items[i..]) == CountStored(job.items)
        invariant total + Bytes(job.items[i..]) == Bytes(job.items)
      {
        assert job.items[i..][1..] == job.items[i + 1..];
        if job.items[i].state.Stored? {
          done := done + 1;
          total := total + job.items[i].bytes;
        } else {
          failed := failed + 1;
        }
        i := i + 1;
      }
      job.bytesTotal := total;
      verdict := if failed == 0 then Done else if done == 0 then Failed else Partial;
    }

    method FinishJobObject(job: JobObject, state: JobState, failure: string, now: int)
      requires Valid() && job in known
      modifies this`jobs, this`order, job
      ensures Valid() && View() == Finish(old(View()), job, state, failure, now)
      ensures old(job.state) == Cancelled && state != Cancelled ==> job.Record() == old(job.Record())
      ensures old(job.state) != Cancelled || state == Cancelled ==>
        && job.state == state && job.error == failure && job.finished == Some(now) && !job.cancellable
        && job.items == old(job.items) && job.bytesTotal == old(job.bytesTotal)
        && job.started == old(job.started) && job.signalled == old(job.signalled)
    {
      if job.state == Cancelled && state != Cancelled {
        return;
      }
      job.state := state;
      job.error := failure;
      job.finished := Some(now);
      job.cancellable := false;
      assert job.Record() == FinishJob(old(job.Record()), state, failure, now);
      assert Records() == old(Records())[job := job.Record()];
      EvictLocked();
    }
  }
}
