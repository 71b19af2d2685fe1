/** Retention over every run of the transcriber: what is kept, what is bounded, what is never
    forgotten. */
module TranscriberTheorems {
  import opened Lists
  import opened Options
  import opened Transcriber
  import opened TranscriberSystem
  import opened TranscriberProofs

  ghost predicate Legal(s: State, steps: seq<Step>)
    decreases |steps|
  {
    steps == [] || (Enabled(s, steps[0]) && Legal(Apply(s, steps[0]), steps[1..]))
  }

  function After(s: State, steps: seq<Step>): State
    requires Legal(s, steps)
    decreases |steps|
  {
    if steps == [] then s else After(Apply(s, steps[0]), steps[1..])
  }

  lemma {:induction false} RunKeepsInv(s: State, steps: seq<Step>)
    requires Inv(s) && Legal(s, steps)
    ensures Inv(After(s, steps))
    ensures After(s, steps).workers.Keys == s.workers.Keys
    ensures After(s, steps).t.history == s.t.history && After(s, steps).t.queueSize == s.t.queueSize
    decreases |steps|
  {
    if steps != [] {
      StepKeepsInv(s, steps[0]);
      StepRecords(s, steps[0]);
      RunKeepsInv(Apply(s, steps[0]), steps[1..]);
    }
  }

  lemma InitHolds(s: State)
    requires Init(s)
    ensures Inv(s)
  {
  }

  /** At every await point the index is exactly the ids whose job is over, within its bound. */
  lemma IndexIsExact(s: State, steps: seq<Step>)
    requires Init(s) && Legal(s, steps)
    ensures var t := After(s, steps).t;
      && (forall id :: id in t.ended <==>
            && id in t.jobs && t.jobs[id] in t.records
            && !t.records[t.jobs[id]].state.Queued? && !t.records[t.jobs[id]].state.Running?)
      && (forall i, j | 0 <= i < j < |t.ended| :: t.ended[i] != t.ended[j])
      && |t.ended| <= s.t.history
  {
    InitHolds(s);
    RunKeepsInv(s, steps);
  }

  /** A job that is queued or running is always the one its id finds, whatever was cancelled,
      acknowledged or submitted again under that id before; and some hand still has it. */
  lemma LiveJobsAreNeverForgotten(s: State, steps: seq<Step>, j: nat)
    requires Init(s) && Legal(s, steps)
    requires j in After(s, steps).t.records
    requires After(s, steps).t.records[j].state.Queued? || After(s, steps).t.records[j].state.Running?
    ensures var u := After(s, steps);
      && u.t.records[j].id in u.t.jobs && u.t.jobs[u.t.records[j].id] == j
      && (u.t.records[j].state.Queued? ==> j in u.t.queue)
      && (u.t.records[j].state.Running? ==> exists w | w in u.workers :: u.workers[w] == Transcribing(j))
  {
    InitHolds(s);
    RunKeepsInv(s, steps);
    var u := After(s, steps);
    assert Sound(u, j);
    if u.t.records[j].state.Running? {
      assert u.workers[u.place[j].w] == Transcribing(j);
    }
  }

  /** Cancelled, done or failed is for good. */
  lemma {:induction false} OverIsForever(s: State, steps: seq<Step>, j: nat)
    requires Inv(s) && Legal(s, steps) && j in s.t.records && Over(s.t.records[j].state)
    ensures j in After(s, steps).t.records
    ensures After(s, steps).t.records[j].state == s.t.records[j].state
    decreases |steps|
  {
    if steps != [] {
      StepRecords(s, steps[0]);
      StepKeepsSound(s, steps[0], j);
      StepKeepsInv(s, steps[0]);
      OverIsForever(Apply(s, steps[0]), steps[1..], j);
    }
  }

  // The size of the table

  lemma {:induction false} AtMostAsMany<X>(q: seq<X>)
    ensures |Elements(q)| <= |q|
  {
    if q == [] {
      assert Elements(q) == {};
    } else {
      AtMostAsMany(q[1..]);
      assert q == [q[0]] + q[1..];
      assert Elements(q) == {q[0]} + Elements(q[1..]);
    }
  }

  lemma {:induction false} AtMostOneEach(workers: map<nat, Pc>, held: set<nat>)
    requires forall j | j in held :: exists w | w in workers :: JobOf(workers[w]) == Some(j)
    ensures |held| <= |workers|
    decreases |workers|
  {
    if held != {} {
      var j :| j in held;
      var w :| w in workers && JobOf(workers[w]) == Some(j);
      var rest := workers - {w};
      forall k | k in held - {j} ensures exists v | v in rest :: JobOf(rest[v]) == Some(k) {
        var v :| v in workers && JobOf(workers[v]) == Some(k);
        assert v in rest;
      }
      AtMostOneEach(rest, held - {j});
      assert workers.Keys == rest.Keys + {w};
      assert |workers| == |workers.Keys| && |rest| == |rest.Keys|;
    }
  }

  /** As many ids as distinct jobs they name. */
  lemma {:induction false} NamesAreDistinct(t: Table<nat>, ids: set<string>, named: set<nat>)
    requires Indexed(t)
    requires forall id | id in ids :: id in t.jobs && t.jobs[id] in named
    ensures |ids| <= |named|
    decreases |ids|
  {
    if ids != {} {
      var id :| id in ids;
      forall x | x in ids - {id} ensures t.jobs[x] in named - {t.jobs[id]} {
        assert t.records[t.jobs[x]].id == x && t.records[t.jobs[id]].id == id;
      }
      NamesAreDistinct(t, ids - {id}, named - {t.jobs[id]});
    }
  }

  /** The jobs a worker has. */
  function Held(u: State): set<nat>
  {
    set j | j in u.place && u.place[j].AtWorker?
  }

  lemma HeldByWorkers(u: State)
    requires Placed(u)
    ensures |Held(u)| <= |u.workers|
  {
    forall j | j in Held(u) ensures exists w | w in u.workers :: JobOf(u.workers[w]) == Some(j) {
      assert JobOf(u.workers[u.place[j].w]) == Some(j);
    }
    AtMostOneEach(u.workers, Held(u));
  }

  lemma LiveNamesAreInHand(u: State, live: set<string>)
    requires Inv(u) && forall id | id in live :: id in u.t.jobs && id !in u.t.ended
    ensures |live| <= |u.t.queue| + |u.workers|
  {
    forall id | id in live ensures u.t.jobs[id] in Elements(u.t.queue) + Held(u) {
      assert Sound(u, u.t.jobs[id]);
    }
    NamesAreDistinct(u.t, live, Elements(u.t.queue) + Held(u));
    AtMostAsMany(u.t.queue);
    HeldByWorkers(u);
  }

  /** The table never holds more than its history, its queue and one job per worker. */
  lemma TableIsBounded(s: State, steps: seq<Step>)
    requires Init(s) && Legal(s, steps)
    ensures |After(s, steps).t.jobs| <= s.t.history + s.t.queueSize + |s.workers|
  {
    InitHolds(s);
    RunKeepsInv(s, steps);
    var u := After(s, steps);
    var live := u.t.jobs.Keys - Elements(u.t.ended);
    LiveNamesAreInHand(u, live);
    AtMostAsMany(u.t.ended);
    SubsetIsSmaller(u.t.jobs.Keys, live + Elements(u.t.ended));
    SameKeysSameSize(u.workers, s.workers);
    assert |u.t.jobs| == |u.t.jobs.Keys|;
  }

  lemma SameKeysSameSize<K, V>(a: map<K, V>, b: map<K, V>)
    requires a.Keys == b.Keys
    ensures |a| == |b|
  {
  }

  // What one call does

  /** Ending a job forgets only jobs that ended longest ago, in order, and never this one nor
      one that is not over. */
  lemma RememberKeepsTheRecent(t: Table<nat>, id: string, j: nat, job: Job)
    requires Indexed(t) && LiveFound(t) && t.history >= 1
    requires j in t.records && id in t.jobs && t.jobs[id] == j && job.id == id && Over(job.state)
    ensures var u := Remember(t, id, j, job);
      && u.ended == LastOf(DropFirst(t.ended, id) + [id], t.history)
      && id in u.jobs
      && (forall k | k in t.records && k != j && !Over(t.records[k].state) ::
            t.records[k].id in u.jobs && u.jobs[t.records[k].id] == k)
  {
    RememberKeeps(t, id, j, job);
    var u := Remember(t, id, j, job);
    assert u.ended[|u.ended| - 1] == id && id in u.ended;
    forall k | k in t.records && k != j && !Over(t.records[k].state)
      ensures t.records[k].id in u.jobs && u.jobs[t.records[k].id] == k
    {
      assert u.records[k] == t.records[k];
    }
  }
}
