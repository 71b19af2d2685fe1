/** Moving one file from a mirror to the disk: a body cut off part-way is continued by range
    requests, and file, digest, ceiling and progress stay in step across every join. */
module Transfer {
  import opened Options

  type Byte = b: int | 0 <= b < 256

  const MAX_RESUMES: nat := 3
  const RESUME_WAITS: nat := 3
  const MAX_INT64: int := 0x7FFF_FFFF_FFFF_FFFF

  /** Two's-complement 64-bit arithmetic. */
  function Wrap64(x: int): int
  {
    (x + 0x8000_0000_0000_0000) % 0x1_0000_0000_0000_0000 - 0x8000_0000_0000_0000
  }

  /** A response body: the bytes it will deliver, whether it then breaks off or ends, and
      whether it says so together with its last bytes or on the read after them. */
  datatype Body = Body(data: seq<Byte>, cut: bool, eager: bool)

  /** The answer to a request for the rest of a file. */
  datatype Answer =
    | Unreachable
    | Response(status: int, span: Option<(int, int, int)>, body: Body)

  /** One mirror: what it does on the first request, and on the i-th request for the rest. */
  datatype Mirror = Mirror(
    allowed: bool, reachable: bool, status: int, typeOk: bool, declared: int, body: Body,
    answers: nat -> Answer, interrupted: nat -> bool)

  /** What the file system refuses. `room` is how many bytes the disk still takes. */
  datatype Faults = Faults(room: nat, mkdir: bool, open: bool, sync: bool, close: bool, rename: bool)

  datatype End = Eof | Cut | WriteFailed

  datatype Outcome =
    | Committed(content: seq<Byte>, resumes: nat)
    | Rejected

  // The specification

  /** The reader's limit: one byte past the ceiling, or none when there is no ceiling. */
  function Limit(maxBytes: int, written: nat): Option<int>
  {
    if maxBytes > 0 then Some(Wrap64(maxBytes + 1 - written)) else None
  }

  function Delivered(body: Body, limit: Option<int>): seq<Byte>
  {
    if limit.None? || |body.data| <= limit.value then body.data
    else if limit.value <= 0 then []
    else body.data[..limit.value]
  }

  /** How a copy ends, whatever the sizes of the reads. */
  function EndOf(body: Body, limit: Option<int>): End
  {
    if limit.Some? && (limit.value <= 0 || limit.value < |body.data|) then Eof
    else if limit.Some? && limit.value == |body.data| && !body.eager then Eof
    else if body.cut then Cut
    else Eof
  }

  /** A Content-Range that is exactly the rest of the file. */
  predicate ContinuesAt(span: Option<(int, int, int)>, offset: int, total: int)
  {
    span == Some((offset, total - 1, total))
  }

  predicate Accepts(answer: Answer, offset: int, total: int)
  {
    answer.Response? && answer.status == 206 && ContinuesAt(answer.span, offset, total)
  }

  /** An answer no pause can mend: it was answered, not with the rest, and not by a 5xx or 429. */
  predicate Final(answer: Answer)
  {
    answer.Response? && answer.status < 500 && answer.status != 429
  }

  /** Asking for the rest, from the i-th request on: the body if one came, and the next index. */
  function Ask(m: Mirror, i: nat, attempt: nat, offset: int): (r: (Option<Body>, nat))
    requires attempt <= RESUME_WAITS
    ensures i < r.1 <= i + (RESUME_WAITS + 1 - attempt)
    decreases RESUME_WAITS - attempt
  {
    var answer := m.answers(i);
    if Accepts(answer, offset, m.declared) then (Some(answer.body), i + 1)
    else if Final(answer) || attempt >= RESUME_WAITS || m.interrupted(i) then (None, i + 1)
    else Ask(m, i + 1, attempt + 1, offset)
  }

  /** Who is asked, how often, and when that ends: between one and four requests, all but the
      last answered by something time can mend with nobody interrupting the pause after it; the
      last brought the rest, or was final, or interrupted, or the fourth. */
  lemma {:induction false} AsksPatiently(m: Mirror, i: nat, attempt: nat, offset: int)
    requires attempt <= 3
    ensures var (body, j) := Ask(m, i, attempt, offset);
      && i < j <= i + 4 - attempt
      && (forall k | i <= k < j - 1 && m.answers(k).Response? ::
            m.answers(k).status >= 500 || m.answers(k).status == 429)
      && (forall k | i <= k < j - 1 :: !m.interrupted(k))
      && var last := m.answers(j - 1);
         && (body.Some? <==>
               last.Response? && last.status == 206 && last.span == Some((offset, m.declared - 1, m.declared)))
         && (body.Some? ==> body.value == last.body)
         && (body.None? ==>
               || (last.Response? && last.status < 500 && last.status != 429)
               || m.interrupted(j - 1) || j == i + 4 - attempt)
    decreases 3 - attempt
  {
    var answer := m.answers(i);
    if !Accepts(answer, offset, m.declared) && !Final(answer) && attempt < 3 && !m.interrupted(i) {
      AsksPatiently(m, i + 1, attempt + 1, offset);
    }
  }

  /** What to copy next after a cut at `offset`: nothing when the file is not known to go on, when
      it was resumed often enough, or when no request for the rest was answered with it. */
  function Continuation(m: Mirror, i: nat, offset: nat, resumed: nat): (r: (Option<Body>, nat))
    ensures r.0.Some? ==> resumed < MAX_RESUMES && i < r.1
    ensures i <= r.1 <= i + RESUME_WAITS + 1
  {
    if m.declared <= 0 || offset >= m.declared || resumed >= MAX_RESUMES then (None, i) else Ask(m, i, 0, offset)
  }

  /** The copying loop from one body on: the whole content, or nothing, and requests used. */
  function Gather(
    m: Mirror, maxBytes: int, room: nat, i: nat, body: Body, sofar: seq<Byte>, resumed: nat)
    : (Option<(seq<Byte>, nat)>, nat)
    requires resumed <= MAX_RESUMES
    decreases MAX_RESUMES - resumed
  {
    var limit := Limit(maxBytes, |sofar|);
    var all := sofar + Delivered(body, limit);
    if |all| > room then (None, i)
    else if EndOf(body, limit) == Eof then (Some((all, resumed)), i)
    else
      var next := Continuation(m, i, |all|, resumed);
      if next.0.None? then (None, next.1) else Gather(m, maxBytes, room, next.1, next.0.value, all, resumed + 1)
  }

  predicate Commits(maxBytes: int, faults: Faults, content: seq<Byte>)
  {
    && !(maxBytes > 0 && |content| > maxBytes) && content != []
    && !faults.sync && !faults.close && !faults.rename
  }

  function Spooled(m: Mirror, maxBytes: int, faults: Faults): Outcome
  {
    if faults.mkdir || faults.open then Rejected
    else
      var gathered := Gather(m, maxBytes, faults.room, 0, m.body, [], 0).0;
      if gathered.Some? && Commits(maxBytes, faults, gathered.value.0)
      then Committed(gathered.value.0, gathered.value.1) else Rejected
  }

  /** The checks made on the first response before a byte of it is written. */
  predicate Worth(m: Mirror, maxBytes: int)
  {
    && m.allowed && m.reachable && m.status == 200 && m.typeOk
    && !(maxBytes > 0 && m.declared > maxBytes)
  }

  function Fetched(m: Mirror, maxBytes: int, faults: Faults): Outcome
  {
    if Worth(m, maxBytes) then Spooled(m, maxBytes, faults) else Rejected
  }

  /** Range requests one mirror costs. */
  function RangeRequests(m: Mirror, maxBytes: int, faults: Faults): nat
  {
    if Worth(m, maxBytes) && !faults.mkdir && !faults.open
    then Gather(m, maxBytes, faults.room, 0, m.body, [], 0).1 else 0
  }

  // The transfer in place

  /** One destination on disk, and everything fed while writing it. */
  class Spool {
    var part: Option<seq<Byte>>
    var dest: Option<seq<Byte>>
    var room: nat
    /** Bytes the SHA-256 has been given. */
    var digested: seq<Byte>
    /** Every value the progress was told since the mirror began. */
    var told: seq<nat>
    /** Every request for the rest: the offset asked for, and the file's length at that moment. */
    var asked: seq<(nat, nat)>

    constructor (dest: Option<seq<Byte>>, part: Option<seq<Byte>>)
      ensures this.dest == dest && this.part == part && asked == [] && told == []
    {
      this.dest, this.part, room := dest, part, 0;
      digested, told, asked := [], [], [];
    }

    /** File, digest and progress agree on what has been written. */
    ghost predicate InStep()
      reads this`part, this`digested, this`told
    {
      && part == Some(digested)
      && (forall i, j | 0 <= i < j < |told| :: told[i] < told[j])
      && (digested == [] ==> told == [])
      && (digested != [] ==> told != [] && told[|told| - 1] == |digested|)
    }

    /** Every continuation was asked for at exactly the end of the file. */
    ghost predicate AsksInStep()
      reads this`asked
    {
      forall i | 0 <= i < |asked| :: asked[i].0 == asked[i].1
    }

    /** The sink: file first, then digest, then progress; a full disk stops at the file. */
    method Write(chunk: seq<Byte>) returns (ok: bool)
      requires InStep() && chunk != []
      modifies this`part, this`digested, this`told, this`room
      ensures ok == (|chunk| <= old(room))
      ensures ok ==> InStep() && digested == old(digested) + chunk && room == old(room) - |chunk|
      ensures part.Some?
    {
      if |chunk| > room {
        part := Some(part.value + chunk[..room]);
        room := 0;
        return false;
      }
      part := Some(part.value + chunk);
      room := room - |chunk|;
      digested := digested + chunk;
      told := told + [|digested|];
      return true;
    }

    /** `io.Copy` through a limited reader, for reads of any sizes. */
    method Copy(body: Body, limit: Option<int>) returns (copied: nat, end: End)
      requires InStep()
      modifies this`part, this`digested, this`told, this`room
      ensures part.Some?
      ensures end == WriteFailed <==> |Delivered(body, limit)| > old(room)
      ensures end != WriteFailed ==>
        && InStep() && end == EndOf(body, limit) && copied == |Delivered(body, limit)|
        && digested == old(digested) + Delivered(body, limit)
        && room == old(room) - |Delivered(body, limit)|
    {
      var pos: nat := 0;
      while true
        invariant InStep() && pos <= |body.data|
        invariant limit.Some? ==> pos == 0 || pos <= limit.value
        invariant digested == old(digested) + body.data[..pos] && room + pos == old(room)
        invariant pos == |body.data| ==> pos == 0 || !body.eager
        decreases |body.data| - pos, if pos == |body.data| then 0 else 1
      {
        if limit.Some? && limit.value - pos <= 0 {
          assert Delivered(body, limit) == body.data[..pos];
          return pos, Eof;
        }
        var most := |body.data| - pos;
        if limit.Some? && limit.value - pos < most {
          most := limit.value - pos;
        }
        if most == 0 {
          assert Delivered(body, limit) == body.data[..pos];
          return pos, if body.cut then Cut else Eof;
        }
        var n: nat :| 1 <= n <= most;
        var ok := Write(body.data[pos..pos + n]);
        if !ok {
          assert |Delivered(body, limit)| >= pos + n;
          return pos, WriteFailed;
        }
        pos := pos + n;
        if pos == |body.data| && body.eager {
          assert Delivered(body, limit) == body.data[..pos];
          return pos, if body.cut then Cut else Eof;
        }
      }
    }

    /** `resumeWithPatience`. */
    method AskForRest(m: Mirror, i: nat, offset: nat) returns (body: Option<Body>, j: nat)
      requires part.Some? && offset == |part.value| && AsksInStep()
      modifies this`asked
      ensures (body, j) == Ask(m, i, 0, offset)
      ensures AsksInStep() && |asked| == |old(asked)| + (j - i)
    {
      var attempt := 0;
      j := i;
      while true
        invariant attempt <= RESUME_WAITS && j == i + attempt
        invariant AsksInStep() && |asked| == |old(asked)| + attempt
        invariant Ask(m, i, 0, offset) == Ask(m, j, attempt, offset)
        decreases RESUME_WAITS - attempt
      {
        asked := asked + [(offset, |part.value|)];
        var answer := m.answers(j);
        var interrupted := m.interrupted(j);
        j := j + 1;
        if Accepts(answer, offset, m.declared) {
          return Some(answer.body), j;
        }
        if Final(answer) || attempt >= RESUME_WAITS || interrupted {
          return None, j;
        }
        attempt := attempt + 1;
      }
    }

    /** After a cut: whether to go on, and asking to. */
    method Continue(m: Mirror, i: nat, written: nat, resumed: nat) returns (next: Option<Body>, j: nat)
      requires part.Some? && written == |part.value| && AsksInStep()
      modifies this`asked
      ensures (next, j) == Continuation(m, i, written, resumed)
      ensures AsksInStep() && |asked| == |old(asked)| + (j - i)
    {
      if m.declared <= 0 || written >= m.declared || resumed >= MAX_RESUMES {
        return None, i;
      }
      next, j := AskForRest(m, i, written);
    }

    /** The loop of `spool`: copy, and while the mirror cuts off short, ask for the rest. */
    method Pump(m: Mirror, maxBytes: int) returns (resumes: Option<nat>, written: nat)
      requires InStep() && AsksInStep() && digested == []
      modifies this`part, this`digested, this`told, this`room, this`asked
      ensures AsksInStep()
      ensures var whole := Gather(m, maxBytes, old(room), 0, m.body, [], 0);
        && |asked| == |old(asked)| + whole.1
        && (resumes.Some? <==> whole.0.Some?)
        && (resumes.Some? ==> InStep() && written == |digested| && whole.0 == Some((digested, resumes.value)))
    {
      written := 0;
      var resumed, source, i := 0, m.body, 0;
      ghost var space := room;
      ghost var whole := Gather(m, maxBytes, space, 0, m.body, [], 0);
      while true
        invariant InStep() && AsksInStep() && written == |digested|
        invariant resumed <= MAX_RESUMES && room + |digested| == space
        invariant |asked| == |old(asked)| + i
        invariant whole == Gather(m, maxBytes, space, i, source, digested, resumed)
        decreases MAX_RESUMES - resumed
      {
        var limit := Limit(maxBytes, written);
        ghost var all := digested + Delivered(source, limit);
        var copied, end := Copy(source, limit);
        written := written + copied;
        if end == WriteFailed {
          return None, written;
        }
        assert digested == all;
        if end == Eof {
          return Some(resumed), written;
        }
        var next;
        next, i := Continue(m, i, written, resumed);
        if next.None? {
          return None, written;
        }
        source, resumed := next.value, resumed + 1;
      }
    }

    /** `spool`: write, continue what is cut off, check, rename into place. */
    method Run(m: Mirror, maxBytes: int, faults: Faults) returns (out: Outcome)
      requires AsksInStep()
      modifies this
      ensures out == Spooled(m, maxBytes, faults)
      ensures out.Committed? ==> dest == Some(out.content) && part == None && digested == out.content
      ensures out.Committed? ==> told != [] && told[|told| - 1] == |out.content|
      ensures out.Rejected? ==> dest == old(dest)
      ensures out.Rejected? ==> part == if faults.mkdir || faults.open then old(part) else None
      ensures AsksInStep()
      ensures |asked| == |old(asked)| +
        if faults.mkdir || faults.open then 0 else Gather(m, maxBytes, faults.room, 0, m.body, [], 0).1
    {
      if faults.mkdir || faults.open {
        return Rejected;
      }
      part, room, digested, told := Some([]), faults.room, [], [];
      var resumes, written := Pump(m, maxBytes);
      if resumes.None? || (maxBytes > 0 && written > maxBytes) || written == 0
         || faults.sync || faults.close || faults.rename {
        part := None;
        return Rejected;
      }
      dest, part := part, None;
      return Committed(digested, resumes.value);
    }

    /** `fetchOne`: the first response is judged before anything is written. */
    method FetchOne(m: Mirror, maxBytes: int, faults: Faults) returns (out: Outcome)
      requires AsksInStep()
      modifies this
      ensures out == Fetched(m, maxBytes, faults)
      ensures out.Committed? ==> dest == Some(out.content) && part == None && digested == out.content
      ensures out.Rejected? ==> dest == old(dest)
      ensures out.Rejected? ==> part == None || part == old(part)
      ensures out.Committed? ==>
        && m.allowed && m.reachable && m.status == 200 && m.typeOk
        && (maxBytes > 0 ==> m.declared <= maxBytes)
      ensures !(m.allowed && m.reachable && m.status == 200 && m.typeOk && (maxBytes > 0 ==> m.declared <= maxBytes))
        ==> out.Rejected? && unchanged(this)
      ensures AsksInStep() && |asked| == |old(asked)| + RangeRequests(m, maxBytes, faults)
    {
      if !m.allowed || !m.reachable || m.status != 200 || !m.typeOk {
        return Rejected;
      }
      if maxBytes > 0 && m.declared > maxBytes {
        return Rejected;
      }
      told := [];
      out := Run(m, maxBytes, faults);
    }

    /** One mirror of several, and what the file has cost with it. */
    method FetchNext(mirrors: seq<Mirror>, maxBytes: int, faults: seq<Faults>, k: nat) returns (out: Outcome)
      requires k < |mirrors| == |faults| && AsksInStep()
      modifies this
      ensures out == Fetched(mirrors[k], maxBytes, faults[k])
      ensures out.Committed? ==> dest == Some(out.content) && part == None && Worth(mirrors[k], maxBytes)
      ensures out.Rejected? ==> dest == old(dest) && (part == None || part == old(part))
      ensures AsksInStep()
      ensures |asked| == |old(asked)|
        + TotalRangeRequests(mirrors[..k + 1], maxBytes, faults[..k + 1])
        - TotalRangeRequests(mirrors[..k], maxBytes, faults[..k])
    {
      out := FetchOne(mirrors[k], maxBytes, faults[k]);
      OneMirrorMore(mirrors, maxBytes, faults, k);
    }

    /** `fetch`: each mirror from byte zero, until one lands or the job is cancelled. */
    method Fetch(mirrors: seq<Mirror>, maxBytes: int, faults: seq<Faults>, cancelled: nat -> bool)
      returns (out: Outcome, used: nat)
      requires |faults| == |mirrors| && AsksInStep()
      modifies this
      ensures used <= |mirrors| && AsksInStep()
      ensures out.Committed? ==>
        && used > 0 && out == Fetched(mirrors[used - 1], maxBytes, faults[used - 1])
        && dest == Some(out.content) && part == None
      ensures out.Committed? ==>
        var m := mirrors[used - 1];
        && m.allowed && m.reachable && m.status == 200 && m.typeOk
        && (maxBytes > 0 ==> m.declared <= maxBytes)
      ensures forall k | 0 <= k < used - 1 :: !cancelled(k)
      ensures used > 0 ==> AllRejected(mirrors, maxBytes, faults, used - 1)
      ensures out.Rejected? ==> dest == old(dest)
      ensures out.Rejected? ==> AllRejected(mirrors, maxBytes, faults, used)
      ensures out.Rejected? && used < |mirrors| ==> used > 0 && cancelled(used - 1)
      ensures out.Rejected? && old(part) == None ==> part == None
      ensures |asked| == |old(asked)| + TotalRangeRequests(mirrors[..used], maxBytes, faults[..used])
    {
      used := 0;
      while used < |mirrors|
        invariant used <= |mirrors| && AsksInStep() && dest == old(dest)
        invariant old(part) == None ==> part == None
        invariant AllRejected(mirrors, maxBytes, faults, used)
        invariant forall k | 0 <= k < used :: !cancelled(k)
        invariant |asked| == |old(asked)| + TotalRangeRequests(mirrors[..used], maxBytes, faults[..used])
      {
        out := FetchNext(mirrors, maxBytes, faults, used);
        used := used + 1;
        if out.Committed? {
          return;
        }
        if cancelled(used - 1) {
          return Rejected, used;
        }
      }
      out := Rejected;
    }
  }

  /** None of the first `n` mirrors lands anything. */
  predicate AllRejected(mirrors: seq<Mirror>, maxBytes: int, faults: seq<Faults>, n: nat)
    requires n <= |mirrors| == |faults|
  {
    forall k | 0 <= k < n :: Fetched(mirrors[k], maxBytes, faults[k]).Rejected?
  }

  function TotalRangeRequests(mirrors: seq<Mirror>, maxBytes: int, faults: seq<Faults>): nat
    requires |faults| == |mirrors|
  {
    if mirrors == [] then 0
    else
      var n := |mirrors| - 1;
      TotalRangeRequests(mirrors[..n], maxBytes, faults[..n]) + RangeRequests(mirrors[n], maxBytes, faults[n])
  }

  lemma {:induction false} OneMirrorMore(mirrors: seq<Mirror>, maxBytes: int, faults: seq<Faults>, i: nat)
    requires i < |mirrors| == |faults|
    ensures TotalRangeRequests(mirrors[..i + 1], maxBytes, faults[..i + 1]) ==
      TotalRangeRequests(mirrors[..i], maxBytes, faults[..i]) + RangeRequests(mirrors[i], maxBytes, faults[i])
  {
    assert mirrors[..i + 1][..i] == mirrors[..i] && faults[..i + 1][..i] == faults[..i];
  }
}
