/** What a transfer commits, for any mirror and for an honest one. */
module TransferTheorems {
  import opened Options
  import opened Transfer

  // Any mirror

  /** One entry per copy: the reader's limit, and the file's length after. */
  function Copies(
    m: Mirror, maxBytes: int, room: nat, i: nat, body: Body, sofar: seq<Byte>, resumed: nat)
    : seq<(Option<int>, nat)>
    requires resumed <= MAX_RESUMES
    decreases MAX_RESUMES - resumed
  {
    var limit := Limit(maxBytes, |sofar|);
    var all := sofar + Delivered(body, limit);
    var (next, j) := Continuation(m, i, |all|, resumed);
    if |all| > room then
      [(limit, room)]
    else if EndOf(body, limit) == Eof || next.None? then
      [(limit, |all|)]
    else
      [(limit, |all|)] + Copies(m, maxBytes, room, j, next.value, all, resumed + 1)
  }

  lemma {:induction false} CopiesRespectCeiling(
    m: Mirror, maxBytes: int, room: nat, i: nat, body: Body, sofar: seq<Byte>, resumed: nat)
    requires resumed <= MAX_RESUMES && 0 < maxBytes < MAX_INT64 && |sofar| <= maxBytes + 1
    ensures forall k | 0 <= k < |Copies(m, maxBytes, room, i, body, sofar, resumed)| ::
      var copy := Copies(m, maxBytes, room, i, body, sofar, resumed)[k];
      copy.0.Some? && copy.0.value >= 0 && copy.1 <= maxBytes + 1
    decreases MAX_RESUMES - resumed
  {
    var limit := Limit(maxBytes, |sofar|);
    var all := sofar + Delivered(body, limit);
    assert limit == Some(maxBytes + 1 - |sofar|);
    var (next, j) := Continuation(m, i, |all|, resumed);
    if |all| <= room && EndOf(body, limit) != Eof && next.Some? {
      CopiesRespectCeiling(m, maxBytes, room, j, next.value, all, resumed + 1);
    }
  }

  /** For any mirror and any ceiling a job may carry: the reader is never given a negative
      limit, nor the file a byte beyond the one that proves the ceiling was passed - exactly
      unless the ceiling is the largest 64-bit integer. */
  lemma LimitsAreSoundBelowMaxInt64(m: Mirror, maxBytes: int, room: nat)
    requires 0 < maxBytes <= MAX_INT64
    ensures var copies := Copies(m, maxBytes, room, 0, m.body, [], 0);
      (forall k | 0 <= k < |copies| :: copies[k].0.Some? && copies[k].0.value >= 0 && copies[k].1 <= maxBytes + 1)
      <==> maxBytes < MAX_INT64
  {
    if maxBytes < MAX_INT64 {
      CopiesRespectCeiling(m, maxBytes, room, 0, m.body, [], 0);
    } else {
      assert Limit(maxBytes, 0) == Some(-0x8000_0000_0000_0000);
      assert Copies(m, maxBytes, room, 0, m.body, [], 0)[0].0.value < 0;
    }
  }

  /** With that one ceiling the limit wraps, every body reads as empty, and nothing lands. */
  lemma CeilingOfMaxInt64RefusesEverything(m: Mirror, faults: Faults)
    ensures Fetched(m, MAX_INT64, faults) == Rejected
  {
    assert Limit(MAX_INT64, 0) == Some(-0x8000_0000_0000_0000);
    assert Delivered(m.body, Limit(MAX_INT64, 0)) == [];
    assert Gather(m, MAX_INT64, faults.room, 0, m.body, [], 0).0 == Some(([], 0));
  }

  lemma {:induction false} GatherIsBounded(
    m: Mirror, maxBytes: int, room: nat, i: nat, body: Body, sofar: seq<Byte>, resumed: nat)
    requires resumed <= MAX_RESUMES
    ensures var (got, j) := Gather(m, maxBytes, room, i, body, sofar, resumed);
      && i <= j <= i + (MAX_RESUMES - resumed) * (RESUME_WAITS + 1)
      && (got.Some? ==> |got.value.0| <= room && resumed <= got.value.1 <= MAX_RESUMES)
    decreases MAX_RESUMES - resumed
  {
    var all := sofar + Delivered(body, Limit(maxBytes, |sofar|));
    var (next, j) := Continuation(m, i, |all|, resumed);
    if next.Some? {
      GatherIsBounded(m, maxBytes, room, j, next.value, all, resumed + 1);
    }
  }

  /** Whatever the mirror does, a committed file is not empty and not over the ceiling, and one
      mirror costs at most one request and four for each of three continuations. */
  lemma AnyMirrorIsBounded(m: Mirror, maxBytes: int, faults: Faults)
    ensures 1 + RangeRequests(m, maxBytes, faults) <= 1 + MAX_RESUMES * (RESUME_WAITS + 1) == 13
    ensures var out := Fetched(m, maxBytes, faults);
      out.Committed? ==>
        && 1 <= |out.content| && (maxBytes > 0 ==> |out.content| <= maxBytes)
        && |out.content| <= faults.room && out.resumes <= MAX_RESUMES
  {
    GatherIsBounded(m, maxBytes, faults.room, 0, m.body, [], 0);
  }

  /** Nothing is committed unless the first response passed every check made on it, and the
      file system did all it was asked to. */
  lemma CommitMeansEveryCheckPassed(m: Mirror, maxBytes: int, faults: Faults)
    requires Fetched(m, maxBytes, faults).Committed?
    ensures m.allowed && m.reachable && m.status == 200 && m.typeOk
    ensures maxBytes > 0 ==> m.declared <= maxBytes
    ensures !faults.mkdir && !faults.open && !faults.sync && !faults.close && !faults.rename
  {
  }

  // An honest mirror

  /** The body is the file from `offset` on, whole unless it is cut off. */
  ghost predicate Serves(file: seq<Byte>, offset: nat, body: Body)
  {
    && offset <= |file| && body.data <= file[offset..]
    && (!body.cut ==> body.data == file[offset..])
  }

  /** Every body that may be written is the file from where it was asked for. */
  ghost predicate Honest(m: Mirror, file: seq<Byte>)
  {
    && Serves(file, 0, m.body)
    && (forall i: nat, offset: nat | Accepts(m.answers(i), offset, m.declared) && offset <= |file| ::
          Serves(file, offset, m.answers(i).body))
  }

  /** One copy from an honest body: still the head of the file, and if it ended, all of it -
      or over the ceiling, or nothing because the limit wrapped. */
  lemma CopyStaysOnFile(file: seq<Byte>, sofar: seq<Byte>, body: Body, maxBytes: int)
    requires maxBytes <= MAX_INT64 && sofar <= file && Serves(file, |sofar|, body)
    requires maxBytes > 0 ==> |sofar| <= maxBytes + 1
    ensures var limit := Limit(maxBytes, |sofar|);
      var all := sofar + Delivered(body, limit);
      && all <= file
      && (maxBytes > 0 ==> |all| <= maxBytes + 1)
      && (EndOf(body, limit) == Eof ==> AllOrNothing(file, maxBytes, all))
  {
    var limit := Limit(maxBytes, |sofar|);
    var rest := file[|sofar|..];
    assert file == sofar + rest;
    if maxBytes == MAX_INT64 && sofar == [] {
      assert limit == Some(-0x8000_0000_0000_0000);
    } else if maxBytes > 0 {
      assert limit == Some(maxBytes + 1 - |sofar|);
    }
    assert Delivered(body, limit) <= rest;
  }

  /** The whole file, or content that is refused. */
  predicate AllOrNothing(file: seq<Byte>, maxBytes: int, content: seq<Byte>)
  {
    content == file || content == [] || (maxBytes > 0 && |content| > maxBytes)
  }

  lemma {:induction false} ContinuationServes(m: Mirror, file: seq<Byte>, i: nat, offset: nat, resumed: nat)
    requires Honest(m, file) && offset <= |file|
    ensures var next := Continuation(m, i, offset, resumed).0; next.Some? ==> Serves(file, offset, next.value)
  {
    AsksPatiently(m, i, 0, offset);
  }

  lemma {:induction false} GatherIsTheFile(
    m: Mirror, file: seq<Byte>, maxBytes: int, room: nat, i: nat, body: Body, sofar: seq<Byte>, resumed: nat)
    requires resumed <= MAX_RESUMES && maxBytes <= MAX_INT64 && Honest(m, file)
    requires sofar <= file && Serves(file, |sofar|, body)
    requires maxBytes > 0 ==> |sofar| <= maxBytes + 1
    ensures var got := Gather(m, maxBytes, room, i, body, sofar, resumed).0;
      got.Some? ==> AllOrNothing(file, maxBytes, got.value.0)
    decreases MAX_RESUMES - resumed
  {
    CopyStaysOnFile(file, sofar, body, maxBytes);
    var limit := Limit(maxBytes, |sofar|);
    var all := sofar + Delivered(body, limit);
    var (next, j) := Continuation(m, i, |all|, resumed);
    if next.Some? {
      ContinuationServes(m, file, i, |all|, resumed);
      GatherIsTheFile(m, file, maxBytes, room, j, next.value, all, resumed + 1);
    }
  }

  /** Whatever is committed from an honest mirror is the file, all of it and nothing else,
      however often it was cut and wherever. */
  lemma CommittedIsTheFile(m: Mirror, file: seq<Byte>, maxBytes: int, faults: Faults)
    requires Honest(m, file) && maxBytes <= MAX_INT64
    ensures Fetched(m, maxBytes, faults).Committed? ==> Fetched(m, maxBytes, faults).content == file
  {
    GatherIsTheFile(m, file, maxBytes, faults.room, 0, m.body, [], 0);
  }

  /** What becomes of the last body: it is whole, or every byte came and then the connection
      broke, or it was cut short and no request for the rest was answered with it. */
  datatype Ending = Whole | BrokenAtEnd | Abandoned

  ghost predicate EndsAs(m: Mirror, file: seq<Byte>, i: nat, offset: nat, body: Body, ending: Ending)
    requires offset <= |file|
  {
    match ending
    case Whole => body.data == file[offset..] && !body.cut
    case BrokenAtEnd => body.data == file[offset..] && body.cut
    case Abandoned => body.data < file[offset..] && body.cut && Ask(m, i, 0, offset + |body.data|).0.None?
  }

  /** From the i-th request for the rest on, the mirror delivers the file with exactly these
      cuts, lets each continuation through within its four requests, and ends so. */
  ghost predicate CutsAt(
    m: Mirror, file: seq<Byte>, i: nat, offset: nat, body: Body, cuts: seq<nat>, ending: Ending)
    decreases |cuts|
  {
    offset <= |file| &&
    if cuts == [] then
      EndsAs(m, file, i, offset, body, ending)
    else
      && offset <= cuts[0] < |file| && body.cut && body.data == file[offset..cuts[0]]
      && Ask(m, i, 0, cuts[0]).0.Some?
      && CutsAt(m, file, Ask(m, i, 0, cuts[0]).1, cuts[0], Ask(m, i, 0, cuts[0]).0.value, cuts[1..], ending)
  }

  /** A body that fits is delivered whole and ends as it says. */
  lemma FittingBodyIsDelivered(body: Body, maxBytes: int, offset: nat)
    requires maxBytes > 0 ==> offset + |body.data| <= maxBytes < MAX_INT64
    ensures Delivered(body, Limit(maxBytes, offset)) == body.data
    ensures EndOf(body, Limit(maxBytes, offset)) == if body.cut then Cut else Eof
  {
  }

  lemma {:induction false} GatherEndsAs(
    m: Mirror, file: seq<Byte>, maxBytes: int, room: nat, i: nat, body: Body, offset: nat, resumed: nat,
    ending: Ending)
    requires offset <= |file| && EndsAs(m, file, i, offset, body, ending) && resumed <= MAX_RESUMES
    requires m.declared == |file| <= room && (maxBytes > 0 ==> |file| <= maxBytes < MAX_INT64)
    ensures Gather(m, maxBytes, room, i, body, file[..offset], resumed).0 ==
      if ending.Whole? then Some((file, resumed)) else None
  {
    FittingBodyIsDelivered(body, maxBytes, offset);
    assert file[..offset] + file[offset..] == file;
    assert |file[..offset] + body.data| == offset + |body.data|;
  }

  lemma {:induction false} GatherSurvivesCuts(
    m: Mirror, file: seq<Byte>, maxBytes: int, room: nat, i: nat, body: Body, offset: nat, resumed: nat,
    cuts: seq<nat>, ending: Ending)
    requires CutsAt(m, file, i, offset, body, cuts, ending) && resumed <= MAX_RESUMES
    requires m.declared == |file| <= room && (maxBytes > 0 ==> |file| <= maxBytes < MAX_INT64)
    ensures Gather(m, maxBytes, room, i, body, file[..offset], resumed).0 ==
      if ending.Whole? && resumed + |cuts| <= MAX_RESUMES then Some((file, resumed + |cuts|)) else None
    decreases |cuts|
  {
    FittingBodyIsDelivered(body, maxBytes, offset);
    if cuts == [] {
      GatherEndsAs(m, file, maxBytes, room, i, body, offset, resumed, ending);
    } else {
      assert file[..offset] + file[offset..cuts[0]] == file[..cuts[0]];
      if resumed < MAX_RESUMES {
        var (next, j) := Ask(m, i, 0, cuts[0]);
        GatherSurvivesCuts(m, file, maxBytes, room, j, next.value, cuts[0], resumed + 1, cuts[1..], ending);
      }
    }
  }

  /** A file that fits is committed whole, with its cuts counted, exactly when its last body ended
      properly and it was cut no more often than a transfer may be continued; what lands is the
      file an uncut mirror commits. */
  lemma CutFileLandsIffFewEnoughCuts(
    m: Mirror, file: seq<Byte>, maxBytes: int, faults: Faults, cuts: seq<nat>, ending: Ending)
    requires CutsAt(m, file, 0, 0, m.body, cuts, ending)
    requires m.declared == |file| && file != [] && (maxBytes > 0 ==> |file| <= maxBytes < MAX_INT64)
    requires m.allowed && m.reachable && m.status == 200 && m.typeOk
    requires |file| <= faults.room && !(faults.mkdir || faults.open || faults.sync || faults.close || faults.rename)
    ensures Fetched(m, maxBytes, faults) ==
      if ending.Whole? && |cuts| <= MAX_RESUMES then Committed(file, |cuts|) else Rejected
    ensures Fetched(m, maxBytes, faults).Committed? ==>
      Fetched(m, maxBytes, faults).content == Fetched(m.(body := Body(file, false, false)), maxBytes, faults).content
  {
    GatherSurvivesCuts(m, file, maxBytes, faults.room, 0, m.body, 0, 0, cuts, ending);
    assert file[..0] == [];
    var whole := m.(body := Body(file, false, false));
    assert CutsAt(whole, file, 0, 0, whole.body, [], Whole) by { assert file[0..] == file; }
    GatherSurvivesCuts(whole, file, maxBytes, faults.room, 0, whole.body, 0, 0, [], Whole);
  }

  /** A mirror that sent every declared byte on its first body, whatever they are, and then broke
      off instead of ending is not asked again: the complete file is thrown away. Nor is one that
      declared no length and broke off anywhere. */
  lemma CompleteButCutIsRefused(m: Mirror, maxBytes: int, faults: Faults)
    requires m.body.cut && |m.body.data| >= m.declared
    requires maxBytes > 0 ==> |m.body.data| <= maxBytes < MAX_INT64
    ensures Fetched(m, maxBytes, faults) == Rejected && RangeRequests(m, maxBytes, faults) == 0
  {
  }
}
