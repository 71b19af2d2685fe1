/** Download submissions: which are accepted, and the job an accepted one becomes. */
module JobIntake {
  import opened Options
  import opened Text
  import MediaStore

  datatype Source = Source(name: string, kind: string, mirrors: seq<string>, accept: seq<string>, maxBytes: int)

  datatype Submission = Submission(
    id: string, platform: string, author: string, content: string, domains: seq<string>, userAgent: string,
    referer: string, items: seq<Source>)

  datatype Item = Item(
    name: string, kind: string, mirrors: seq<string>, accept: seq<string>, maxBytes: int, queued: bool)

  datatype Job = Job(
    id: string, platform: string, author: string, content: string, directory: string, domains: seq<string>,
    userAgent: string, referer: string, items: seq<Item>, queued: bool, createdAt: int)

  datatype Fault =
    | UnusableId | UnusableSegment | NoDomains | NoItems
    | UnusableName(item: nat) | NoMirrors(item: nat) | NoTypes(item: nat) | NoCeiling(item: nat)

  datatype Intake = Accepted(job: Job) | Rejected(fault: Fault)

  function ItemFault(s: Source, i: nat): Option<Fault>
  {
    if !MediaStore.SafeSegment(s.name) then Some(UnusableName(i))
    else if s.mirrors == [] then Some(NoMirrors(i))
    else if s.accept == [] then Some(NoTypes(i))
    else if s.maxBytes <= 0 then Some(NoCeiling(i))
    else None
  }

  /** What is wrong before the items are looked at. */
  function HeadFault(b: Submission): Option<Fault>
  {
    if !MediaStore.SafeSegment(b.id) then Some(UnusableId)
    else if !MediaStore.Safe([b.platform, b.author, b.content]) then Some(UnusableSegment)
    else if b.domains == [] then Some(NoDomains)
    else if b.items == [] then Some(NoItems)
    else None
  }

  predicate Usable(b: Submission)
  {
    HeadFault(b).None? && forall i | 0 <= i < |b.items| :: ItemFault(b.items[i], i).None?
  }

  /** What an accepted submission is: every name one plain path component, at least one domain and
      one item, and for each item a mirror, a type to accept and a positive ceiling. */
  lemma UsableExactlyWhenComplete(b: Submission)
    ensures Usable(b) <==>
      && (forall s | s in [b.id, b.platform, b.author, b.content] :: MediaStore.OneName(s))
      && b.domains != [] && b.items != []
      && forall i | 0 <= i < |b.items| ::
           && MediaStore.OneName(b.items[i].name)
           && b.items[i].mirrors != [] && b.items[i].accept != [] && b.items[i].maxBytes > 0
  {
    forall s ensures MediaStore.SafeSegment(s) <==> MediaStore.OneName(s) {
      MediaStore.SafeSegmentsAreNames(s);
    }
    assert forall i | 0 <= i < |b.items| :: ItemFault(b.items[i], i).None? <==>
      MediaStore.OneName(b.items[i].name) && b.items[i].mirrors != [] && b.items[i].accept != []
      && b.items[i].maxBytes > 0;
    var path := [b.platform, b.author, b.content];
    assert MediaStore.Safe(path) <==> forall s | s in path :: MediaStore.OneName(s);
  }

  /** What each refusal says, in the order the checks are made. */
  lemma FaultsMeanWhatTheySay(b: Submission, i: nat)
    requires i < |b.items|
    ensures var named := forall s | s in [b.platform, b.author, b.content] :: MediaStore.OneName(s);
      && (HeadFault(b) == Some(UnusableId) <==> !MediaStore.OneName(b.id))
      && (HeadFault(b) == Some(UnusableSegment) <==> MediaStore.OneName(b.id) && !named)
      && (HeadFault(b) == Some(NoDomains) <==> MediaStore.OneName(b.id) && named && b.domains == [])
    ensures var s, fault := b.items[i], ItemFault(b.items[i], i);
      && (fault == Some(UnusableName(i)) <==> !MediaStore.OneName(s.name))
      && (fault == Some(NoMirrors(i)) <==> MediaStore.OneName(s.name) && s.mirrors == [])
      && (fault == Some(NoTypes(i)) <==> MediaStore.OneName(s.name) && s.mirrors != [] && s.accept == [])
      && (fault == Some(NoCeiling(i)) <==>
            MediaStore.OneName(s.name) && s.mirrors != [] && s.accept != [] && s.maxBytes <= 0)
  {
    forall s ensures MediaStore.SafeSegment(s) <==> MediaStore.OneName(s) {
      MediaStore.SafeSegmentsAreNames(s);
    }
    var path := [b.platform, b.author, b.content];
    assert MediaStore.Safe(path) <==> forall s | s in path :: MediaStore.OneName(s);
  }

  method BuildJob(b: Submission, now: int) returns (r: Intake)
    ensures r.Accepted? <==> Usable(b)
    ensures r.Accepted? ==>
      && r.job.id == b.id && r.job.domains == b.domains && r.job.userAgent == b.userAgent
      && r.job.referer == b.referer && r.job.queued && r.job.createdAt == now
      && MediaStore.Segments(r.job.directory) == [b.platform, b.author, b.content]
      && [r.job.platform, r.job.author, r.job.content] == [b.platform, b.author, b.content]
      && |r.job.items| == |b.items|
      && forall i | 0 <= i < |b.items| ::
           var s, t := b.items[i], r.job.items[i];
           t == Item(s.name, s.kind, s.mirrors, s.accept, s.maxBytes, true)
    ensures r.Rejected? && HeadFault(b).Some? ==> r.fault == HeadFault(b).value
    ensures r.Rejected? && HeadFault(b).None? ==>
      exists i | 0 <= i < |b.items| ::
        && ItemFault(b.items[i], i) == Some(r.fault)
        && forall j | 0 <= j < i :: ItemFault(b.items[j], j).None?
  {
    if !MediaStore.SafeSegment(b.id) {
      return Rejected(UnusableId);
    }
    if !MediaStore.Safe([b.platform, b.author, b.content]) {
      return Rejected(UnusableSegment);
    }
    if b.domains == [] {
      return Rejected(NoDomains);
    }
    if b.items == [] {
      return Rejected(NoItems);
    }
    var items := [];
    for i := 0 to |b.items|
      invariant |items| == i
      invariant forall j | 0 <= j < i :: ItemFault(b.items[j], j).None?
      invariant forall j | 0 <= j < i ::
        var s := b.items[j];
        items[j] == Item(s.name, s.kind, s.mirrors, s.accept, s.maxBytes, true)
    {
      var s := b.items[i];
      if !MediaStore.SafeSegment(s.name) {
        return Rejected(UnusableName(i));
      }
      if |s.mirrors| == 0 {
        return Rejected(NoMirrors(i));
      }
      if |s.accept| == 0 {
        return Rejected(NoTypes(i));
      }
      if s.maxBytes <= 0 {
        return Rejected(NoCeiling(i));
      }
      items := items + [Item(s.name, s.kind, s.mirrors, s.accept, s.maxBytes, true)];
    }
    MediaStore.NamedPathsAreRead([b.platform, b.author, b.content]);
    r := Accepted(Job(
      b.id, b.platform, b.author, b.content, Join([b.platform, b.author, b.content], '/'), b.domains,
      b.userAgent, b.referer, items, true, now));
  }
}
