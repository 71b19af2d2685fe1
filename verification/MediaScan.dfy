/** The usage report: every content directory with its size, oldest first. */
module MediaScan {
  import opened Dicts
  import opened Lists
  import opened Options
  import opened Text
  import opened MediaTree
  import opened MediaStore

  datatype Usage = Usage(platform: string, author: string, content: string, measured: Measured)

  function PathOf(e: Usage): Path
  {
    [e.platform, e.author, e.content]
  }

  // What a report must hold

  ghost predicate Reported(n: Node, e: Usage)
  {
    match At(n, PathOf(e))
    case Some(Dir(l)) => e.measured == Measurement(l)
    case _ => false
  }

  function SumBytes(es: seq<Usage>): nat
  {
    if es == [] then 0 else SumBytes(es[..|es| - 1]) + es[|es| - 1].measured.bytes
  }

  lemma {:induction false} SumConcat(a: seq<Usage>, b: seq<Usage>)
    ensures SumBytes(a + b) == SumBytes(a) + SumBytes(b)
  {
    if b == [] {
      assert a + b == a;
    } else {
      SumConcat(a, b[..|b| - 1]);
      assert (a + b)[..|a + b| - 1] == a + b[..|b| - 1];
    }
  }

  predicate OldestFirst(es: seq<Usage>)
  {
    forall i, j | 0 <= i < j < |es| :: es[i].measured.modified <= es[j].measured.modified
  }

  // The walk, level by level

  function InAuthor(platform: string, author: string, l: Listing): (es: seq<Usage>)
    ensures SumBytes(es) == Bytes(l, 1)
  {
    if l == [] then []
    else
      var last := l[|l| - 1];
      var es := InAuthor(platform, author, l[..|l| - 1]);
      if last.1.File? then es else es + [Usage(platform, author, last.0, Measurement(last.1.entries))]
  }

  function InPlatform(platform: string, l: Listing): (es: seq<Usage>)
    ensures SumBytes(es) == Bytes(l, 2)
  {
    if l == [] then []
    else
      var last := l[|l| - 1];
      var es := InPlatform(platform, l[..|l| - 1]);
      if last.1.File? then es
      else
        var more := InAuthor(platform, last.0, last.1.entries);
        SumConcat(es, more);
        es + more
  }

  function InRoot(l: Listing): (es: seq<Usage>)
    ensures SumBytes(es) == Bytes(l, 3)
  {
    if l == [] then []
    else
      var last := l[|l| - 1];
      var es := InRoot(l[..|l| - 1]);
      if last.1.File? then es
      else
        var more := InPlatform(last.0, last.1.entries);
        SumConcat(es, more);
        es + more
  }

  lemma {:induction false} AuthorGrows(platform: string, author: string, l: Listing, i: nat)
    requires i < |l|
    ensures InAuthor(platform, author, l[..i + 1]) ==
      InAuthor(platform, author, l[..i]) +
      if l[i].1.File? then [] else [Usage(platform, author, l[i].0, Measurement(l[i].1.entries))]
  {
    assert l[..i + 1][..i] == l[..i];
  }

  lemma {:induction false} PlatformGrows(platform: string, l: Listing, i: nat)
    requires i < |l|
    ensures InPlatform(platform, l[..i + 1]) ==
      InPlatform(platform, l[..i]) + if l[i].1.File? then [] else InAuthor(platform, l[i].0, l[i].1.entries)
  {
    assert l[..i + 1][..i] == l[..i];
  }

  lemma {:induction false} RootGrows(l: Listing, i: nat)
    requires i < |l|
    ensures InRoot(l[..i + 1]) == InRoot(l[..i]) + if l[i].1.File? then [] else InPlatform(l[i].0, l[i].1.entries)
  {
    assert l[..i + 1][..i] == l[..i];
  }

  /** The entry is one directory of the author's. */
  ghost predicate FromAuthor(platform: string, author: string, l: Listing, e: Usage)
  {
    exists i | 0 <= i < |l| :: l[i].1.Dir? && e == Usage(platform, author, l[i].0, Measurement(l[i].1.entries))
  }

  ghost predicate FromPlatform(platform: string, l: Listing, e: Usage)
  {
    exists i | 0 <= i < |l| :: l[i].1.Dir? && e in InAuthor(platform, l[i].0, l[i].1.entries)
  }

  ghost predicate FromRoot(l: Listing, e: Usage)
  {
    exists i | 0 <= i < |l| :: l[i].1.Dir? && e in InPlatform(l[i].0, l[i].1.entries)
  }

  lemma {:induction false} AuthorHolds(platform: string, author: string, l: Listing, e: Usage)
    ensures e in InAuthor(platform, author, l) <==> FromAuthor(platform, author, l, e)
  {
    if l != [] {
      var n := |l| - 1;
      var init := l[..n];
      AuthorHolds(platform, author, init, e);
      AuthorGrows(platform, author, l, n);
      assert l[..n + 1] == l;
      assert forall i | 0 <= i < n :: init[i] == l[i];
    }
  }

  lemma {:induction false} FromPlatformGrows(platform: string, l: Listing, e: Usage)
    requires l != []
    ensures var n := |l| - 1;
      FromPlatform(platform, l, e) <==>
        FromPlatform(platform, l[..n], e) || (l[n].1.Dir? && e in InAuthor(platform, l[n].0, l[n].1.entries))
  {
  }

  lemma {:induction false} PlatformHolds(platform: string, l: Listing, e: Usage)
    ensures e in InPlatform(platform, l) <==> FromPlatform(platform, l, e)
  {
    if l != [] {
      var n := |l| - 1;
      var init := l[..n];
      PlatformHolds(platform, init, e);
      FromPlatformGrows(platform, l, e);
      PlatformGrows(platform, l, n);
      assert l[..n + 1] == l;
    }
  }

  lemma {:induction false} RootHolds(l: Listing, e: Usage)
    ensures e in InRoot(l) <==> FromRoot(l, e)
  {
    if l != [] {
      var n := |l| - 1;
      var init := l[..n];
      RootHolds(init, e);
      RootGrows(l, n);
      assert l[..n + 1] == l;
      assert forall i | 0 <= i < n :: init[i] == l[i];
    }
  }

  predicate OfAuthor(k: Listing, e: Usage)
  {
    match Child(k, e.content)
    case Some(Dir(c)) => e.measured == Measurement(c)
    case _ => false
  }

  lemma {:induction false} AuthorListing(platform: string, author: string, k: Listing, e: Usage)
    requires Distinct(k)
    ensures e in InAuthor(platform, author, k) <==> e.platform == platform && e.author == author && OfAuthor(k, e)
  {
    AuthorHolds(platform, author, k, e);
    forall x | 0 <= x < |k| ensures Child(k, k[x].0) == Some(k[x].1) {
      ChildAt(k, x);
    }
    if Child(k, e.content).Some? {
      assert k[Find(k, e.content)].0 == e.content;
    }
  }

  predicate OfPlatform(m: Listing, e: Usage)
  {
    match Child(m, e.author)
    case Some(Dir(k)) => OfAuthor(k, e)
    case _ => false
  }

  lemma {:induction false} PlatformListing(platform: string, m: Listing, e: Usage)
    requires Neat(Dir(m))
    ensures e in InPlatform(platform, m) <==> e.platform == platform && OfPlatform(m, e)
  {
    PlatformHolds(platform, m, e);
    forall j | 0 <= j < |m| && m[j].1.Dir? ensures Child(m, m[j].0) == Some(m[j].1) && Neat(m[j].1) {
      ChildAt(m, j);
    }
    forall j | 0 <= j < |m| && m[j].1.Dir?
      ensures e in InAuthor(platform, m[j].0, m[j].1.entries) <==>
        e.platform == platform && e.author == m[j].0 && OfAuthor(m[j].1.entries, e)
    {
      AuthorListing(platform, m[j].0, m[j].1.entries, e);
    }
    if Child(m, e.author).Some? {
      assert m[Find(m, e.author)].0 == e.author;
    }
  }

  lemma ReachedBy(l: Listing, e: Usage)
    ensures Reported(Dir(l), e) <==>
      Child(l, e.platform).Some? && Child(l, e.platform).value.Dir? && OfPlatform(Child(l, e.platform).value.entries, e)
  {
    OneLevelDown(Dir(l), PathOf(e));
    if Child(l, e.platform).Some? {
      var m := Child(l, e.platform).value;
      OneLevelDown(m, [e.author, e.content]);
      if m.Dir? && Child(m.entries, e.author).Some? {
        OneLevelDown(Child(m.entries, e.author).value, [e.content]);
      }
    }
  }

  lemma OneLevelDown(n: Node, path: Path)
    requires path != []
    ensures At(n, path) ==
      if n.File? || Child(n.entries, path[0]).None? then None else At(Child(n.entries, path[0]).value, path[1..])
    ensures |path| == 3 ==> path[1..] == [path[1], path[2]]
    ensures |path| == 2 ==> path[1..] == [path[1]]
  {
  }

  /** A directory is reported exactly when it is there, with what measuring it gives. */
  lemma {:induction false} EveryDirectoryIsReported(l: Listing, e: Usage)
    requires Neat(Dir(l))
    ensures e in InRoot(l) <==> Reported(Dir(l), e)
  {
    ReachedBy(l, e);
    if e in InRoot(l) {
      RootHolds(l, e);
      var i :| 0 <= i < |l| && l[i].1.Dir? && e in InPlatform(l[i].0, l[i].1.entries);
      ChildAt(l, i);
      PlatformListing(l[i].0, l[i].1.entries, e);
    } else if Reported(Dir(l), e) {
      var m := Child(l, e.platform).value.entries;
      PlatformListing(e.platform, m, e);
      assert l[Find(l, e.platform)].0 == e.platform;
      RootHolds(l, e);
    }
  }

  // Ordering

  /** The entry slid in before the newer ones at the end. */
  function Aged(es: seq<Usage>, e: Usage): seq<Usage>
  {
    if es == [] || es[|es| - 1].measured.modified <= e.measured.modified then es + [e]
    else Aged(es[..|es| - 1], e) + [es[|es| - 1]]
  }

  lemma {:induction false} AgedHolds(es: seq<Usage>, e: Usage)
    ensures multiset(Aged(es, e)) == multiset(es) + multiset{e}
  {
    if es != [] && es[|es| - 1].measured.modified > e.measured.modified {
      AgedHolds(es[..|es| - 1], e);
      assert es == es[..|es| - 1] + [es[|es| - 1]];
    }
  }

  predicate NoneNewer(es: seq<Usage>, t: nat)
  {
    forall i | 0 <= i < |es| :: es[i].measured.modified <= t
  }

  lemma {:induction false} AgedStaysOrdered(es: seq<Usage>, e: Usage)
    requires OldestFirst(es)
    ensures OldestFirst(Aged(es, e))
    ensures forall t | NoneNewer(es, t) && e.measured.modified <= t :: NoneNewer(Aged(es, e), t)
  {
    if es != [] && es[|es| - 1].measured.modified > e.measured.modified {
      var init, last := es[..|es| - 1], es[|es| - 1];
      AgedStaysOrdered(init, e);
      assert NoneNewer(init, last.measured.modified);
      forall t | NoneNewer(es, t) && e.measured.modified <= t ensures NoneNewer(Aged(es, e), t) {
        assert NoneNewer(init, t);
      }
    }
  }

  /** The innermost loop of the walk: one author's content directories. */
  method AddContents(platform: string, author: string, contents: Listing, before: seq<Usage>)
    returns (bytes: nat, entries: seq<Usage>)
    ensures entries == before + InAuthor(platform, author, contents) && bytes == Bytes(contents, 1)
  {
    bytes, entries := 0, before;
    for k := 0 to |contents|
      invariant entries == before + InAuthor(platform, author, contents[..k])
      invariant bytes == Bytes(contents[..k], 1)
    {
      AuthorGrows(platform, author, contents, k);
      BytesGrow(contents, k, 1);
      var content := contents[k];
      if content.1.Dir? {
        var measured := Measure(content.1.entries);
        var entry := Usage(platform, author, content.0, measured);
        entries := entries + [entry];
        bytes := bytes + measured.bytes;
      }
    }
    assert contents[..|contents|] == contents;
  }

  lemma {:induction false} OneAuthorMore(platform: string, authors: Listing, j: nat, before: seq<Usage>)
    requires j < |authors|
    ensures before + InPlatform(platform, authors[..j + 1]) ==
      if authors[j].1.File? then before + InPlatform(platform, authors[..j])
      else before + InPlatform(platform, authors[..j]) + InAuthor(platform, authors[j].0, authors[j].1.entries)
    ensures Bytes(authors[..j + 1], 2) ==
      Bytes(authors[..j], 2) + if authors[j].1.File? then 0 else Bytes(authors[j].1.entries, 1)
  {
    PlatformGrows(platform, authors, j);
    BytesGrow(authors, j, 2);
    var so := InPlatform(platform, authors[..j]);
    if authors[j].1.Dir? {
      Regroup(before, so, InAuthor(platform, authors[j].0, authors[j].1.entries));
    } else {
      assert so + [] == so;
    }
  }

  /** The loop over one platform's authors. */
  method AddAuthors(platform: string, authors: Listing, before: seq<Usage>)
    returns (bytes: nat, entries: seq<Usage>)
    ensures entries == before + InPlatform(platform, authors) && bytes == Bytes(authors, 2)
  {
    bytes, entries := 0, before;
    for j := 0 to |authors|
      invariant entries == before + InPlatform(platform, authors[..j])
      invariant bytes == Bytes(authors[..j], 2)
    {
      OneAuthorMore(platform, authors, j, before);
      var author := authors[j];
      if author.1.Dir? {
        var more;
        more, entries := AddContents(platform, author.0, author.1.entries, entries);
        bytes := bytes + more;
      }
    }
    assert authors[..|authors|] == authors;
  }

  method Scan(media: Option<Node>) returns (total: nat, entries: seq<Usage>, readable: bool)
    ensures readable <==> (media.Some? ==> media.value.Dir?)
    ensures readable ==> total == Total(media) && OldestFirst(entries)
    ensures readable && media.None? ==> entries == []
    ensures readable && media.Some? ==> multiset(entries) == multiset(InRoot(media.value.entries))
  {
    total, entries, readable := 0, [], true;
    if media.None? {
      return;
    }
    if media.value.File? {
      readable := false;
      return;
    }
    var platforms := media.value.entries;
    for i := 0 to |platforms|
      invariant entries == InRoot(platforms[..i]) && total == SumBytes(entries)
    {
      RootGrows(platforms, i);
      var platform := platforms[i];
      if platform.1.Dir? {
        SumConcat(entries, InPlatform(platform.0, platform.1.entries));
        var more;
        more, entries := AddAuthors(platform.0, platform.1.entries, entries);
        total := total + more;
      }
    }
    assert platforms[..|platforms|] == platforms;
    entries := Sort(entries);
  }

  method Sort(es: seq<Usage>) returns (sorted: seq<Usage>)
    ensures OldestFirst(sorted) && multiset(sorted) == multiset(es)
  {
    sorted := [];
    for i := 0 to |es|
      invariant OldestFirst(sorted)
      invariant multiset(sorted) == multiset(es[..i])
    {
      assert es[..i + 1] == es[..i] + [es[i]];
      AgedHolds(sorted, es[i]);
      AgedStaysOrdered(sorted, es[i]);
      sorted := Aged(sorted, es[i]);
    }
    assert es[..|es|] == es;
  }

  /** The report and the removal agree: naming a reported directory with usable segments, not
      held by the file system, frees the bytes its report said. */
  lemma ReportedIsWhatRemovalFrees(n: Node, e: Usage, locked: set<Path>)
    requires Reported(n, e) && Safe(PathOf(e)) && PathOf(e) !in locked
    ensures var r := RemoveOne(Some(n), Join(PathOf(e), '/'), locked);
      r.Removed? && r.freed == e.measured.bytes
  {
    NamedPathsAreRead(PathOf(e));
    ReadDirIsAt(n, PathOf(e));
  }
}
