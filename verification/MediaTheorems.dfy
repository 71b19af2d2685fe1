/** What a removal sweep leaves alone, and what becomes of a swept name. */
module MediaTheorems {
  import opened Options
  import opened Lists
  import opened MediaTree
  import opened MediaStore

  function There(media: Option<Node>, q: Path): Option<Node>
  {
    if media.None? then None else At(media.value, q)
  }

  predicate IsFile(n: Option<Node>)
  {
    n.Some? && n.value.File?
  }

  ghost predicate Sound(media: Option<Node>)
  {
    media.Some? ==> Neat(media.value)
  }

  /** Nothing at depth three or below changed, no file changed or appeared. */
  ghost predicate OnlyFoldersAbove(before: Option<Node>, after: Option<Node>)
  {
    && (forall q: Path | |q| >= 3 || IsFile(There(before, q)) :: There(after, q) == There(before, q))
    && (forall q: Path | IsFile(There(after, q)) :: There(before, q) == There(after, q))
  }

  /** Pruning an empty directory above the content level only takes that directory. */
  lemma PruneStep(n: Node, dir: Path)
    requires Neat(n) && 0 < |dir| <= 2 && At(n, dir) == Some(Dir([]))
    ensures Neat(Without(n, dir)) && OnlyFoldersAbove(Some(n), Some(Without(n, dir)))
  {
    WithoutIsNeat(n, dir);
    forall q: Path
      ensures |q| >= 3 || IsFile(At(n, q)) ==> At(Without(n, dir), q) == At(n, q)
      ensures IsFile(At(Without(n, dir), q)) ==> At(n, q) == At(Without(n, dir), q)
    {
      WithoutElsewhere(n, dir, q);
      if dir <= q && dir != q {
        NothingBelow(n, dir, q);
      }
    }
  }

  lemma {:induction false} PruningTakesNoContent(n: Node, dir: Path, locked: set<Path>)
    requires Neat(n) && |dir| <= 2
    ensures Neat(Pruned(n, dir, locked)) && OnlyFoldersAbove(Some(n), Some(Pruned(n, dir, locked)))
    decreases |dir|
  {
    if dir != [] && ReadDir(n, dir) == Listed([]) && dir !in locked {
      ReadDirIsAt(n, dir);
      PruneStep(n, dir);
      PruningTakesNoContent(Without(n, dir), dir[..|dir| - 1], locked);
    }
  }

  /** `candidate` names the content directory holding `q`, or `q` itself. */
  predicate Covers(candidate: string, q: Path)
  {
    Segments(candidate) <= q
  }

  /** The effect of removing the content directory `parts` names, or finding it gone. */
  ghost predicate TookOnly(before: Option<Node>, after: Option<Node>, candidate: string)
  {
    && (forall q: Path | Covers(candidate, q) :: There(after, q) == None)
    && (forall q: Path | !Covers(candidate, q) && (|q| >= 3 || IsFile(There(before, q))) ::
          There(after, q) == There(before, q))
    && (forall q: Path | IsFile(There(after, q)) :: There(before, q) == There(after, q))
  }

  lemma OneTakesOnlyItsOwn(media: Option<Node>, candidate: string, locked: set<Path>)
    requires Sound(media)
    ensures var r := RemoveOne(media, candidate, locked);
      r.Removed? ==>
        && Sound(r.media) && |Segments(candidate)| == 3 && Safe(Segments(candidate))
        && TookOnly(media, r.media, candidate)
  {
    var parts := Segments(candidate);
    var r := RemoveOne(media, candidate, locked);
    if r.Removed? {
      if Read(media, parts).Missing? {
        if media.Some? {
          ReadDirIsAt(media.value, parts);
          forall q: Path | Covers(candidate, q) ensures There(media, q) == None {
            NothingBelow(media.value, parts, q);
          }
        }
      } else {
        var mid := Without(media.value, parts);
        WithoutIsNeat(media.value, parts);
        PruningTakesNoContent(mid, parts[..2], locked);
        forall q: Path
          ensures Covers(candidate, q) ==> At(r.media.value, q) == None
          ensures !Covers(candidate, q) && (|q| >= 3 || IsFile(At(media.value, q))) ==>
                    At(r.media.value, q) == At(media.value, q)
          ensures IsFile(At(r.media.value, q)) ==> At(media.value, q) == At(r.media.value, q)
        {
          WithoutElsewhere(media.value, parts, q);
          assert At(mid, q) == There(Some(mid), q) && At(r.media.value, q) == There(r.media, q);
        }
      }
    }
  }

  predicate Swept(removed: seq<string>, q: Path)
  {
    exists c | c in removed :: Covers(c, q)
  }

  /** A content directory, anything in one, or any file is gone exactly when a reported candidate
      names it and otherwise untouched, and no file appeared. */
  ghost predicate OnlyTheseWent(before: Option<Node>, after: Option<Node>, removed: seq<string>)
  {
    && (forall q: Path | |q| >= 3 || IsFile(There(before, q)) ::
          There(after, q) == if Swept(removed, q) then None else There(before, q))
    && (forall q: Path | IsFile(There(after, q)) :: There(before, q) == There(after, q))
  }

  predicate ThreeSafeSegments(candidate: string)
  {
    |Segments(candidate)| == 3 && Safe(Segments(candidate))
  }

  lemma RemovedHasThreeSegments(media: Option<Node>, candidate: string, locked: set<Path>)
    ensures RemoveOne(media, candidate, locked).Removed? ==> ThreeSafeSegments(candidate)
  {
  }

  lemma {:induction false} ReportIsAPrefix(media: Option<Node>, paths: seq<string>, locked: set<Path>)
    ensures var s := SweepAll(media, paths, locked);
      s.removed <= paths && (s.refusal.None? <==> s.removed == paths)
    decreases |paths|
  {
    if paths != [] {
      var r := RemoveOne(media, paths[0], locked);
      if r.Removed? {
        ReportIsAPrefix(r.media, paths[1..], locked);
        PrefixGrows(paths[0], SweepAll(r.media, paths[1..], locked).removed, paths[1..]);
        assert paths == [paths[0]] + paths[1..];
      }
    }
  }

  lemma {:induction false} ReportedAreSafe(media: Option<Node>, paths: seq<string>, locked: set<Path>)
    ensures forall c | c in SweepAll(media, paths, locked).removed :: ThreeSafeSegments(c)
    decreases |paths|
  {
    if paths != [] {
      RemovedHasThreeSegments(media, paths[0], locked);
      if RemoveOne(media, paths[0], locked).Removed? {
        ReportedAreSafe(RemoveOne(media, paths[0], locked).media, paths[1..], locked);
      }
    }
  }

  /** The report is the candidates up to the first refusal, each of three safe segments. */
  lemma ReportIsThePrefixDone(media: Option<Node>, paths: seq<string>, locked: set<Path>)
    ensures var s := SweepAll(media, paths, locked);
      && s.removed <= paths && (s.refusal.None? <==> s.removed == paths)
      && (forall c | c in s.removed :: |Segments(c)| == 3 && Safe(Segments(c)))
  {
    ReportIsAPrefix(media, paths, locked);
    ReportedAreSafe(media, paths, locked);
    assert forall c | c in SweepAll(media, paths, locked).removed :: ThreeSafeSegments(c);
  }

  /** After any sweep only what its report names is gone: pruning takes only empty folders, and a
      refusal stops it without half a removal. */
  lemma {:induction false} OnlyNamedDirectoriesGo(media: Option<Node>, paths: seq<string>, locked: set<Path>)
    requires Sound(media)
    ensures var s := SweepAll(media, paths, locked);
      && Sound(s.media) && OnlyTheseWent(media, s.media, s.removed)
    decreases |paths|
  {
    if paths != [] {
      var first := paths[0];
      var r := RemoveOne(media, first, locked);
      if r.Removed? {
        OneTakesOnlyItsOwn(media, first, locked);
        OnlyNamedDirectoriesGo(r.media, paths[1..], locked);
        var rest := SweepAll(r.media, paths[1..], locked);
        ThenThese(media, r.media, rest.media, first, rest.removed);
      }
    }
  }

  lemma {:induction false} ThenThese(
    before: Option<Node>, mid: Option<Node>, after: Option<Node>, first: string, rest: seq<string>)
    requires TookOnly(before, mid, first) && OnlyTheseWent(mid, after, rest) && |Segments(first)| == 3
    ensures OnlyTheseWent(before, after, [first] + rest)
  {
    forall q: Path | |q| >= 3 || IsFile(There(before, q))
      ensures There(after, q) == if Swept([first] + rest, q) then None else There(before, q)
    {
      CoveredByFirstOrRest(first, rest, q);
    }
  }

  lemma CoveredByFirstOrRest(first: string, rest: seq<string>, q: Path)
    ensures Swept([first] + rest, q) <==> Covers(first, q) || Swept(rest, q)
  {
  }

  // Sweeping again

  lemma {:induction false} RootStays(media: Option<Node>, paths: seq<string>, locked: set<Path>)
    ensures SweepAll(media, paths, locked).media.Some? <==> media.Some?
    decreases |paths|
  {
    if paths != [] && RemoveOne(media, paths[0], locked).Removed? {
      RootStays(RemoveOne(media, paths[0], locked).media, paths[1..], locked);
    }
  }

  lemma {:induction false} RemovedAreMissing(media: Option<Node>, paths: seq<string>, locked: set<Path>)
    requires Sound(media)
    ensures var s := SweepAll(media, paths, locked);
      forall c | c in s.removed :: Read(s.media, Segments(c)) == Missing
    decreases |paths|
  {
    if paths != [] {
      var r := RemoveOne(media, paths[0], locked);
      if r.Removed? {
        OneTakesOnlyItsOwn(media, paths[0], locked);
        RemovedAreMissing(r.media, paths[1..], locked);
        FirstRemovedIsMissing(media, paths, locked);
        var s, rest := SweepAll(media, paths, locked), SweepAll(r.media, paths[1..], locked);
        assert s.removed == [paths[0]] + rest.removed && s.media == rest.media;
      }
    }
  }

  lemma {:induction false} FirstRemovedIsMissing(media: Option<Node>, paths: seq<string>, locked: set<Path>)
    requires Sound(media) && paths != [] && RemoveOne(media, paths[0], locked).Removed?
    ensures Read(SweepAll(media, paths, locked).media, Segments(paths[0])) == Missing
  {
    var s, parts := SweepAll(media, paths, locked), Segments(paths[0]);
    OneTakesOnlyItsOwn(media, paths[0], locked);
    OnlyNamedDirectoriesGo(media, paths, locked);
    RootStays(media, paths, locked);
    if media.Some? {
      FirstIsReported(media, paths, locked);
      assert Covers(paths[0], parts);
      assert There(s.media, parts) == None;
      GoneIsMissing(media.value, s.media.value, parts);
    }
  }

  lemma {:induction false} FirstIsReported(media: Option<Node>, paths: seq<string>, locked: set<Path>)
    requires paths != [] && RemoveOne(media, paths[0], locked).Removed?
    ensures paths[0] in SweepAll(media, paths, locked).removed
  {
  }

  lemma BlockedComesFromBefore(before: Node, after: Node, parts: Path)
    requires forall q: Path | IsFile(There(Some(after), q)) :: There(Some(before), q) == There(Some(after), q)
    ensures Blocked(after, parts) ==> Blocked(before, parts)
  {
    if Blocked(after, parts) {
      var k: nat :| k <= |parts| && At(after, parts[..k]).Some? && At(after, parts[..k]).value.File?;
      assert IsFile(There(Some(after), parts[..k]));
    }
  }

  lemma {:induction false} GoneIsMissing(before: Node, after: Node, parts: Path)
    requires ReadDir(before, parts) != NotADirectory && At(after, parts) == None
    requires forall q: Path | IsFile(There(Some(after), q)) :: There(Some(before), q) == There(Some(after), q)
    ensures ReadDir(after, parts) == Missing
  {
    BlockedComesFromBefore(before, after, parts);
    ReadDirBlocked(before, parts);
    ReadDirBlocked(after, parts);
    ReadDirIsAt(after, parts);
  }

  lemma OneMissingIsDone(media: Option<Node>, candidate: string, locked: set<Path>)
    requires |Segments(candidate)| == 3 && Safe(Segments(candidate)) && Read(media, Segments(candidate)) == Missing
    ensures RemoveOne(media, candidate, locked) == Removed(media, 0)
  {
  }

  lemma {:induction false} MissingIsDone(media: Option<Node>, paths: seq<string>, locked: set<Path>)
    requires forall c | c in paths :: |Segments(c)| == 3 && Safe(Segments(c)) && Read(media, Segments(c)) == Missing
    ensures SweepAll(media, paths, locked) == Sweep(media, 0, paths, None)
    decreases |paths|
  {
    if paths != [] {
      assert paths[0] in paths;
      OneMissingIsDone(media, paths[0], locked);
      MissingIsDone(media, paths[1..], locked);
      assert paths == [paths[0]] + paths[1..];
    }
  }

  /** A sweep whose answer was lost can be asked for again: it reports the same names removed,
      frees nothing more and changes nothing. */
  lemma RepeatingASweepIsHarmless(media: Option<Node>, paths: seq<string>, locked: set<Path>)
    requires Sound(media)
    ensures var s := SweepAll(media, paths, locked);
      SweepAll(s.media, s.removed, locked) == Sweep(s.media, 0, s.removed, None)
  {
    ReportIsThePrefixDone(media, paths, locked);
    RemovedAreMissing(media, paths, locked);
    var s := SweepAll(media, paths, locked);
    MissingIsDone(s.media, s.removed, locked);
  }

  // No empty folders

  /** Removing something empties at most the folder it was in. */
  lemma {:induction false} EmptiedByRemoval(n: Node, path: Path, d: Path)
    requires Neat(n) && path != [] && At(n, path).Some?
    requires At(Without(n, path), d) == Some(Dir([]))
    ensures d == path[..|path| - 1] || At(n, d) == Some(Dir([]))
  {
    WithoutElsewhere(n, path, d);
    if d <= path && d != path && d != path[..|path| - 1] {
      var next := path[..|d| + 1];
      WithoutElsewhere(n, path, next);
      NothingBelow(Without(n, path), d, next);
      if At(n, next).None? {
        NothingBelow(n, next, path);
      }
    }
  }

  /** Every folder in `n` that is empty, and that the file system would let go of, was empty in
      `before` - but for the folders in `but`. */
  ghost predicate EmptyBefore(before: Node, n: Node, locked: set<Path>, but: set<Path>)
  {
    forall d: Path | d != [] && d !in locked && At(n, d) == Some(Dir([])) ::
      d in but || At(before, d) == Some(Dir([]))
  }

  lemma RemovalEmptiesItsFolder(before: Node, n: Node, path: Path, locked: set<Path>)
    requires Neat(n) && path != [] && At(n, path).Some?
    requires EmptyBefore(before, n, locked, {path})
    ensures EmptyBefore(before, Without(n, path), locked, {path[..|path| - 1]})
  {
    forall d: Path | d != [] && d !in locked && At(Without(n, path), d) == Some(Dir([]))
      ensures d == path[..|path| - 1] || At(before, d) == Some(Dir([]))
    {
      EmptiedByRemoval(n, path, d);
      WithoutElsewhere(n, path, d);
    }
  }

  lemma {:induction false} PruningLeavesNothingEmpty(before: Node, n: Node, dir: Path, locked: set<Path>)
    requires Neat(n) && EmptyBefore(before, n, locked, {dir})
    ensures EmptyBefore(before, Pruned(n, dir, locked), locked, {})
    decreases |dir|
  {
    ReadDirIsAt(n, dir);
    if dir != [] && ReadDir(n, dir) == Listed([]) && dir !in locked {
      WithoutIsNeat(n, dir);
      RemovalEmptiesItsFolder(before, n, dir, locked);
      PruningLeavesNothingEmpty(before, Without(n, dir), dir[..|dir| - 1], locked);
    }
  }

  /** Empty folders after the sweep, apart from those the file system holds on to, were empty
      before it. */
  ghost predicate NoNewEmptyFolders(before: Option<Node>, after: Option<Node>, locked: set<Path>)
  {
    forall d: Path | d != [] && d !in locked && There(after, d) == Some(Dir([])) :: There(before, d) == Some(Dir([]))
  }

  lemma OneLeavesNothingEmpty(media: Option<Node>, candidate: string, locked: set<Path>)
    requires Sound(media)
    ensures var r := RemoveOne(media, candidate, locked);
      r.Removed? ==> NoNewEmptyFolders(media, r.media, locked)
  {
    var parts := Segments(candidate);
    var r := RemoveOne(media, candidate, locked);
    if r.Removed? && Read(media, parts).Listed? {
      var n := media.value;
      ReadDirIsAt(n, parts);
      WithoutIsNeat(n, parts);
      RemovalEmptiesItsFolder(n, n, parts, locked);
      PruningLeavesNothingEmpty(n, Without(n, parts), parts[..2], locked);
      assert forall d: Path :: At(r.media.value, d) == There(r.media, d) && At(n, d) == There(media, d);
    }
  }

  /** A sweep leaves no folder empty that was not, unless the file system holds on to it. */
  lemma {:induction false} SweepsLeaveNothingEmpty(media: Option<Node>, paths: seq<string>, locked: set<Path>)
    requires Sound(media)
    ensures NoNewEmptyFolders(media, SweepAll(media, paths, locked).media, locked)
    decreases |paths|
  {
    if paths != [] {
      var r := RemoveOne(media, paths[0], locked);
      if r.Removed? {
        OneTakesOnlyItsOwn(media, paths[0], locked);
        OneLeavesNothingEmpty(media, paths[0], locked);
        SweepsLeaveNothingEmpty(r.media, paths[1..], locked);
      }
    }
  }

  /** In particular the author and platform of a directory the sweep removed do not stay behind
      empty, unless the file system holds on to that very folder. */
  lemma RemovalLeavesNoEmptyFolder(media: Option<Node>, paths: seq<string>, locked: set<Path>, c: string, k: nat)
    requires Sound(media) && c in SweepAll(media, paths, locked).removed && There(media, Segments(c)).Some?
    requires 1 <= k <= 2 <= |Segments(c)| && Segments(c)[..k] !in locked
    ensures There(SweepAll(media, paths, locked).media, Segments(c)[..k]) != Some(Dir([]))
  {
    ReportIsThePrefixDone(media, paths, locked);
    SweepsLeaveNothingEmpty(media, paths, locked);
    if There(media, Segments(c)[..k]) == Some(Dir([])) {
      NothingBelow(media.value, Segments(c)[..k], Segments(c));
    }
  }

  // Folders that stay

  predicate IsDir(n: Option<Node>)
  {
    n.Some? && n.value.Dir?
  }

  lemma RemovalLeavesFolder(n: Node, path: Path, d: Path)
    requires Neat(n) && path != [] && !(path <= d) && IsDir(At(n, d))
    ensures IsDir(At(Without(n, path), d))
  {
    WithoutElsewhere(n, path, d);
  }

  /** A folder the file system holds on to, or that nothing removed was in. */
  predicate Kept(d: Path, path: Path, locked: set<Path>)
  {
    d in locked || !(d <= path)
  }

  lemma {:induction false} PruningLeavesFolder(n: Node, dir: Path, locked: set<Path>, d: Path)
    requires Neat(n) && IsDir(At(n, d)) && Kept(d, dir, locked)
    ensures IsDir(At(Pruned(n, dir, locked), d))
    decreases |dir|
  {
    if dir != [] && ReadDir(n, dir) == Listed([]) && dir !in locked {
      ReadDirIsAt(n, dir);
      if dir <= d {
        NothingBelow(n, dir, d);
      }
      RemovalLeavesFolder(n, dir, d);
      WithoutIsNeat(n, dir);
      PruningLeavesFolder(Without(n, dir), dir[..|dir| - 1], locked, d);
    }
  }

  lemma OneLeavesFolder(media: Option<Node>, candidate: string, locked: set<Path>, d: Path)
    requires Sound(media) && |d| <= 3 && IsDir(There(media, d)) && Kept(d, Segments(candidate), locked)
    requires RemoveOne(media, candidate, locked).Removed?
    ensures IsDir(There(RemoveOne(media, candidate, locked).media, d))
  {
    var parts := Segments(candidate);
    if Read(media, parts).Listed? {
      assert parts <= d ==> d == parts;
      RemovalLeavesFolder(media.value, parts, d);
      WithoutIsNeat(media.value, parts);
      PruningLeavesFolder(Without(media.value, parts), parts[..2], locked, d);
    }
  }

  /** Emptied parents go, and nothing else of the tree's upper levels: a folder stays when no
      reported directory was in it, and when the file system holds on to it. */
  lemma {:induction false} OtherFoldersStay(media: Option<Node>, paths: seq<string>, locked: set<Path>, d: Path)
    requires Sound(media) && |d| <= 3 && IsDir(There(media, d))
    requires d in locked || forall c | c in SweepAll(media, paths, locked).removed :: !(d <= Segments(c))
    ensures IsDir(There(SweepAll(media, paths, locked).media, d))
    decreases |paths|
  {
    if paths != [] {
      var r := RemoveOne(media, paths[0], locked);
      if r.Removed? {
        var s, rest := SweepAll(media, paths, locked), SweepAll(r.media, paths[1..], locked);
        assert s.removed == [paths[0]] + rest.removed && s.media == rest.media;
        assert paths[0] in s.removed;
        OneTakesOnlyItsOwn(media, paths[0], locked);
        OneLeavesFolder(media, paths[0], locked, d);
        OtherFoldersStay(r.media, paths[1..], locked, d);
      }
    }
  }
}
