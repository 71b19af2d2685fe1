/** The media volume: how large its content directories are, and removing named ones. */
module MediaStore {
  import opened Options
  import opened Text
  import opened MediaTree

  // Names

  predicate Alnum(c: char)
  {
    'A' <= c <= 'Z' || 'a' <= c <= 'z' || '0' <= c <= '9'
  }

  predicate SafeSegment(s: string)
  {
    && 1 <= |s| <= 128
    && Alnum(s[0])
    && (forall i | 1 <= i < |s| :: Alnum(s[i]) || s[i] == '.' || s[i] == '_' || s[i] == '-')
    && !(exists i | 0 <= i < |s| - 1 :: s[i] == '.' && s[i + 1] == '.')
  }

  predicate Safe(path: Path)
  {
    forall s | s in path :: SafeSegment(s)
  }

  /** Go's `unicode.IsSpace`. */
  predicate Space(c: char)
  {
    || '\U{0009}' <= c <= '\U{000D}' || c == ' ' || c == '\U{0085}' || c == '\U{00A0}' || c == '\U{1680}'
    || '\U{2000}' <= c <= '\U{200A}' || c == '\U{2028}' || c == '\U{2029}' || c == '\U{202F}'
    || c == '\U{205F}' || c == '\U{3000}'
  }

  predicate Slash(c: char)
  {
    c == '/'
  }

  /** The segments of a path a caller names. */
  function Segments(candidate: string): Path
  {
    Split(Trim(Trim(candidate, Space), Slash), '/')
  }

  lemma SafeHasNoSeparator(s: string)
    requires SafeSegment(s)
    ensures s != "" && '/' !in s && Trimmed(s, Space) && Trimmed(s, Slash)
  {
  }

  /** A path built from safe segments is read back as those segments, and only then is it one
      the volume acts on. */
  lemma NamedPathsAreRead(path: Path)
    requires path != [] && Safe(path)
    ensures Segments(Join(path, '/')) == path
  {
    var text := Join(path, '/');
    forall s | s in path ensures s != "" && '/' !in s && Trimmed(s, Space) && Trimmed(s, Slash) {
      SafeHasNoSeparator(s);
    }
    assert path[0] in path;
    JoinEnds(path, '/', Space);
    JoinEnds(path, '/', Slash);
    TrimmedIsFixed(text, Space);
    TrimmedIsFixed(text, Slash);
    SplitJoin(path, '/');
  }

  /** Blanks around a named path and slashes within those are not part of it. */
  lemma SurroundingsAreDropped(path: Path, blanks: string, slashes: string, slashes': string, blanks': string)
    requires path != [] && Safe(path)
    requires forall c | c in blanks || c in blanks' :: Space(c)
    requires forall c | c in slashes || c in slashes' :: c == '/'
    ensures Segments(blanks + (slashes + Join(path, '/') + slashes') + blanks') == path
  {
    var text := Join(path, '/');
    NamedPathsAreRead(path);
    assert path[0] in path;
    forall s | s in path ensures s != "" && Trimmed(s, Space) && Trimmed(s, Slash) {
      SafeHasNoSeparator(s);
    }
    JoinEnds(path, '/', Space);
    JoinEnds(path, '/', Slash);
    EndsOfSlashed(text, slashes, slashes');
    TrimAround(blanks, slashes + text + slashes', blanks', Space);
    TrimAround(slashes, text, slashes', Slash);
    TrimmedIsFixed(text, Space);
    TrimmedIsFixed(text, Slash);
  }

  lemma EndsOfSlashed(text: string, slashes: string, slashes': string)
    requires text != "" && Trimmed(text, Space) && forall c | c in slashes || c in slashes' :: c == '/'
    ensures slashes + text + slashes' != "" && Trimmed(slashes + text + slashes', Space)
  {
    var s := slashes + text + slashes';
    assert s[0] == if slashes == "" then text[0] else slashes[0];
    assert s[|s| - 1] == if slashes' == "" then text[|text| - 1] else slashes'[|slashes'| - 1];
    assert slashes != "" ==> slashes[0] in slashes;
    assert slashes' != "" ==> slashes'[|slashes'| - 1] in slashes';
  }

  /** One component of a path, told from its text: letters, digits, dots, underscores and hyphens,
      at most 128 of them, beginning with a letter or a digit, and nowhere two dots in a row. */
  ghost predicate OneName(s: string)
  {
    && s != "" && |s| <= 128
    && (forall c | c in s ::
          'A' <= c <= 'Z' || 'a' <= c <= 'z' || '0' <= c <= '9' || c == '.' || c == '_' || c == '-')
    && s[0] !in "._-"
    && forall i | 0 < i < |s| && s[i] == '.' :: s[i - 1] != '.'
  }

  /** Exactly such components are let through. */
  lemma SafeSegmentsAreNames(s: string)
    ensures SafeSegment(s) <==> OneName(s)
  {
    assert forall i | 0 <= i < |s| :: s[i] in s;
    if OneName(s) {
      forall i | 0 <= i < |s| - 1 && s[i] == '.' ensures s[i + 1] != '.' {
      }
    }
  }

  // Measuring

  datatype Measured = Measured(files: nat, bytes: nat, modified: nat)

  function FileCount(l: Listing): nat
  {
    if l == [] then 0 else FileCount(l[..|l| - 1]) + (if l[|l| - 1].1.File? then 1 else 0)
  }

  /** The newest file's time; zero for a directory without files. */
  function Latest(l: Listing): (t: nat)
    ensures forall i | 0 <= i < |l| :: l[i].1.File? ==> l[i].1.modified <= t
    ensures t == 0 || exists i | 0 <= i < |l| :: l[i].1.File? && l[i].1.modified == t
  {
    if l == [] then 0
    else
      var rest := Latest(l[..|l| - 1]);
      match l[|l| - 1].1
      case Dir(_) => rest
      case File(_, modified) => if modified > rest then modified else rest
  }

  function Measurement(l: Listing): Measured
  {
    Measured(FileCount(l), Bytes(l, 0), Latest(l))
  }

  lemma MeasuringOneMore(l: Listing, e: (string, Node))
    ensures Measurement([]) == Measured(0, 0, 0)
    ensures var m := Measurement(l);
      Measurement(l + [e]) ==
        match e.1
        case Dir(_) => m
        case File(size, modified) =>
          Measured(m.files + 1, m.bytes + size, if modified > m.modified then modified else m.modified)
  {
    assert (l + [e])[..|l|] == l;
    assert Share(e.1, 0) == if e.1.File? then e.1.size else 0;
  }

  method Measure(l: Listing) returns (m: Measured)
    ensures m == Measurement(l)
  {
    m := Measured(0, 0, 0);
    for i := 0 to |l|
      invariant m == Measurement(l[..i])
    {
      MeasuringOneMore(l[..i], l[i]);
      assert l[..i + 1] == l[..i] + [l[i]];
      match l[i].1 {
        case Dir(_) =>
        case File(size, modified) =>
          m := m.(files := m.files + 1, bytes := m.bytes + size);
          if modified > m.modified {
            m := m.(modified := modified);
          }
      }
    }
    assert l[..|l|] == l;
  }

  // Removing

  datatype Refusal = NotThreeLevels | UnsafeSegment | NotReadable | NotRemovable

  datatype Sweep = Sweep(media: Option<Node>, freed: nat, removed: seq<string>, refusal: Option<Refusal>)

  datatype Removal = Removed(media: Option<Node>, freed: nat) | Refused(why: Refusal)

  function Read(media: Option<Node>, path: Path): Reading
  {
    if media.None? then Missing else ReadDir(media.value, path)
  }

  /** Empty directories go, from `path` upwards, until one is in use or cannot be removed. */
  function Pruned(n: Node, path: Path, locked: set<Path>): Node
    decreases |path|
  {
    if path == [] || ReadDir(n, path) != Listed([]) || path in locked then n
    else Pruned(Without(n, path), path[..|path| - 1], locked)
  }

  /** One candidate. `locked` are the directories the file system will not let go of. */
  function RemoveOne(media: Option<Node>, candidate: string, locked: set<Path>): Removal
  {
    var parts := Segments(candidate);
    if |parts| != 3 then Refused(NotThreeLevels)
    else if !Safe(parts) then Refused(UnsafeSegment)
    else
      match Read(media, parts)
      case Missing => Removed(media, 0)
      case NotADirectory => Refused(NotReadable)
      case Listed(l) =>
        if parts in locked then Refused(NotRemovable)
        else Removed(Some(Pruned(Without(media.value, parts), parts[..2], locked)), Bytes(l, 0))
  }

  /** Which names are refused before the volume is looked at, and which directories after. */
  lemma RefusesExactlyTheseNames(media: Option<Node>, candidate: string, locked: set<Path>)
    ensures var parts, r := Segments(candidate), RemoveOne(media, candidate, locked);
      && (r == Refused(NotThreeLevels) <==> |parts| != 3)
      && (r == Refused(UnsafeSegment) <==> |parts| == 3 && exists s :: s in parts && !OneName(s))
      && (r == Refused(NotRemovable) ==> parts in locked)
      && (r.Removed? && parts in locked ==> Read(media, parts) == Missing && r.media == media && r.freed == 0)
  {
    forall s ensures SafeSegment(s) <==> OneName(s) {
      SafeSegmentsAreNames(s);
    }
  }

  /** A sweep counted on from what was already done. */
  function Onto(freed: nat, removed: seq<string>, rest: Sweep): Sweep
  {
    rest.(freed := freed + rest.freed, removed := removed + rest.removed)
  }

  /** All of them, up to the first refusal. */
  function SweepAll(media: Option<Node>, paths: seq<string>, locked: set<Path>): Sweep
    decreases |paths|
  {
    if paths == [] then Sweep(media, 0, [], None)
    else
      match RemoveOne(media, paths[0], locked)
      case Refused(why) => Sweep(media, 0, [], Some(why))
      case Removed(media', freed) =>
        Onto(freed, [paths[0]], SweepAll(media', paths[1..], locked))
  }

  lemma OneMoreSwept(
    media: Option<Node>, paths: seq<string>, locked: set<Path>, i: nat, freed: nat, removed: seq<string>)
    requires i < |paths|
    ensures match RemoveOne(media, paths[i], locked)
      case Refused(why) =>
        Onto(freed, removed, SweepAll(media, paths[i..], locked)) == Sweep(media, freed, removed, Some(why))
      case Removed(media', bytes) =>
        Onto(freed, removed, SweepAll(media, paths[i..], locked))
        == Onto(freed + bytes, removed + [paths[i]], SweepAll(media', paths[i + 1..], locked))
  {
    assert paths[i..][0] == paths[i] && paths[i..][1..] == paths[i + 1..];
    var r := RemoveOne(media, paths[i], locked);
    if r.Removed? {
      var rest := SweepAll(r.media, paths[i + 1..], locked);
      assert removed + ([paths[i]] + rest.removed) == (removed + [paths[i]]) + rest.removed;
    } else {
      assert removed + [] == removed;
    }
  }

  function Total(media: Option<Node>): nat
  {
    if media.None? then 0 else Share(media.value, 4)
  }

  class MediaVolume {
    var media: Option<Node>

    constructor (content: Option<Node>)
      ensures media == content
    {
      media := content;
    }

    method PruneEmpty(start: Path, locked: set<Path>)
      requires media.Some?
      modifies this
      ensures media == Some(Pruned(old(media).value, start, locked))
    {
      var path := start;
      while path != []
        invariant media.Some?
        invariant Pruned(media.value, path, locked) == Pruned(old(media).value, start, locked)
        decreases |path|
      {
        var listing := ReadDir(media.value, path);
        if listing != Listed([]) {
          return;
        }
        if path in locked {
          return;
        }
        media := Some(Without(media.value, path));
        path := path[..|path| - 1];
      }
    }

    method Remove(candidate: string, locked: set<Path>) returns (refusal: Option<Refusal>, bytes: nat)
      modifies this
      ensures match RemoveOne(old(media), candidate, locked)
        case Refused(why) => refusal == Some(why) && media == old(media)
        case Removed(after, freed) => refusal == None && media == after && bytes == freed
    {
      refusal, bytes := None, 0;
      var parts := Segments(candidate);
      if |parts| != 3 {
        return Some(NotThreeLevels), 0;
      }
      if !Safe(parts) {
        return Some(UnsafeSegment), 0;
      }
      match Read(media, parts) {
        case Missing =>
        case NotADirectory =>
          refusal := Some(NotReadable);
        case Listed(listing) =>
          var measured := Measure(listing);
          if parts in locked {
            return Some(NotRemovable), 0;
          }
          media := Some(Without(media.value, parts));
          bytes := measured.bytes;
          PruneEmpty(parts[..2], locked);
      }
    }

    method RemoveAll(paths: seq<string>, locked: set<Path>)
      returns (freed: nat, removed: seq<string>, refusal: Option<Refusal>)
      modifies this
      ensures Sweep(media, freed, removed, refusal) == SweepAll(old(media), paths, locked)
    {
      freed, removed, refusal := 0, [], None;
      for i := 0 to |paths|
        invariant refusal.None?
        invariant SweepAll(old(media), paths, locked) == Onto(freed, removed, SweepAll(media, paths[i..], locked))
      {
        OneMoreSwept(media, paths, locked, i, freed, removed);
        var bytes;
        refusal, bytes := Remove(paths[i], locked);
        if refusal.Some? {
          return;
        }
        freed := freed + bytes;
        removed := removed + [paths[i]];
      }
    }
  }

  // Accounting

  lemma {:induction false} PruningFreesNothing(n: Node, path: Path, locked: set<Path>)
    requires |path| <= 2
    ensures Share(Pruned(n, path, locked), 4) == Share(n, 4)
    decreases |path|
  {
    if path != [] && ReadDir(n, path) == Listed([]) && path !in locked {
      ReadDirIsAt(n, path);
      WithoutTakesItsShare(n, path, 4);
      PruningFreesNothing(Without(n, path), path[..|path| - 1], locked);
    }
  }

  lemma OneFreesWhatItTakes(media: Option<Node>, candidate: string, locked: set<Path>)
    ensures var r := RemoveOne(media, candidate, locked);
      r.Removed? ==> Total(media) == Total(r.media) + r.freed
  {
    var parts := Segments(candidate);
    if RemoveOne(media, candidate, locked).Removed? && Read(media, parts).Listed? {
      ReadDirIsAt(media.value, parts);
      WithoutTakesItsShare(media.value, parts, 4);
      PruningFreesNothing(Without(media.value, parts), parts[..2], locked);
    }
  }

  /** The bytes reported freed are what the total went down by, for any list of candidates,
      repeated ones included, whether or not the sweep was stopped by a refusal. */
  lemma {:induction false} FreedIsWhatLeft(media: Option<Node>, paths: seq<string>, locked: set<Path>)
    ensures var s := SweepAll(media, paths, locked);
      Total(media) == Total(s.media) + s.freed
    decreases |paths|
  {
    if paths != [] {
      var r := RemoveOne(media, paths[0], locked);
      if r.Removed? {
        OneFreesWhatItTakes(media, paths[0], locked);
        FreedIsWhatLeft(r.media, paths[1..], locked);
      }
    }
  }
}
