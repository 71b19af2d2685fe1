/** A directory tree: reading it, removing from it, and what removals do to the bytes on it. */
module MediaTree {
  import opened Dicts
  import opened Options

  // The file system

  datatype Node =
    | File(size: nat, modified: nat)
    | Dir(entries: seq<(string, Node)>)

  type Listing = seq<(string, Node)>
  type Path = seq<string>

  function Child(l: Listing, name: string): Option<Node>
  {
    var i := Find(l, name);
    if i == |l| then None else Some(l[i].1)
  }

  /** No directory holds two entries of one name. */
  ghost predicate Neat(n: Node)
  {
    n.Dir? ==>
      && Distinct(n.entries)
      && (forall i | 0 <= i < |n.entries| :: Neat(n.entries[i].1))
  }

  function At(n: Node, path: Path): Option<Node>
    decreases |path|
  {
    if path == [] then Some(n)
    else if n.File? then None
    else
      match Child(n.entries, path[0])
      case None => None
      case Some(child) => At(child, path[1..])
  }

  /** The tree without what is at `path`. */
  function Without(n: Node, path: Path): Node
    requires path != []
    decreases |path|
  {
    if n.File? then n
    else
      var i := Find(n.entries, path[0]);
      if i == |n.entries| then n
      else if |path| == 1 then Dir(n.entries[..i] + n.entries[i + 1..])
      else Dir(n.entries[i := (path[0], Without(n.entries[i].1, path[1..]))])
  }

  datatype Reading = Missing | NotADirectory | Listed(entries: Listing)

  /** `os.ReadDir`: nothing there, something else there, or the listing. */
  function ReadDir(n: Node, path: Path): Reading
    decreases |path|
  {
    if n.File? then NotADirectory
    else if path == [] then Listed(n.entries)
    else
      match Child(n.entries, path[0])
      case None => Missing
      case Some(child) => ReadDir(child, path[1..])
  }

  lemma {:induction false} ReadDirIsAt(n: Node, path: Path)
    ensures var r := ReadDir(n, path);
      && (r.Listed? <==> At(n, path).Some? && At(n, path).value.Dir?)
      && (r.Listed? ==> At(n, path) == Some(Dir(r.entries)))
      && (r.Missing? ==> At(n, path).None?)
    decreases |path|
  {
    if n.Dir? && path != [] && Child(n.entries, path[0]).Some? {
      ReadDirIsAt(Child(n.entries, path[0]).value, path[1..]);
    }
  }

  // Bytes

  /** What a node adds to the total seen from `level` levels up: only files exactly that deep
      count, so a root counts at level four and a file inside a content directory at zero. */
  function Share(n: Node, level: nat): nat
    decreases level, 0
  {
    match n
    case File(size, _) => if level == 0 then size else 0
    case Dir(entries) => if level == 0 then 0 else Bytes(entries, level - 1)
  }

  function Bytes(l: Listing, level: nat): nat
    decreases level, 1 + |l|
  {
    if l == [] then 0 else Bytes(l[..|l| - 1], level) + Share(l[|l| - 1].1, level)
  }

  lemma {:induction false} BytesConcat(a: Listing, b: Listing, level: nat)
    ensures Bytes(a + b, level) == Bytes(a, level) + Bytes(b, level)
    decreases |b|
  {
    if b == [] {
      assert a + b == a;
    } else {
      BytesConcat(a, b[..|b| - 1], level);
      assert (a + b)[..|a + b| - 1] == a + b[..|b| - 1];
    }
  }

  lemma BytesGrow(l: Listing, i: nat, level: nat)
    requires i < |l|
    ensures Bytes(l[..i + 1], level) == Bytes(l[..i], level) + Share(l[i].1, level)
  {
    assert l[..i + 1][..i] == l[..i];
  }

  lemma BytesAround(l: Listing, i: nat, level: nat)
    requires i < |l|
    ensures Bytes(l, level) == Bytes(l[..i], level) + Share(l[i].1, level) + Bytes(l[i + 1..], level)
  {
    assert l == l[..i + 1] + l[i + 1..];
    assert l[..i + 1][..i] == l[..i];
    BytesConcat(l[..i + 1], l[i + 1..], level);
  }

  lemma BytesRemoved(l: Listing, i: nat, level: nat)
    requires i < |l|
    ensures Bytes(l, level) == Bytes(l[..i] + l[i + 1..], level) + Share(l[i].1, level)
  {
    BytesAround(l, i, level);
    BytesConcat(l[..i], l[i + 1..], level);
  }

  lemma BytesReplaced(l: Listing, i: nat, e: (string, Node), level: nat)
    requires i < |l|
    ensures Bytes(l, level) + Share(e.1, level) == Bytes(l[i := e], level) + Share(l[i].1, level)
  {
    BytesAround(l, i, level);
    BytesAround(l[i := e], i, level);
    assert l[i := e][..i] == l[..i] && l[i := e][i + 1..] == l[i + 1..];
  }

  lemma ShareRemoved(l: Listing, i: nat, level: nat)
    requires i < |l| && level > 0
    ensures Share(Dir(l), level) == Share(Dir(l[..i] + l[i + 1..]), level) + Share(l[i].1, level - 1)
  {
    BytesRemoved(l, i, level - 1);
  }

  lemma ShareReplaced(l: Listing, i: nat, e: (string, Node), level: nat)
    requires i < |l| && level > 0
    ensures Share(Dir(l), level) + Share(e.1, level - 1) == Share(Dir(l[i := e]), level) + Share(l[i].1, level - 1)
  {
    BytesReplaced(l, i, e, level - 1);
  }

  /** Removing a node takes exactly its share off the total. */
  lemma {:induction false} WithoutTakesItsShare(n: Node, path: Path, level: nat)
    requires 0 < |path| <= level && At(n, path).Some?
    ensures Share(n, level) == Share(Without(n, path), level) + Share(At(n, path).value, level - |path|)
    decreases |path|
  {
    var l := n.entries;
    var i := Find(l, path[0]);
    if |path| == 1 {
      ShareRemoved(l, i, level);
    } else {
      var rest := Without(l[i].1, path[1..]);
      assert Without(n, path) == Dir(l[i := (path[0], rest)]);
      WithoutTakesItsShare(l[i].1, path[1..], level - 1);
      ShareReplaced(l, i, (path[0], rest), level);
    }
  }

  // What is left where

  lemma WithoutIsNeat(n: Node, path: Path)
    requires Neat(n) && path != []
    ensures Neat(Without(n, path))
    decreases |path|
  {
    if n.Dir? {
      var i := Find(n.entries, path[0]);
      if i < |n.entries| && |path| > 1 {
        WithoutIsNeat(n.entries[i].1, path[1..]);
      }
    }
  }

  lemma ChildAt(l: Listing, i: nat)
    requires Distinct(l) && i < |l|
    ensures Child(l, l[i].0) == Some(l[i].1)
  {
  }

  lemma ChildAfterRemoval(l: Listing, i: nat, name: string)
    requires Distinct(l) && i < |l|
    ensures Child(l[..i] + l[i + 1..], name) == if name == l[i].0 then None else Child(l, name)
  {
    var l' := l[..i] + l[i + 1..];
    forall k | 0 <= k < |l'| ensures l'[k] == l[if k < i then k else k + 1] && l'[k].0 != l[i].0 {
    }
    var j := Find(l, name);
    if name != l[i].0 && j < |l| {
      assert l'[if j < i then j else j - 1] == l[j];
      ChildAt(l', if j < i then j else j - 1);
    }
  }

  lemma ChildAfterReplacing(l: Listing, i: nat, n: Node, name: string)
    requires Distinct(l) && i < |l|
    ensures Child(l[i := (l[i].0, n)], name) == if name == l[i].0 then Some(n) else Child(l, name)
  {
    var l' := l[i := (l[i].0, n)];
    forall k | 0 <= k < |l| ensures l'[k].0 == l[k].0 {
    }
    var j := Find(l, name);
    if j < |l| {
      ChildAt(l', j);
      ChildAt(l, j);
    }
  }

  /** Removing `path` removes that, what is below it, and nothing else; a file elsewhere or a
      directory not above it is untouched. */
  lemma {:induction false} WithoutElsewhere(n: Node, path: Path, q: Path)
    requires Neat(n) && path != []
    ensures path <= q ==> At(Without(n, path), q) == None
    ensures !(path <= q) && !(q <= path) ==> At(Without(n, path), q) == At(n, q)
    ensures !(path <= q) && At(n, q).Some? && At(n, q).value.File? ==> At(Without(n, path), q) == At(n, q)
    ensures !(path <= q) ==> At(Without(n, path), q).Some? == At(n, q).Some?
    ensures At(Without(n, path), q).Some? && At(Without(n, path), q).value.File? ==>
              At(n, q) == At(Without(n, path), q)
    decreases |path|
  {
    if n.Dir? && q != [] && Child(n.entries, path[0]).Some? {
      var l := n.entries;
      var i := Find(l, path[0]);
      if |path| == 1 {
        ChildAfterRemoval(l, i, q[0]);
      } else {
        ChildAfterReplacing(l, i, Without(l[i].1, path[1..]), q[0]);
        if q[0] == path[0] {
          WithoutElsewhere(l[i].1, path[1..], q[1..]);
          assert path == [path[0]] + path[1..] && q == [q[0]] + q[1..];
        }
      }
    }
  }

  /** A listing below something missing, or below an empty directory, is missing too. */
  lemma {:induction false} NothingBelow(n: Node, path: Path, q: Path)
    requires path <= q
    requires At(n, path) == None || (path != q && At(n, path) == Some(Dir([])))
    ensures At(n, q) == None
    decreases |path|
  {
    if n.Dir? && path != [] && Child(n.entries, path[0]).Some? {
      NothingBelow(Child(n.entries, path[0]).value, path[1..], q[1..]);
    }
  }

  ghost predicate Blocked(n: Node, path: Path)
  {
    exists k: nat | k <= |path| :: At(n, path[..k]).Some? && At(n, path[..k]).value.File?
  }

  lemma {:induction false} ReadDirBlocked(n: Node, path: Path)
    ensures ReadDir(n, path).NotADirectory? <==> Blocked(n, path)
    decreases |path|
  {
    if n.File? {
      assert At(n, path[..0]) == Some(n);
    } else if path != [] {
      var child := Child(n.entries, path[0]);
      forall k: nat | k <= |path| ensures
        At(n, path[..k]) ==
          if k == 0 then Some(n) else if child.None? then None else At(child.value, path[1..][..k - 1])
      {
        if k > 0 {
          assert path[..k][1..] == path[1..][..k - 1];
        }
      }
      if child.Some? {
        ReadDirBlocked(child.value, path[1..]);
        if Blocked(child.value, path[1..]) {
          var k: nat :| k <= |path[1..]|
            && At(child.value, path[1..][..k]).Some? && At(child.value, path[1..][..k]).value.File?;
          assert path[1..][..k] == path[1..][..(k + 1) - 1];
          assert At(n, path[..k + 1]) == At(child.value, path[1..][..k]);
        }
      }
    }
  }
}
