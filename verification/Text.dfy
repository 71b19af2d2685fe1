/** Strings cut at a separator and glued back together: what `split`, `partition`,
    `join` and `strip` do in the sources, and the laws that make them inverses. */
module Text {

  /** Position of the first `c`, or `|s|` when there is none. */
  function IndexOf(s: string, c: char): (i: nat)
    ensures i <= |s|
    ensures c !in s[..i]
    ensures i < |s| ==> s[i] == c
  {
    if s == "" then 0
    else if s[0] == c then 0
    else
      var j := IndexOf(s[1..], c);
      assert s[..1 + j] == [s[0]] + s[1..][..j];
      1 + j
  }

  function Split(s: string, c: char): (parts: seq<string>)
    ensures parts != []
    ensures forall p | p in parts :: c !in p
  {
    var i := IndexOf(s, c);
    if i == |s| then
      assert s[..i] == s;
      [s]
    else
      [s[..i]] + Split(s[i + 1..], c)
  }

  function Join(parts: seq<string>, c: char): string
  {
    if parts == [] then ""
    else if |parts| == 1 then parts[0]
    else parts[0] + [c] + Join(parts[1..], c)
  }

  lemma {:induction false} IndexOfAppend(a: string, c: char, b: string)
    requires c !in a
    ensures IndexOf(a + [c] + b, c) == |a|
    ensures IndexOf(a, c) == |a|
  {
    if a != "" {
      IndexOfAppend(a[1..], c, b);
      assert (a + [c] + b)[1..] == a[1..] + [c] + b;
    }
  }

  lemma SplitAppend(a: string, c: char, b: string)
    requires c !in a
    ensures Split(a + [c] + b, c) == [a] + Split(b, c)
    ensures Split(a, c) == [a]
  {
    var s := a + [c] + b;
    IndexOfAppend(a, c, b);
    assert s[..|a|] == a;
    assert s[|a| + 1..] == b;
  }

  /** Splitting undoes joining, for any non-empty list of separator-free parts. */
  lemma {:induction false} SplitJoin(parts: seq<string>, c: char)
    requires parts != []
    requires forall p | p in parts :: c !in p
    ensures Split(Join(parts, c), c) == parts
  {
    assert parts[0] in parts;
    if |parts| == 1 {
      SplitAppend(parts[0], c, "");
    } else {
      SplitAppend(parts[0], c, Join(parts[1..], c));
      SplitJoin(parts[1..], c);
      assert parts == [parts[0]] + parts[1..];
    }
  }

  /** Python's `partition`: the text before the first `c`, whether there was one, the rest. */
  function Partition(s: string, c: char): (r: (string, bool, string))
  {
    var i := IndexOf(s, c);
    if i == |s| then (s, false, "") else (s[..i], true, s[i + 1..])
  }

  lemma PartitionAppend(a: string, c: char, b: string)
    requires c !in a
    ensures Partition(a + [c] + b, c) == (a, true, b)
  {
    IndexOfAppend(a, c, b);
    var s := a + [c] + b;
    assert s[..|a|] == a && s[|a| + 1..] == b;
  }

  /** Two texts that agree around their first `c` are the same pieces. */
  lemma SameAroundFirst(a: string, b: string, a': string, b': string, c: char)
    requires c !in a && c !in a'
    requires a + [c] + b == a' + [c] + b'
    ensures a == a' && b == b'
  {
    PartitionAppend(a, c, b);
    PartitionAppend(a', c, b');
  }

  // Trimming

  /** The text without the leading characters in `cut`. */
  function TrimLeft(s: string, cut: char -> bool): (r: string)
    ensures r != "" ==> !cut(r[0])
    ensures forall c | c in r :: c in s
  {
    if s == "" then s else if cut(s[0]) then TrimLeft(s[1..], cut) else s
  }

  function TrimRight(s: string, cut: char -> bool): (r: string)
    ensures r != "" ==> !cut(r[|r| - 1])
    ensures r <= s
  {
    if s == "" then s else if cut(s[|s| - 1]) then TrimRight(s[..|s| - 1], cut) else s
  }

  function Trim(s: string, cut: char -> bool): (r: string)
    ensures Trimmed(r, cut)
    ensures forall c | c in r :: c in s
  {
    TrimRight(TrimLeft(s, cut), cut)
  }

  /** Trimming would leave it alone. */
  predicate Trimmed(s: string, cut: char -> bool)
  {
    s == "" || (!cut(s[0]) && !cut(s[|s| - 1]))
  }

  lemma TrimmedIsFixed(s: string, cut: char -> bool)
    ensures Trimmed(s, cut) <==> Trim(s, cut) == s
  {
  }

  /** What is to be cut off goes on both sides of a text that needs no trimming. */
  lemma {:induction false} TrimAround(pre: string, s: string, post: string, cut: char -> bool)
    requires s != "" && Trimmed(s, cut)
    requires forall c | c in pre || c in post :: cut(c)
    ensures Trim(pre + s + post, cut) == s
  {
    TrimLeftSkips(pre, s + post, cut);
    assert pre + s + post == pre + (s + post);
    TrimRightSkips(s, post, cut);
  }

  lemma {:induction false} TrimLeftSkips(pre: string, s: string, cut: char -> bool)
    requires s != "" && !cut(s[0]) && forall c | c in pre :: cut(c)
    ensures TrimLeft(pre + s, cut) == s
  {
    if pre == "" {
      assert pre + s == s;
    } else {
      assert (pre + s)[1..] == pre[1..] + s && pre[0] in pre;
      TrimLeftSkips(pre[1..], s, cut);
    }
  }

  lemma {:induction false} TrimRightSkips(s: string, post: string, cut: char -> bool)
    requires s != "" && !cut(s[|s| - 1]) && forall c | c in post :: cut(c)
    ensures TrimRight(s + post, cut) == s
  {
    if post == "" {
      assert s + post == s;
    } else {
      var n := |post| - 1;
      assert (s + post)[..|s + post| - 1] == s + post[..n] && post[n] in post;
      TrimRightSkips(s, post[..n], cut);
    }
  }

  /** Joined parts begin and end as the first and the last of them do. */
  lemma {:induction false} JoinEnds(parts: seq<string>, c: char, cut: char -> bool)
    requires parts != [] && parts[0] != ""
    requires forall p | p in parts :: p != "" && Trimmed(p, cut)
    ensures Join(parts, c) != "" && Join(parts, c)[0] == parts[0][0] && Trimmed(Join(parts, c), cut)
  {
    assert parts[0] in parts;
    if |parts| > 1 {
      var rest := parts[1..];
      forall p | p in rest ensures p in parts {
        var i :| 0 <= i < |rest| && rest[i] == p;
        assert parts[i + 1] == p;
      }
      assert rest[0] in parts;
      JoinEnds(rest, c, cut);
    }
  }

  lemma {:induction false} JoinKeeps(parts: seq<string>, c: char, k: nat, x: char)
    requires k < |parts| && x in parts[k]
    ensures x in Join(parts, c)
  {
    if k > 0 {
      JoinKeeps(parts[1..], c, k - 1, x);
    }
  }

  /** Trimming on the right takes nothing before a character that stays. */
  lemma {:induction false} TrimRightStops(s: string, cut: char -> bool, i: nat)
    requires i < |s| && !cut(s[i])
    ensures s[..i + 1] <= TrimRight(s, cut)
  {
    if cut(s[|s| - 1]) {
      TrimRightStops(s[..|s| - 1], cut, i);
    }
  }

  /** Nothing is in joined parts but what is in a part, and the separator. */
  lemma {:induction false} JoinHolds(parts: seq<string>, c: char, x: char)
    requires x != c && forall p | p in parts :: x !in p
    ensures x !in Join(parts, c)
  {
    if parts != [] {
      assert parts[0] in parts;
      JoinHolds(parts[1..], c, x);
    }
  }

  // Numbers in decimal

  const DIGITS := "0123456789"

  function Digits(n: nat): (s: string)
    ensures s != "" && '.' !in s
  {
    if n < 10 then [DIGITS[n]] else Digits(n / 10) + [DIGITS[n % 10]]
  }
}
