/** Lists without repeats, and what becomes of them when elements are added and dropped. */
module Lists {

  ghost predicate NoRepeats<X>(q: seq<X>)
  {
    forall i, j | 0 <= i < j < |q| :: q[i] != q[j]
  }

  function DropFirst<X(==)>(q: seq<X>, x: X): seq<X>
  {
    if q == [] then []
    else if q[0] == x then q[1..]
    else [q[0]] + DropFirst(q[1..], x)
  }

  function Elements<X(==)>(q: seq<X>): set<X>
  {
    set x | x in q
  }

  lemma {:induction false} PrependDiffers<X>(x: X, q: seq<X>)
    ensures NoRepeats([x] + q) <==> NoRepeats(q) && x !in q
  {
    var all := [x] + q;
    assert forall i | 0 <= i < |q| :: all[i + 1] == q[i];
    if NoRepeats(all) {
      forall i | 0 <= i < |q| ensures q[i] != x {
        assert all[0] != all[i + 1];
      }
    }
  }

  lemma {:induction false} AppendDiffers<X>(q: seq<X>, x: X)
    requires NoRepeats(q) && x !in q
    ensures NoRepeats(q + [x])
  {
  }

  lemma {:induction false} DropFirstDrops<X>(q: seq<X>, x: X)
    requires NoRepeats(q)
    ensures NoRepeats(DropFirst(q, x))
    ensures forall y :: y in DropFirst(q, x) <==> y in q && y != x
    ensures |DropFirst(q, x)| == if x in q then |q| - 1 else |q|
  {
    if q != [] {
      var rest := q[1..];
      assert q == [q[0]] + rest;
      PrependDiffers(q[0], rest);
      if q[0] != x {
        DropFirstDrops(rest, x);
        PrependDiffers(q[0], DropFirst(rest, x));
      }
    }
  }

  /** A search that passed the first `i` elements. */
  lemma {:induction false} DropFirstFrom<X>(q: seq<X>, x: X, i: nat)
    requires i <= |q| && x !in q[..i]
    ensures DropFirst(q, x) == q[..i] + DropFirst(q[i..], x)
    decreases i
  {
    if i > 0 {
      assert q[0] == q[..i][0] && q[1..][..i - 1] == q[..i][1..];
      DropFirstFrom(q[1..], x, i - 1);
      assert q[1..][i - 1..] == q[i..];
      assert q[..i] == [q[0]] + q[1..][..i - 1];
    } else {
      assert q[0..] == q && q[..0] == [];
    }
  }

  lemma {:induction false} CutApart<X>(q: seq<X>, k: nat)
    requires NoRepeats(q) && k <= |q|
    ensures NoRepeats(q[k..])
    ensures forall x :: x in q[k..] <==> x in q && x !in q[..k]
  {
  }

  lemma Regroup<X>(a: seq<X>, b: seq<X>, c: seq<X>)
    ensures a + (b + c) == a + b + c
  {
  }

  lemma TakeOfTail<X>(q: seq<X>, i: nat)
    requires 0 < i <= |q|
    ensures q[..i][0] == q[0] && q[..i][1..] == q[1..][..i - 1]
  {
  }

  lemma PrefixGrows<X>(x: X, a: seq<X>, b: seq<X>)
    ensures [x] + a <= [x] + b <==> a <= b
    ensures [x] + a == [x] + b <==> a == b
  {
    assert ([x] + a)[1..] == a && ([x] + b)[1..] == b;
  }

  lemma ElementsGrow<X>(q: seq<X>, x: X)
    ensures Elements(q + [x]) == Elements(q) + {x}
  {
  }

  lemma {:induction false} SubsetIsSmaller<X>(a: set<X>, b: set<X>)
    requires a <= b
    ensures |a| <= |b|
  {
    assert b == a + (b - a);
  }
}
