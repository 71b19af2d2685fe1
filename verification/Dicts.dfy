/** Python dictionaries of strings: entries in insertion order, at most one per key. */
module Dicts {

  type Entry = (string, string)

  ghost predicate Distinct<V>(d: seq<(string, V)>)
  {
    forall i, j | 0 <= i < j < |d| :: d[i].0 != d[j].0
  }

  /** The mapping a dictionary stands for, whatever order it was filled in. */
  function AsMap(d: seq<Entry>): map<string, string>
  {
    if d == [] then map[] else AsMap(d[..|d| - 1])[d[|d| - 1].0 := d[|d| - 1].1]
  }

  /** Position of the entry for `k`, or `|d|`. */
  function Find<V>(d: seq<(string, V)>, k: string): (i: nat)
    ensures i <= |d|
    ensures i < |d| ==> d[i].0 == k
    ensures forall j | 0 <= j < i :: d[j].0 != k
  {
    if d == [] then 0
    else if d[0].0 == k then 0
    else 1 + Find(d[1..], k)
  }

  /** `d[k] = v`: an existing key keeps its place, a new one goes to the end. */
  function Put(d: seq<Entry>, k: string, v: string): seq<Entry>
  {
    var i := Find(d, k);
    if i < |d| then d[i := (k, v)] else d + [(k, v)]
  }

  predicate Has<V>(d: seq<(string, V)>, k: string)
  {
    Find(d, k) < |d|
  }

  lemma HasAt<V>(d: seq<(string, V)>, i: nat)
    requires i < |d|
    ensures Has(d, d[i].0)
    ensures Distinct(d) ==> Find(d, d[i].0) == i
  {
  }

  lemma {:induction false} AsMapKeys(d: seq<Entry>, k: string)
    ensures k in AsMap(d) <==> Has(d, k)
  {
    if d != [] {
      var last := |d| - 1;
      AsMapKeys(d[..last], k);
      if Has(d[..last], k) {
        HasAt(d, Find(d[..last], k));
      }
      if Has(d, k) && Find(d, k) < last {
        HasAt(d[..last], Find(d, k));
      }
      if d[last].0 == k {
        HasAt(d, last);
      }
    }
  }

  lemma {:induction false} AsMapAt(d: seq<Entry>, i: nat)
    requires Distinct(d) && i < |d|
    ensures d[i].0 in AsMap(d) && AsMap(d)[d[i].0] == d[i].1
  {
    var last := |d| - 1;
    if i < last {
      AsMapAt(d[..last], i);
      assert d[i].0 != d[last].0;
    }
  }

  /** `m` holds exactly the entries of `d`. */
  ghost predicate Holds(d: seq<Entry>, m: map<string, string>)
  {
    && (forall j | 0 <= j < |d| :: d[j].0 in m && m[d[j].0] == d[j].1)
    && (forall x | x in m :: Has(d, x))
  }

  lemma HoldsAt(d: seq<Entry>, m: map<string, string>, x: string)
    requires Distinct(d) && Holds(d, m)
    ensures x in AsMap(d) <==> x in m
    ensures x in m ==> AsMap(d)[x] == m[x]
  {
    AsMapKeys(d, x);
    if Has(d, x) {
      AsMapAt(d, Find(d, x));
    }
  }

  /** A distinct-key dictionary is the map it agrees with entry by entry. */
  lemma SameEntriesSameMap(d: seq<Entry>, m: map<string, string>)
    requires Distinct(d) && Holds(d, m)
    ensures AsMap(d) == m
  {
    forall x ensures x in AsMap(d) <==> x in m ensures x in m ==> AsMap(d)[x] == m[x] {
      HoldsAt(d, m, x);
    }
  }

  /** Assigning a key changes the mapping at that key only, and keeps keys distinct. */
  lemma PutAssigns(d: seq<Entry>, k: string, v: string)
    requires Distinct(d)
    ensures Distinct(Put(d, k, v))
    ensures AsMap(Put(d, k, v)) == AsMap(d)[k := v]
  {
    var i := Find(d, k);
    var e := Put(d, k, v);
    if i < |d| {
      assert forall j | 0 <= j < |d| :: e[j].0 == d[j].0;
      forall j | 0 <= j < |d| ensures e[j].0 in AsMap(d) && (j != i ==> d[j].0 != k && AsMap(d)[e[j].0] == e[j].1) {
        AsMapAt(d, j);
        HasAt(d, j);
      }
      forall x | x in AsMap(d)[k := v] ensures Has(e, x) {
        AsMapKeys(d, x);
        HasAt(e, Find(d, x));
      }
      SameEntriesSameMap(e, AsMap(d)[k := v]);
    } else {
      assert e[..|e| - 1] == d;
    }
  }
}
