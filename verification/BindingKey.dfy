/** Which warm signing page may serve which caller, as one comparable string. */
module BindingKey {
  import opened Text
  import opened Dicts

  const ANONYMOUS := "anonymous"

  /** Code-point order on strings, the order `sorted` gives cookie names. */
  predicate Before(a: string, b: string)
  {
    b != "" && (a == "" || a[0] < b[0] || (a[0] == b[0] && Before(a[1..], b[1..])))
  }

  ghost predicate Ascending(d: seq<Entry>)
  {
    forall i, j | 0 <= i < j < |d| :: Before(d[i].0, d[j].0)
  }

  function Insert(e: Entry, d: seq<Entry>): (r: seq<Entry>)
    ensures forall x :: x in r <==> x == e || x in d
  {
    if d == [] || Before(e.0, d[0].0) then [e] + d
    else
      assert d == [d[0]] + d[1..];
      [d[0]] + Insert(e, d[1..])
  }

  function Sorted(d: seq<Entry>): (r: seq<Entry>)
    ensures forall x :: x in r <==> x in d
  {
    if d == [] then []
    else
      assert d == [d[0]] + d[1..];
      Insert(d[0], Sorted(d[1..]))
  }

  function Lines(d: seq<Entry>): (r: seq<string>)
    ensures |r| == |d|
    ensures forall i | 0 <= i < |d| :: r[i] == d[i].0 + "=" + d[i].1
  {
    seq(|d|, i requires 0 <= i < |d| => d[i].0 + "=" + d[i].1)
  }

  /** The exit a key speaks of: no proxy and an empty proxy are both direct. */
  function Exit(proxy: string): string
  {
    proxy + "\0"
  }

  function Canonical(jar: seq<Entry>): string
  {
    Join(Lines(Sorted(jar)), '\n')
  }

  function KeyText(jar: seq<Entry>, proxy: string): string
  {
    Exit(proxy) + Canonical(jar)
  }

  /** `digest` stands for the first sixteen hexadecimal characters of a SHA-256. */
  function Key(digest: string -> string, jar: seq<Entry>, proxy: string): string
  {
    if jar == [] && proxy == "" then ANONYMOUS else digest(KeyText(jar, proxy))
  }

  /** Nothing in the jar or the exit can be mistaken for a separator of the key text. */
  ghost predicate Unambiguous(jar: seq<Entry>, proxy: string)
  {
    && Distinct(jar)
    && '\0' !in proxy
    && forall i | 0 <= i < |jar| :: '=' !in jar[i].0 && '\n' !in jar[i].0 && '\n' !in jar[i].1
  }

  /** The digest tells these two texts apart, and looks like a digest. */
  ghost predicate Separates(digest: string -> string, t1: string, t2: string)
  {
    && |digest(t1)| == |digest(t2)| == 16
    && (digest(t1) == digest(t2) ==> t1 == t2)
  }

  // Order of names

  lemma {:induction false} BeforeIsTotal(a: string, b: string)
    ensures a == b || Before(a, b) || Before(b, a)
    ensures !(Before(a, b) && Before(b, a)) && !Before(a, a)
  {
    if a != "" && b != "" {
      BeforeIsTotal(a[1..], b[1..]);
      BeforeIsTotal(a[1..], a[1..]);
      assert a[0] == b[0] && a[1..] == b[1..] ==> a == [a[0]] + a[1..] == b;
    } else if a != "" {
      BeforeIsTotal(a[1..], a[1..]);
    }
  }

  lemma {:induction false} BeforeIsTransitive(a: string, b: string, c: string)
    requires Before(a, b) && Before(b, c)
    ensures Before(a, c)
  {
    if a != "" && a[0] == b[0] == c[0] {
      BeforeIsTransitive(a[1..], b[1..], c[1..]);
    }
  }

  lemma {:induction false} InsertAscends(e: Entry, d: seq<Entry>)
    requires Ascending(d)
    requires forall i | 0 <= i < |d| :: d[i].0 != e.0
    ensures Ascending(Insert(e, d))
  {
    if d == [] {
    } else if Before(e.0, d[0].0) {
      forall j | 0 < j < |d| ensures Before(e.0, d[j].0) {
        BeforeIsTransitive(e.0, d[0].0, d[j].0);
      }
    } else {
      BeforeIsTotal(e.0, d[0].0);
      var r := Insert(e, d[1..]);
      InsertAscends(e, d[1..]);
      forall j | 0 <= j < |r| ensures Before(d[0].0, r[j].0) {
        assert r[j] in r;
        if r[j] != e {
          var k :| 0 <= k < |d[1..]| && d[1..][k] == r[j];
          assert d[k + 1] == r[j];
        }
      }
    }
  }

  lemma {:induction false} SortedAscends(d: seq<Entry>)
    requires Distinct(d)
    ensures Ascending(Sorted(d))
  {
    if d != [] {
      SortedAscends(d[1..]);
      var s := Sorted(d[1..]);
      forall i | 0 <= i < |s| ensures s[i].0 != d[0].0 {
        assert s[i] in s;
        var k :| 0 <= k < |d[1..]| && d[1..][k] == s[i];
        assert d[k + 1] == s[i];
      }
      InsertAscends(d[0], s);
    }
  }

  lemma AscendingIsDistinct(d: seq<Entry>)
    requires Ascending(d)
    ensures Distinct(d)
  {
    forall i, j | 0 <= i < j < |d| ensures d[i].0 != d[j].0 {
      BeforeIsTotal(d[i].0, d[j].0);
    }
  }

  /** Sorting keeps the mapping. */
  lemma SortedSameMap(d: seq<Entry>)
    requires Distinct(d)
    ensures Distinct(Sorted(d)) && AsMap(Sorted(d)) == AsMap(d)
  {
    var s := Sorted(d);
    SortedAscends(d);
    AscendingIsDistinct(s);
    forall j | 0 <= j < |s| ensures s[j].0 in AsMap(d) && AsMap(d)[s[j].0] == s[j].1 {
      assert s[j] in s;
      var k :| 0 <= k < |d| && d[k] == s[j];
      AsMapAt(d, k);
    }
    forall x | x in AsMap(d) ensures Has(s, x) {
      AsMapKeys(d, x);
      var e := d[Find(d, x)];
      assert e in d && e in s;
      var k :| 0 <= k < |s| && s[k] == e;
      HasAt(s, k);
    }
    SameEntriesSameMap(s, AsMap(d));
  }

  /** The last entry of an ascending dictionary is the greatest key of its map. */
  lemma LastIsGreatest(d: seq<Entry>, e: seq<Entry>)
    requires Ascending(d) && Ascending(e) && AsMap(d) == AsMap(e)
    requires d != [] && e != []
    ensures !Before(d[|d| - 1].0, e[|e| - 1].0)
  {
    var m := |e| - 1;
    AscendingIsDistinct(e);
    AsMapAt(e, m);
    AsMapKeys(d, e[m].0);
    var k := Find(d, e[m].0);
    BeforeIsTotal(d[k].0, d[|d| - 1].0);
    if k < |d| - 1 {
      assert Before(d[k].0, d[|d| - 1].0);
    }
  }

  /** An ascending listing is determined by the mapping alone. */
  lemma {:induction false} AscendingIsUnique(d: seq<Entry>, e: seq<Entry>)
    requires Ascending(d) && Ascending(e) && AsMap(d) == AsMap(e)
    ensures d == e
  {
    AscendingIsDistinct(d);
    AscendingIsDistinct(e);
    if d == [] || e == [] {
      if d != [] { AsMapAt(d, 0); }
      if e != [] { AsMapAt(e, 0); }
    } else {
      var n, m := |d| - 1, |e| - 1;
      LastIsGreatest(d, e);
      LastIsGreatest(e, d);
      BeforeIsTotal(d[n].0, e[m].0);
      AsMapAt(d, n);
      AsMapAt(e, m);
      WithoutLast(d);
      WithoutLast(e);
      AscendingIsUnique(d[..n], e[..m]);
      assert d == d[..n] + [d[n]] && e == e[..m] + [e[m]];
    }
  }

  lemma AddThenRemove<K, V>(m: map<K, V>, k: K, v: V)
    requires k !in m
    ensures m[k := v] - {k} == m
  {
  }

  lemma WithoutLast(d: seq<Entry>)
    requires Distinct(d) && d != []
    ensures AsMap(d[..|d| - 1]) == AsMap(d) - {d[|d| - 1].0}
  {
    var n := |d| - 1;
    AsMapKeys(d[..n], d[n].0);
    assert forall j | 0 <= j < n :: d[..n][j].0 != d[n].0;
    AddThenRemove(AsMap(d[..n]), d[n].0, d[n].1);
  }

  // Reading the key text back

  lemma {:induction false} SameLinesSameEntries(d: seq<Entry>, e: seq<Entry>)
    requires Lines(d) == Lines(e)
    requires forall i | 0 <= i < |d| :: '=' !in d[i].0
    requires forall i | 0 <= i < |e| :: '=' !in e[i].0
    ensures d == e
  {
    assert |d| == |e|;
    forall i | 0 <= i < |d| ensures d[i] == e[i] {
      assert Lines(d)[i] == Lines(e)[i];
      SameAroundFirst(d[i].0, d[i].1, e[i].0, e[i].1, '=');
    }
  }

  lemma LinesReadBack(d: seq<Entry>)
    requires forall i | 0 <= i < |d| :: '\n' !in d[i].0 && '\n' !in d[i].1
    ensures d != [] ==> Split(Join(Lines(d), '\n'), '\n') == Lines(d)
    ensures d == [] <==> Join(Lines(d), '\n') == ""
  {
    var ls := Lines(d);
    if d != [] {
      forall p | p in ls ensures '\n' !in p {
        var i :| 0 <= i < |ls| && ls[i] == p;
      }
      SplitJoin(ls, '\n');
      assert |ls[0]| > 0;
    }
  }

  /** The key text determines the jar, entry by entry in sorted order, and the exit. */
  lemma KeyTextIsInjective(jar1: seq<Entry>, proxy1: string, jar2: seq<Entry>, proxy2: string)
    requires Unambiguous(jar1, proxy1) && Unambiguous(jar2, proxy2)
    requires KeyText(jar1, proxy1) == KeyText(jar2, proxy2)
    ensures proxy1 == proxy2 && Sorted(jar1) == Sorted(jar2)
  {
    SameAroundFirst(proxy1, Canonical(jar1), proxy2, Canonical(jar2), '\0');
    CleanSorted(jar1, proxy1);
    CleanSorted(jar2, proxy2);
    LinesReadBack(Sorted(jar1));
    LinesReadBack(Sorted(jar2));
    SameLinesSameEntries(Sorted(jar1), Sorted(jar2));
  }

  lemma CleanSorted(jar: seq<Entry>, proxy: string)
    requires Unambiguous(jar, proxy)
    ensures forall i | 0 <= i < |Sorted(jar)| ::
      '=' !in Sorted(jar)[i].0 && '\n' !in Sorted(jar)[i].0 && '\n' !in Sorted(jar)[i].1
  {
    var s := Sorted(jar);
    forall i | 0 <= i < |s| ensures '=' !in s[i].0 && '\n' !in s[i].0 && '\n' !in s[i].1 {
      assert s[i] in s;
      var k :| 0 <= k < |jar| && jar[k] == s[i];
    }
  }

  /** Two callers share a binding exactly when they carry the same cookies, in whatever
      order, and leave through the same exit. */
  lemma SameKeyIffSameIdentity(
    digest: string -> string,
    jar1: seq<Entry>, proxy1: string, jar2: seq<Entry>, proxy2: string)
    requires Unambiguous(jar1, proxy1) && Unambiguous(jar2, proxy2)
    requires Separates(digest, KeyText(jar1, proxy1), KeyText(jar2, proxy2))
    ensures Key(digest, jar1, proxy1) == Key(digest, jar2, proxy2)
      <==> AsMap(jar1) == AsMap(jar2) && proxy1 == proxy2
  {
    SortedSameMap(jar1);
    SortedSameMap(jar2);
    SortedAscends(jar1);
    SortedAscends(jar2);
    assert |ANONYMOUS| == 9;
    if AsMap(jar1) == AsMap(jar2) && proxy1 == proxy2 {
      AscendingIsUnique(Sorted(jar1), Sorted(jar2));
      AscendingIsUnique([], []);
      if jar1 == [] && jar2 != [] { AsMapAt(jar2, 0); }
      if jar2 == [] && jar1 != [] { AsMapAt(jar1, 0); }
    } else if Key(digest, jar1, proxy1) == Key(digest, jar2, proxy2) {
      if KeyText(jar1, proxy1) == KeyText(jar2, proxy2) {
        KeyTextIsInjective(jar1, proxy1, jar2, proxy2);
      }
    }
  }

  /** Each separator matters: without the three exclusions different identities share a text. */
  lemma AmbiguousTexts()
    ensures KeyText([("a", "1\nb=2")], "") == KeyText([("a", "1"), ("b", "2")], "")
    ensures KeyText([("a=b", "c")], "") == KeyText([("a", "b=c")], "")
    ensures KeyText([("a", "1\0")], "p") == KeyText([], "p\0a=1")
  {
    OneLine("a", "1\nb=2");
    TwoLines();
    OneLine("a=b", "c");
    OneLine("a", "b=c");
    OneLine("a", "1\0");
    assert "a" + "=" + "1\nb=2" == ("a" + "=" + "1") + ['\n'] + ("b" + "=" + "2");
    assert "a=b" + "=" + "c" == "a" + "=" + "b=c";
  }

  lemma OneLine(name: string, value: string)
    ensures Canonical([(name, value)]) == name + "=" + value
  {
    assert [(name, value)][1..] == [];
    assert Sorted([(name, value)]) == [(name, value)];
    LinesOf([(name, value)], [name + "=" + value]);
  }

  lemma TwoLines()
    ensures Canonical([("a", "1"), ("b", "2")]) == ("a" + "=" + "1") + ['\n'] + ("b" + "=" + "2")
  {
    var d := [("a", "1"), ("b", "2")];
    assert d[1..] == [("b", "2")] && [("b", "2")][1..] == [];
    assert Sorted(d) == Insert(("a", "1"), [("b", "2")]) == d;
    LinesOf(d, ["a" + "=" + "1", "b" + "=" + "2"]);
  }

  lemma LinesOf(d: seq<Entry>, ls: seq<string>)
    requires |d| == |ls|
    requires forall i | 0 <= i < |d| :: d[i].0 + "=" + d[i].1 == ls[i]
    ensures Lines(d) == ls
  {
  }
}
