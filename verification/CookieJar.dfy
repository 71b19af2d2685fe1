/** Cookie jars written to storage as a header line and read back. */
module CookieJar {
  import opened Lists
  import opened Options
  import opened Text
  import opened Dicts

  type Jar = seq<Entry>

  /** What Python's `str.strip` takes off. */
  predicate Blank(c: char)
  {
    || '\U{0009}' <= c <= '\U{000D}' || '\U{001C}' <= c <= ' ' || c == '\U{0085}' || c == '\U{00A0}'
    || c == '\U{1680}' || '\U{2000}' <= c <= '\U{200A}' || c == '\U{2028}' || c == '\U{2029}'
    || c == '\U{202F}' || c == '\U{205F}' || c == '\U{3000}'
  }

  function Strip(s: string): (r: string)
    ensures Trimmed(r, Blank)
    ensures forall c | c in r :: c in s
  {
    Trim(s, Blank)
  }

  // Writing

  function Cookie(e: Entry): string
  {
    e.0 + "=" + e.1
  }

  /** `to_cookie_header`. */
  function ToHeader(d: Jar): string
  {
    if d == [] then ""
    else if |d| == 1 then Cookie(d[0])
    else Cookie(d[0]) + [';'] + (" " + ToHeader(d[1..]))
  }

  // Reading

  /** One chunk: the stripped pair around its first `=`. */
  function Pair(chunk: string): Option<Entry>
  {
    var p := Partition(chunk, '=');
    if p.1 then Some((Strip(p.0), Strip(p.2))) else None
  }

  /** Chunks assigned in order onto a jar; the header parser skips nameless ones, the loader
      keeps them. */
  function Filled(d: Jar, chunks: seq<string>, nameless: bool): Jar
    decreases |chunks|
  {
    if chunks == [] then d
    else Filled(WithChunk(d, chunks[0], nameless), chunks[1..], nameless)
  }

  function WithChunk(d: Jar, chunk: string, nameless: bool): Jar
  {
    match Pair(chunk)
    case Some(e) => if nameless || e.0 != "" then Put(d, e.0, e.1) else d
    case None => d
  }

  lemma {:induction false} OneChunk(d: Jar, chunk: string, nameless: bool)
    ensures Filled(d, [chunk], nameless) == WithChunk(d, chunk, nameless)
  {
    assert [chunk][1..] == [];
  }

  lemma {:induction false} FilledGrows(d: Jar, chunks: seq<string>, nameless: bool, i: nat)
    requires i < |chunks|
    ensures Filled(d, chunks[..i + 1], nameless) == WithChunk(Filled(d, chunks[..i], nameless), chunks[i], nameless)
    decreases |chunks|
  {
    if i > 0 {
      FilledGrows(WithChunk(d, chunks[0], nameless), chunks[1..], nameless, i - 1);
      TakeOfTail(chunks, i);
      TakeOfTail(chunks, i + 1);
    } else {
      OneChunk(d, chunks[0], nameless);
      assert chunks[..1] == [chunks[0]] && chunks[..0] == [];
    }
  }

  function Loaded(header: string): Jar
  {
    Filled([], Split(header, ';'), true)
  }

  method Load(header: string) returns (cookies: Jar)
    ensures cookies == Loaded(header)
  {
    cookies := [];
    var chunks := Split(header, ';');
    for i := 0 to |chunks|
      invariant cookies == Filled([], chunks[..i], true)
    {
      FilledGrows([], chunks, true, i);
      var cut := Partition(chunks[i], '=');
      if cut.1 {
        cookies := Put(cookies, Strip(cut.0), Strip(cut.2));
      }
    }
    assert chunks[..|chunks|] == chunks;
  }

  /** Case-blind match against a lower-case letter of `cookie`, with the letters Unicode folds
      onto `i` and `k`. */
  predicate Folds(c: char, letter: char)
  {
    || c == letter
    || (letter == 'c' && c == 'C') || (letter == 'o' && c == 'O') || (letter == 'e' && c == 'E')
    || (letter == 'k' && (c == 'K' || c == '\U{212A}'))
    || (letter == 'i' && (c == 'I' || c == '\U{0130}' || c == '\U{0131}'))
  }

  predicate SaysCookie(s: string)
  {
    |s| >= 6 && forall i | 0 <= i < 6 :: Folds(s[i], "cookie"[i])
  }

  /** The text without a leading `Cookie:`. */
  function WithoutLabel(text: string): string
  {
    var t := TrimLeft(text, Blank);
    if !SaysCookie(t) then text
    else
      var rest := TrimLeft(t[6..], Blank);
      if rest != "" && rest[0] == ':' then TrimLeft(rest[1..], Blank) else text
  }

  function HeaderJar(text: string): Jar
  {
    Filled([], Split(WithoutLabel(Strip(text)), ';'), false)
  }

  method ParseHeader(text: string) returns (out: Jar)
    ensures out == HeaderJar(text)
  {
    out := [];
    var chunks := Split(WithoutLabel(Strip(text)), ';');
    for i := 0 to |chunks|
      invariant out == Filled([], chunks[..i], false)
    {
      FilledGrows([], chunks, false, i);
      var cut := Partition(chunks[i], '=');
      if cut.1 && Strip(cut.0) != "" {
        out := Put(out, Strip(cut.0), Strip(cut.2));
      }
    }
    assert chunks[..|chunks|] == chunks;
  }

  /** Cookies without a name or a value are dropped on import. */
  function WithoutBlanks(d: Jar): (r: Jar)
    ensures forall e | e in r :: e in d
  {
    if d == [] then []
    else if d[0].0 != "" && d[0].1 != "" then [d[0]] + WithoutBlanks(d[1..])
    else WithoutBlanks(d[1..])
  }

  lemma {:induction false} BlanksAreDropped(d: Jar)
    ensures forall e :: e in WithoutBlanks(d) <==> e in d && e.0 != "" && e.1 != ""
  {
    if d != [] {
      assert d == [d[0]] + d[1..];
      BlanksAreDropped(d[1..]);
    }
  }

  // Which jars survive

  predicate CleanEntry(e: Entry)
  {
    && Trimmed(e.0, Blank) && '=' !in e.0 && ';' !in e.0
    && Trimmed(e.1, Blank) && ';' !in e.1
  }

  predicate Clean(d: Jar)
  {
    forall i | 0 <= i < |d| :: CleanEntry(d[i])
  }

  /** The chunks a clean jar's header splits into, `pad` standing before the first. */
  function Pieces(d: Jar, pad: string): seq<string>
  {
    if d == [] then [pad]
    else if |d| == 1 then [pad + Cookie(d[0])]
    else [pad + Cookie(d[0])] + Pieces(d[1..], " ")
  }

  lemma {:induction false} FirstPiece(e: Entry, pad: string, rest: string)
    requires CleanEntry(e) && ';' !in pad
    ensures Split(pad + Cookie(e), ';') == [pad + Cookie(e)]
    ensures Split(pad + (Cookie(e) + [';'] + rest), ';') == [pad + Cookie(e)] + Split(rest, ';')
  {
    NoneInBoth(e.0 + "=", e.1, ';');
    NoneInBoth(pad, Cookie(e), ';');
    SplitAppend(pad + Cookie(e), ';', rest);
    Regroup(pad, Cookie(e) + [';'], rest);
    Regroup(pad, Cookie(e), [';']);
  }

  lemma NoneInBoth(a: string, b: string, c: char)
    requires c !in a && c !in b
    ensures c !in a + b
  {
  }

  lemma {:induction false} HeaderSplits(d: Jar, pad: string)
    requires Clean(d) && ';' !in pad
    ensures Split(pad + ToHeader(d), ';') == Pieces(d, pad)
    decreases |d|
  {
    if d == [] {
      assert pad + "" == pad;
      SplitAppend(pad, ';', "");
    } else if |d| == 1 {
      FirstPiece(d[0], pad, "");
    } else {
      HeaderSplits(d[1..], " ");
      FirstPiece(d[0], pad, " " + ToHeader(d[1..]));
    }
  }

  lemma PadIsStripped(pad: string, s: string)
    requires Trimmed(s, Blank) && (pad == "" || pad == " ")
    ensures Strip(pad + s) == s
  {
    assert Blank(' ');
    if pad == "" {
      assert pad + s == s;
    } else {
      assert (pad + s)[1..] == s;
      assert TrimLeft(pad + s, Blank) == TrimLeft(s, Blank);
    }
  }

  lemma CleanChunkIsItsEntry(e: Entry, pad: string)
    requires CleanEntry(e) && (pad == "" || pad == " ")
    ensures Pair(pad + Cookie(e)) == Some(e)
  {
    assert pad + Cookie(e) == (pad + e.0) + ['='] + e.1;
    PartitionAppend(pad + e.0, '=', e.1);
    PadIsStripped(pad, e.0);
    PadIsStripped("", e.1);
    assert "" + e.1 == e.1;
  }

  lemma {:induction false} PiecesFill(acc: Jar, d: Jar, pad: string, nameless: bool)
    requires Clean(d) && Distinct(acc + d) && (pad == "" || pad == " ")
    requires nameless || forall i | 0 <= i < |d| :: d[i].0 != ""
    ensures Filled(acc, Pieces(d, pad), nameless) == acc + d
    decreases |d|
  {
    if d == [] {
      PadHoldsNothing(acc, pad, nameless);
    } else {
      var e := d[0];
      CleanChunkIsItsEntry(e, pad);
      NextIsNew(acc, d);
      var acc' := acc + [e];
      assert acc' + d[1..] == acc + d;
      if |d| == 1 {
        OneChunk(acc, pad + Cookie(e), nameless);
      } else {
        PiecesFill(acc', d[1..], " ", nameless);
      }
    }
  }

  lemma PadHoldsNothing(acc: Jar, pad: string, nameless: bool)
    requires pad == "" || pad == " "
    ensures Filled(acc, [pad], nameless) == acc + []
  {
    OneChunk(acc, pad, nameless);
    IndexOfAppend(pad, '=', "");
  }

  lemma NextIsNew(acc: Jar, d: Jar)
    requires Distinct(acc + d) && d != []
    ensures Put(acc, d[0].0, d[0].1) == acc + [d[0]]
  {
    forall j | 0 <= j < |acc| ensures acc[j].0 != d[0].0 {
      assert (acc + d)[j].0 != (acc + d)[|acc|].0;
    }
  }

  /** A clean jar reads back exactly, order included. */
  lemma CleanJarsReadBack(d: Jar)
    requires Distinct(d) && Clean(d)
    ensures Loaded(ToHeader(d)) == d
  {
    HeaderSplits(d, "");
    assert "" + ToHeader(d) == ToHeader(d);
    assert [] + d == d;
    PiecesFill([], d, "", true);
  }

  lemma {:induction false} FilledIsClean(d: Jar, chunks: seq<string>, nameless: bool)
    requires Clean(d) && Distinct(d) && forall c | c in chunks :: ';' !in c
    ensures Clean(Filled(d, chunks, nameless)) && Distinct(Filled(d, chunks, nameless))
    decreases |chunks|
  {
    if chunks != [] {
      var chunk := chunks[0];
      assert ';' !in chunk;
      var p := Partition(chunk, '=');
      if p.1 {
        assert CleanEntry((Strip(p.0), Strip(p.2)));
        PutAssigns(d, Strip(p.0), Strip(p.2));
      }
      FilledIsClean(WithChunk(d, chunk, nameless), chunks[1..], nameless);
    }
  }

  /** A jar comes back from storage as the same mapping exactly when its names and values are
      trimmed, free of semicolons, and its names free of `=`. */
  lemma JarSurvivesExactlyWhenClean(d: Jar)
    requires Distinct(d)
    ensures AsMap(Loaded(ToHeader(d))) == AsMap(d) <==> Clean(d)
  {
    if Clean(d) {
      CleanJarsReadBack(d);
    }
    var back := Loaded(ToHeader(d));
    FilledIsClean([], Split(ToHeader(d), ';'), true);
    if AsMap(back) == AsMap(d) {
      forall i | 0 <= i < |d| ensures CleanEntry(d[i]) {
        AsMapAt(d, i);
        AsMapKeys(back, d[i].0);
        var j := Find(back, d[i].0);
        AsMapAt(back, j);
        assert back[j] == d[i];
      }
    }
  }

  // What the importers make survives

  lemma {:induction false} BlanksLeaveDistinct(d: Jar)
    requires Distinct(d)
    ensures Distinct(WithoutBlanks(d))
  {
    if d != [] {
      var rest := d[1..];
      assert forall i | 0 <= i < |rest| :: rest[i] == d[i + 1];
      BlanksLeaveDistinct(rest);
      NewNameStaysDistinct(d[0], WithoutBlanks(rest));
    }
  }

  lemma NewNameStaysDistinct(e: Entry, d: Jar)
    requires Distinct(d) && forall x | x in d :: x.0 != e.0
    ensures Distinct([e] + d)
  {
  }

  lemma BlanksLeaveClean(d: Jar)
    requires Clean(d)
    ensures Clean(WithoutBlanks(d))
  {
    var r := WithoutBlanks(d);
    forall i | 0 <= i < |r| ensures CleanEntry(r[i]) {
      assert r[i] in d;
    }
  }

  lemma HeaderJarIsClean(text: string)
    ensures Clean(HeaderJar(text)) && Distinct(HeaderJar(text))
  {
    FilledIsClean([], Split(WithoutLabel(Strip(text)), ';'), false);
  }

  /** Whatever header text was imported, the jar read from storage is the jar that was parsed. */
  lemma HeaderTextsSurvive(text: string)
    ensures Loaded(ToHeader(HeaderJar(text))) == HeaderJar(text)
    ensures Loaded(ToHeader(WithoutBlanks(HeaderJar(text)))) == WithoutBlanks(HeaderJar(text))
  {
    HeaderJarIsClean(text);
    BlanksLeaveClean(HeaderJar(text));
    BlanksLeaveDistinct(HeaderJar(text));
    CleanJarsReadBack(HeaderJar(text));
    CleanJarsReadBack(WithoutBlanks(HeaderJar(text)));
  }

  lemma {:induction false} TrimLeftKeeps(s: string, cut: char -> bool, c: char)
    requires !cut(c)
    ensures c in TrimLeft(s, cut) <==> c in s
  {
    if s != "" && cut(s[0]) {
      TrimLeftKeeps(s[1..], cut, c);
    }
  }

  lemma {:induction false} TrimRightKeeps(s: string, cut: char -> bool, c: char)
    requires !cut(c)
    ensures c in TrimRight(s, cut) <==> c in s
  {
    if s != "" && cut(s[|s| - 1]) {
      TrimRightKeeps(s[..|s| - 1], cut, c);
    }
  }

  lemma StripKeeps(s: string, c: char)
    requires !Blank(c)
    ensures c in Strip(s) <==> c in s
  {
    TrimLeftKeeps(s, Blank, c);
    TrimRightKeeps(TrimLeft(s, Blank), Blank, c);
  }
}
