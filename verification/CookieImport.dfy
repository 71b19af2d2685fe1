/** Importing cookies from pasted text: telling the four formats apart, reading each, and which
    imports storage gives back. */
module CookieImport {
  import opened CookieJar
  import opened Dicts
  import opened Options
  import opened Text

  predicate Semicolon(c: char)
  {
    c == ';'
  }

  // Lines

  function LineBreaks(text: string, breaks: char -> bool): (r: string)
  {
    if text == "" then "" else [if breaks(text[0]) then '\n' else text[0]] + LineBreaks(text[1..], breaks)
  }

  /** Pieces between line breaks; a run of breaks only adds empty pieces, which hold no cookie. */
  function LinesOf(text: string, breaks: char -> bool): seq<string>
  {
    Split(LineBreaks(text, breaks), '\n')
  }

  predicate Newline(c: char)
  {
    c == '\r' || c == '\n'
  }

  /** Where Python's `str.splitlines` breaks. */
  predicate LineEnd(c: char)
  {
    || '\U{000A}' <= c <= '\U{000D}' || '\U{001C}' <= c <= '\U{001E}' || c == '\U{0085}'
    || c == '\U{2028}' || c == '\U{2029}'
  }

  // One cookie a line

  function LinePair(line: string): Option<Entry>
  {
    var p := Partition(Strip(line), '=');
    if p.1 && Strip(p.0) != "" then Some((Strip(p.0), TrimRight(Strip(p.2), Semicolon))) else None
  }

  /** Each line's cookie assigned in order, for a reader of lines. */
  function FilledByLine(lines: seq<string>, pair: string -> Option<Entry>): Jar
    decreases |lines|
  {
    if lines == [] then []
    else
      var before := FilledByLine(lines[..|lines| - 1], pair);
      match pair(lines[|lines| - 1])
      case Some(e) => Put(before, e.0, e.1)
      case None => before
  }

  lemma {:induction false} OneLineMore(lines: seq<string>, pair: string -> Option<Entry>, i: nat)
    requires i < |lines|
    ensures FilledByLine(lines[..i + 1], pair) ==
      var before := FilledByLine(lines[..i], pair);
      if pair(lines[i]).Some? then Put(before, pair(lines[i]).value.0, pair(lines[i]).value.1) else before
  {
    assert lines[..i + 1][..i] == lines[..i];
  }

  function LooseJar(text: string): Jar
  {
    FilledByLine(LinesOf(text, Newline), LinePair)
  }

  method ParseLoose(text: string) returns (out: Jar)
    ensures out == LooseJar(text)
  {
    out := [];
    var lines := LinesOf(text, Newline);
    for i := 0 to |lines|
      invariant out == FilledByLine(lines[..i], LinePair)
    {
      OneLineMore(lines, LinePair, i);
      var cut := Partition(Strip(lines[i]), '=');
      if cut.1 && Strip(cut.0) != "" {
        out := Put(out, Strip(cut.0), TrimRight(Strip(cut.2), Semicolon));
      }
    }
    assert lines[..|lines|] == lines;
  }

  // A Netscape file

  function NetscapePair(line: string): Option<Entry>
  {
    var parts := Split(line, '\t');
    var t := TrimLeft(line, Blank);
    if Strip(line) == "" || (t != "" && t[0] == '#') || |parts| < 7 then None
    else Some((Strip(parts[5]), Strip(parts[6])))
  }

  function NetscapeJar(text: string): Jar
  {
    FilledByLine(LinesOf(text, LineEnd), NetscapePair)
  }

  method ParseNetscape(text: string) returns (out: Jar)
    ensures out == NetscapeJar(text)
  {
    out := [];
    var lines := LinesOf(text, LineEnd);
    for i := 0 to |lines|
      invariant out == FilledByLine(lines[..i], NetscapePair)
    {
      OneLineMore(lines, NetscapePair, i);
      var t := TrimLeft(lines[i], Blank);
      if Strip(lines[i]) == "" || (|t| > 0 && t[0] == '#') {
        continue;
      }
      var parts := Split(lines[i], '\t');
      if |parts| >= 7 {
        out := Put(out, Strip(parts[5]), Strip(parts[6]));
      }
    }
    assert lines[..|lines|] == lines;
  }

  // JSON

  /** What decoding gives: a dictionary's keys are strings, each once. */
  datatype Json = Object(fields: seq<(string, Json)>) | Array(items: seq<Json>) | Atom(text: string)

  /** Python's `json.loads`, `None` when it raises, and `str` on what it gives. */
  datatype Decoder = Decoder(loads: string -> Option<Json>, show: Json -> string)

  function FilledByField(fields: seq<(string, Json)>, show: Json -> string): Jar
  {
    if fields == [] then []
    else
      var last := fields[|fields| - 1];
      Put(FilledByField(fields[..|fields| - 1], show), last.0, show(last.1))
  }

  function Field(j: Json, name: string): Option<Json>
  {
    if j.Object? && Has(j.fields, name) then Some(j.fields[Find(j.fields, name)].1) else None
  }

  /** One exported cookie object: its `name`, and its `value` if it has one. */
  function ItemPair(item: Json, show: Json -> string): Option<Entry>
  {
    match Field(item, "name")
    case None => None
    case Some(name) => Some((show(name), if Field(item, "value").Some? then show(Field(item, "value").value) else ""))
  }

  function FilledByItem(items: seq<Json>, show: Json -> string): Jar
  {
    if items == [] then []
    else
      var before := FilledByItem(items[..|items| - 1], show);
      match ItemPair(items[|items| - 1], show)
      case Some(e) => Put(before, e.0, e.1)
      case None => before
  }

  /** Text that cannot be decoded, or decodes to neither shape, is no cookies. */
  function JsonJar(text: string, d: Decoder): Jar
  {
    match d.loads(text)
    case Some(Object(fields)) =>
      if Has(fields, "name") && Has(fields, "value") then
        [(d.show(fields[Find(fields, "name")].1), d.show(fields[Find(fields, "value")].1))]
      else
        FilledByField(fields, d.show)
    case Some(Array(items)) => FilledByItem(items, d.show)
    case _ => []
  }

  method ParseJson(text: string, d: Decoder) returns (out: Jar)
    ensures out == JsonJar(text, d)
  {
    out := [];
    match d.loads(text) {
      case Some(Object(fields)) =>
        if Has(fields, "name") && Has(fields, "value") {
          return [(d.show(fields[Find(fields, "name")].1), d.show(fields[Find(fields, "value")].1))];
        }
        for i := 0 to |fields|
          invariant out == FilledByField(fields[..i], d.show)
        {
          assert fields[..i + 1][..i] == fields[..i];
          out := Put(out, fields[i].0, d.show(fields[i].1));
        }
        assert fields[..|fields|] == fields;
      case Some(Array(items)) =>
        for i := 0 to |items|
          invariant out == FilledByItem(items[..i], d.show)
        {
          assert items[..i + 1][..i] == items[..i];
          var e := ItemPair(items[i], d.show);
          if e.Some? {
            out := Put(out, e.value.0, e.value.1);
          }
        }
        assert items[..|items|] == items;
      case _ =>
    }
  }

  // Which format

  datatype Format = Header | JsonArray | Netscape | Loose

  /** After any blanks, a word with a tab right after it. */
  predicate WordThenTab(s: string)
  {
    var t := TrimLeft(s, Blank);
    exists i | 0 < i < |t| :: t[i] == '\t' && forall k | 0 <= k < i :: !Blank(t[k])
  }

  /** Some line starts, after an optional `#`, with a word and a tab. */
  predicate HasTabbedLine(s: string)
  {
    exists i | 0 <= i < |s| :: TabbedFrom(s, i)
  }

  predicate TabbedFrom(s: string, i: nat)
    requires i < |s|
  {
    && (i == 0 || s[i - 1] == '\n')
    && (WordThenTab(s[i..]) || (s[i] == '#' && WordThenTab(s[i + 1..])))
  }

  function Detected(text: string): Format
  {
    var s := Strip(text);
    if s != "" && (s[0] == '[' || s[0] == '{') then JsonArray
    else if '\t' in s && HasTabbedLine(s) then Netscape
    else if ';' in s then Header
    else Loose
  }

  function Parsed(format: Format, text: string, d: Decoder): Jar
  {
    match format
    case Header => HeaderJar(text)
    case JsonArray => JsonJar(text, d)
    case Netscape => NetscapeJar(text)
    case Loose => LooseJar(text)
  }

  /** Detection can be wrong: a format that finds nothing gives way to line by line. */
  function Accepted(text: string, d: Decoder): (Format, Jar)
  {
    var format := Detected(text);
    var jar := Parsed(format, text, d);
    if jar == [] && format != Loose then
      if LooseJar(text) != [] then (Loose, LooseJar(text)) else (format, [])
    else (format, jar)
  }

  function ImportedJar(text: string, d: Decoder): Jar
  {
    WithoutBlanks(Accepted(text, d).1)
  }

  method ParseCookies(text: string, d: Decoder) returns (format: Format, jar: Jar)
    ensures format == Accepted(text, d).0 && jar == ImportedJar(text, d)
    ensures forall e | e in jar :: e.0 != "" && e.1 != "" && e in Accepted(text, d).1
    ensures forall e | e in Accepted(text, d).1 && e.0 != "" && e.1 != "" :: e in jar
  {
    format := Detected(text);
    match format {
      case Header => jar := ParseHeader(text);
      case JsonArray => jar := ParseJson(text, d);
      case Netscape => jar := ParseNetscape(text);
      case Loose => jar := ParseLoose(text);
    }
    if |jar| == 0 && format != Loose {
      jar := ParseLoose(text);
      if |jar| > 0 {
        format := Loose;
      }
    }
    BlanksAreDropped(jar);
    jar := WithoutBlanks(jar);
  }

  // Which imports survive

  lemma {:induction false} LinesAreDistinct(lines: seq<string>, pair: string -> Option<Entry>)
    ensures Distinct(FilledByLine(lines, pair))
    decreases |lines|
  {
    if lines != [] {
      var before := lines[..|lines| - 1];
      LinesAreDistinct(before, pair);
      if pair(lines[|lines| - 1]).Some? {
        var e := pair(lines[|lines| - 1]).value;
        PutAssigns(FilledByLine(before, pair), e.0, e.1);
      }
    }
  }

  lemma {:induction false} FieldsAreDistinct(fields: seq<(string, Json)>, show: Json -> string)
    ensures Distinct(FilledByField(fields, show))
  {
    if fields != [] {
      var n := |fields| - 1;
      FieldsAreDistinct(fields[..n], show);
      PutAssigns(FilledByField(fields[..n], show), fields[n].0, show(fields[n].1));
    }
  }

  lemma {:induction false} ItemsAreDistinct(items: seq<Json>, show: Json -> string)
    ensures Distinct(FilledByItem(items, show))
  {
    if items != [] {
      var n := |items| - 1;
      ItemsAreDistinct(items[..n], show);
      if ItemPair(items[n], show).Some? {
        var e := ItemPair(items[n], show).value;
        PutAssigns(FilledByItem(items[..n], show), e.0, e.1);
      }
    }
  }

  lemma ParsedIsDistinct(format: Format, text: string, d: Decoder)
    ensures Distinct(Parsed(format, text, d))
  {
    match format {
      case Header => HeaderJarIsClean(text);
      case JsonArray =>
        match d.loads(text) {
          case Some(Object(fields)) => FieldsAreDistinct(fields, d.show);
          case Some(Array(items)) => ItemsAreDistinct(items, d.show);
          case _ =>
        }
      case Netscape => LinesAreDistinct(LinesOf(text, LineEnd), NetscapePair);
      case Loose => LinesAreDistinct(LinesOf(text, Newline), LinePair);
    }
  }

  lemma ImportedIsDistinct(text: string, d: Decoder)
    ensures Distinct(ImportedJar(text, d))
  {
    ParsedIsDistinct(Detected(text), text, d);
    ParsedIsDistinct(Loose, text, d);
    BlanksLeaveDistinct(Accepted(text, d).1);
  }

  /** Whatever text was pasted, in whatever format: the imported jar comes back from storage - as
      the same mapping, and then in the same order - if and only if it is clean. */
  lemma ImportSurvivesExactlyWhenClean(text: string, d: Decoder)
    ensures Distinct(ImportedJar(text, d))
    ensures AsMap(Loaded(ToHeader(ImportedJar(text, d)))) == AsMap(ImportedJar(text, d)) <==>
      Clean(ImportedJar(text, d))
    ensures Loaded(ToHeader(ImportedJar(text, d))) == ImportedJar(text, d) <==> Clean(ImportedJar(text, d))
  {
    ImportedIsDistinct(text, d);
    var jar := ImportedJar(text, d);
    JarSurvivesExactlyWhenClean(jar);
    if Clean(jar) {
      CleanJarsReadBack(jar);
    }
  }

  /** Trimmed, and without a `=`: what every name read from a header or line by line is. */
  predicate PlainName(name: string)
  {
    Trimmed(name, Blank) && '=' !in name
  }

  predicate PlainNames(jar: Jar)
  {
    forall i | 0 <= i < |jar| :: PlainName(jar[i].0)
  }

  lemma {:induction false} LineNamesArePlain(lines: seq<string>)
    ensures PlainNames(FilledByLine(lines, LinePair))
    decreases |lines|
  {
    if lines != [] {
      LineNamesArePlain(lines[..|lines| - 1]);
    }
  }

  /** No semicolon anywhere, and no blank at an end of the value. */
  predicate Intact(e: Entry)
  {
    ';' !in e.0 && ';' !in e.1 && Trimmed(e.1, Blank)
  }

  lemma PlainJarsAreCleanWhenIntact(jar: Jar)
    requires PlainNames(jar)
    ensures Clean(WithoutBlanks(jar)) <==> forall e | e in WithoutBlanks(jar) :: Intact(e)
  {
    var r := WithoutBlanks(jar);
    forall i | 0 <= i < |r| ensures CleanEntry(r[i]) <==> Intact(r[i]) {
      assert r[i] in jar;
    }
    forall e | e in r && Clean(r) ensures Intact(e) {
      var i :| 0 <= i < |r| && r[i] == e;
      assert CleanEntry(r[i]);
    }
    assert forall i | 0 <= i < |r| :: r[i] in r;
  }

  /** Text taken as a header or line by line: the import survives exactly when none of its cookies
      holds a semicolon or a value with a blank at its end - only the fallback can leave either. */
  lemma PlainImportSurvivesExactlyWhenIntact(text: string, d: Decoder)
    requires Accepted(text, d).0.Header? || Accepted(text, d).0.Loose?
    ensures Loaded(ToHeader(ImportedJar(text, d))) == ImportedJar(text, d) <==>
      forall e | e in ImportedJar(text, d) :: Intact(e)
  {
    var (format, jar) := Accepted(text, d);
    HeaderJarIsClean(text);
    LineNamesArePlain(LinesOf(text, Newline));
    PlainJarsAreCleanWhenIntact(jar);
    ImportSurvivesExactlyWhenClean(text, d);
  }

  lemma {:induction false} LinesAreClean(lines: seq<string>)
    requires forall l | l in lines :: ';' !in l
    ensures Clean(FilledByLine(lines, LinePair)) && Distinct(FilledByLine(lines, LinePair))
    decreases |lines|
  {
    if lines != [] {
      LinesAreClean(lines[..|lines| - 1]);
      var line := lines[|lines| - 1];
      assert line in lines;
      LineIsClean(line);
      if LinePair(line).Some? {
        var e := LinePair(line).value;
        PutAssigns(FilledByLine(lines[..|lines| - 1], LinePair), e.0, e.1);
      }
    }
  }

  lemma {:induction false} LineIsClean(line: string)
    requires ';' !in line
    ensures LinePair(line).Some? ==> CleanEntry(LinePair(line).value)
  {
    NothingToTrim(Strip(Partition(Strip(line), '=').2));
  }

  lemma NothingToTrim(s: string)
    requires ';' !in s
    ensures TrimRight(s, Semicolon) == s
  {
  }

  lemma {:induction false} BreaksKeepSemicolons(text: string, breaks: char -> bool)
    requires !breaks(';')
    ensures ';' in LineBreaks(text, breaks) <==> ';' in text
  {
    if text != "" {
      BreaksKeepSemicolons(text[1..], breaks);
    }
  }

  lemma {:induction false} SplitStaysWithin(s: string, c: char, x: char)
    requires x !in s
    ensures forall p | p in Split(s, c) :: x !in p
    decreases |s|
  {
    var i := IndexOf(s, c);
    if i < |s| {
      SplitStaysWithin(s[i + 1..], c, x);
    }
  }

  /** An import survives whenever the detected header or line parser took it. */
  lemma ImportedTextSurvives(text: string, d: Decoder)
    requires Detected(text).Loose? || (Detected(text).Header? && HeaderJar(text) != [])
    ensures Loaded(ToHeader(ImportedJar(text, d))) == ImportedJar(text, d)
  {
    if Detected(text).Header? {
      HeaderTextsSurvive(text);
    } else {
      StripKeeps(text, ';');
      BreaksKeepSemicolons(text, Newline);
      SplitStaysWithin(LineBreaks(text, Newline), '\n', ';');
      LinesAreClean(LinesOf(text, Newline));
      BlanksLeaveClean(LooseJar(text));
      ImportSurvivesExactlyWhenClean(text, d);
    }
  }

  /** When the header parser finds nothing and the line parser is tried instead, the jar can hold
      a name that storage does not give back. */
  lemma FallbackCanLoseAName(d: Decoder)
    ensures ImportedJar("; =x", d) == [(";", "x")]
    ensures AsMap(Loaded(ToHeader(ImportedJar("; =x", d)))) != AsMap(ImportedJar("; =x", d))
  {
    JarSurvivesExactlyWhenClean([(";", "x")]);
    assert !CleanEntry((";", "x"));
    FallbackParse(d);
  }

  lemma {:induction false} FallbackParse(d: Decoder)
    ensures ImportedJar("; =x", d) == [(";", "x")]
  {
    FallbackIsHeader();
    FallbackFindsNoHeader();
    FallbackLine();
    OneCookieIsKept((";", "x"));
  }

  lemma {:induction false} FallbackIsHeader()
    ensures Detected("; =x").Header?
  {
    TrimmedIsFixed("; =x", Blank);
    assert "; =x"[0] == ';';
  }

  lemma OneCookieIsKept(e: Entry)
    requires e.0 != "" && e.1 != ""
    ensures WithoutBlanks([e]) == [e]
  {
  }

  lemma {:induction false} FallbackFindsNoHeader()
    ensures HeaderJar("; =x") == []
  {
    FallbackHasNoLabel();
    FallbackChunks();
    FallbackPairs();
    TwoChunks("", " =x");
  }

  lemma {:induction false} FallbackHasNoLabel()
    ensures WithoutLabel(Strip("; =x")) == "; =x"
  {
  }

  lemma {:induction false} TwoChunks(a: string, b: string)
    requires Pair(a).None? && Pair(b).Some? && Pair(b).value.0 == ""
    ensures Filled([], [a, b], false) == []
  {
    assert [a, b][1..] == [b] && [b][1..] == [];
    assert Filled([], [a, b], false) == Filled([], [b], false) == Filled([], [], false);
  }

  lemma {:induction false} FallbackChunks()
    ensures Split("; =x", ';') == ["", " =x"]
  {
  }

  lemma {:induction false} FallbackPairs()
    ensures Pair("").None? && Pair(" =x") == Some(("", "x"))
  {
  }

  lemma {:induction false} FallbackLine()
    ensures LooseJar("; =x") == [(";", "x")]
  {
    FallbackIsOneLine();
    FallbackLinePair();
    OneLine("; =x");
  }

  lemma {:induction false} FallbackHasNoBreak()
    ensures LineBreaks("; =x", Newline) == "; =x"
  {
    BreaksAreKept("; =x", Newline);
  }

  lemma {:induction false} FallbackIsOneLine()
    ensures LinesOf("; =x", Newline) == ["; =x"]
  {
    FallbackHasNoBreak();
    SplitAppend("; =x", '\n', "");
  }

  lemma {:induction false} OneLine(line: string)
    requires LinePair(line).Some?
    ensures FilledByLine([line], LinePair) == [LinePair(line).value]
  {
  }

  lemma {:induction false} FallbackLinePair()
    ensures LinePair("; =x") == Some((";", "x"))
  {
    TrimmedIsFixed("; =x", Blank);
    PartitionAppend("; ", '=', "x");
    assert "; " + ['='] + "x" == "; =x";
    FallbackName();
    TrimmedIsFixed("x", Blank);
    NothingToTrim("x");
  }

  lemma {:induction false} FallbackName()
    ensures Strip("; ") == ";"
  {
  }

  /** A text whose only line breaks are newlines is left as it is. */
  lemma {:induction false} BreaksAreKept(text: string, breaks: char -> bool)
    requires forall c | c in text :: breaks(c) ==> c == '\n'
    ensures LineBreaks(text, breaks) == text
  {
    if text != "" {
      assert text[0] in text;
      BreaksAreKept(text[1..], breaks);
    }
  }
}
