/** One jar written in each of the four formats people paste, and what importing the text gives. */
module CookieFormats {
  import opened CookieImport
  import opened CookieJar
  import opened Dicts
  import opened Options
  import opened Text

  /** A cookie every format can carry: named and valued, without a separator of any of them. */
  ghost predicate Portable(e: Entry)
  {
    && e.0 != "" && e.1 != "" && CleanEntry(e)
    && (forall c | c in e.0 || c in e.1 :: c != '\t' && !LineEnd(c))
  }

  /** A jar of such cookies whose text is not mistaken for JSON. */
  ghost predicate PortableJar(d: Jar)
  {
    && d != [] && Distinct(d) && (forall e | e in d :: Portable(e))
    && d[0].0 != "" && d[0].0[0] !in "[{"
  }

  lemma NothingIsBlank(d: Jar)
    requires forall e | e in d :: e.0 != "" && e.1 != ""
    ensures WithoutBlanks(d) == d
  {
    if d != [] {
      assert d == [d[0]] + d[1..];
      NothingIsBlank(d[1..]);
    }
  }

  lemma PortableIsClean(d: Jar)
    requires forall e | e in d :: Portable(e)
    ensures Clean(d)
  {
    forall i | 0 <= i < |d| ensures CleanEntry(d[i]) {
      assert d[i] in d;
    }
  }

  lemma CookieIsTrimmed(e: Entry)
    requires Portable(e)
    ensures Cookie(e) != "" && Cookie(e)[0] == e.0[0] && Trimmed(Cookie(e), Blank)
    ensures '\t' !in Cookie(e) && ';' !in Cookie(e) && (forall c | c in Cookie(e) :: !LineEnd(c))
  {
    assert Cookie(e)[|Cookie(e)| - 1] == e.1[|e.1| - 1];
  }

  // A header

  lemma {:induction false} HeaderEnds(d: Jar)
    requires d != [] && d[0].0 != "" && forall e | e in d :: Portable(e)
    ensures var text := ToHeader(d);
      text != "" && text[0] == d[0].0[0] && Trimmed(text, Blank) && '\t' !in text && (';' in text <==> |d| > 1)
  {
    assert d[0] in d;
    CookieIsTrimmed(d[0]);
    if |d| > 1 {
      assert d[1] in d;
      HeaderEnds(d[1..]);
      var text := ToHeader(d);
      var rest := ToHeader(d[1..]);
      assert text[|text| - 1] == rest[|rest| - 1];
      assert text[|Cookie(d[0])|] == ';';
    }
  }

  /** The name reads as a header's own label: `cookie`, then a colon after any blanks. */
  predicate Labels(name: string)
  {
    SaysCookie(name) &&
    var rest := TrimLeft(name[6..], Blank);
    rest != "" && rest[0] == ':'
  }

  lemma {:induction false} TrimLeftOfMore(s: string, more: string)
    requires more != "" && !Blank(more[0])
    ensures TrimLeft(s + more, Blank) == TrimLeft(s, Blank) + more
  {
    if s == "" {
      assert s + more == more;
    } else {
      assert (s + more)[1..] == s[1..] + more;
      TrimLeftOfMore(s[1..], more);
    }
  }

  lemma UnlabelledHeader(d: Jar)
    requires d != [] && Portable(d[0]) && !Labels(d[0].0)
    ensures WithoutLabel(ToHeader(d)) == ToHeader(d)
  {
    var text, name := ToHeader(d), d[0].0;
    assert name + "=" <= text;
    assert text[|name|] == '=' && text[0] == name[0];
    assert TrimLeft(text, Blank) == text;
    assert |name| < 6 ==> !Folds('=', "cookie"[|name|]);
    if SaysCookie(text) {
      assert SaysCookie(name);
      var more := text[|name|..];
      assert text[6..] == name[6..] + more;
      TrimLeftOfMore(name[6..], more);
    }
  }

  /** A header reads as its jar, with or without the name of the field in front. */
  lemma HeaderReads(d: Jar)
    requires PortableJar(d)
    ensures !Labels(d[0].0) ==> HeaderJar(ToHeader(d)) == d
    ensures HeaderJar("Cookie: " + ToHeader(d)) == d
  {
    var text := ToHeader(d);
    PortableIsClean(d);
    HeaderEnds(d);
    TrimmedIsFixed(text, Blank);
    LabelGoes(text);
    assert d[0] in d;
    if !Labels(d[0].0) {
      UnlabelledHeader(d);
    }
    HeaderSplits(d, "");
    assert "" + text == text;
    assert forall i | 0 <= i < |d| :: d[i] in d;
    PiecesFill([], d, "", false);
    assert [] + d == d;
  }

  lemma LabelGoes(text: string)
    requires text != "" && Trimmed(text, Blank)
    ensures WithoutLabel(Strip("Cookie: " + text)) == text
  {
    var labelled := "Cookie: " + text;
    assert labelled[|labelled| - 1] == text[|text| - 1];
    TrimmedIsFixed(labelled, Blank);
    var rest := ": " + text;
    assert SaysCookie(labelled) && labelled[6..] == rest;
    assert TrimLeft(labelled, Blank) == labelled && TrimLeft(rest, Blank) == rest;
    assert rest[1..] == " " + text && (" " + text)[1..] == text;
    assert TrimLeft(" " + text, Blank) == TrimLeft(text, Blank) == text;
  }

  /** A text with a semicolon, no tab and nothing of JSON at its start is a header. */
  lemma HeaderIsDetected(text: string)
    requires text != "" && Trimmed(text, Blank) && ';' in text && '\t' !in text && text[0] !in "[{"
    ensures Detected(text).Header? && Detected("Cookie: " + text).Header?
  {
    TrimmedIsFixed(text, Blank);
    var labelled := "Cookie: " + text;
    assert labelled[|labelled| - 1] == text[|text| - 1];
    TrimmedIsFixed(labelled, Blank);
    assert ';' in labelled && '\t' !in labelled;
  }

  /** Several cookies pasted as a header come out as they are, label or no label. */
  lemma HeaderImports(d: Jar, decoder: Decoder)
    requires PortableJar(d) && |d| > 1
    ensures !Labels(d[0].0) ==>
      Accepted(ToHeader(d), decoder) == (Header, d) && ImportedJar(ToHeader(d), decoder) == d
    ensures ImportedJar("Cookie: " + ToHeader(d), decoder) == d
  {
    HeaderReads(d);
    HeaderEnds(d);
    NothingIsBlank(d);
    HeaderIsDetected(ToHeader(d));
  }

  // Line by line

  function Cookies(d: Jar): (r: seq<string>)
    ensures |r| == |d| && forall i | 0 <= i < |d| :: r[i] == Cookie(d[i])
  {
    seq(|d|, i requires 0 <= i < |d| => Cookie(d[i]))
  }

  lemma LastIsNew(d: Jar)
    requires Distinct(d) && d != []
    ensures Distinct(d[..|d| - 1]) && Put(d[..|d| - 1], d[|d| - 1].0, d[|d| - 1].1) == d
  {
    var n := |d| - 1;
    assert d == d[..n] + [d[n]];
    NextIsNew(d[..n], [d[n]]);
  }

  /** Lines that each give one cookie of a jar give the jar. */
  lemma {:induction false} FilledOneByOne(lines: seq<string>, pair: string -> Option<Entry>, d: Jar)
    requires |lines| == |d| && Distinct(d)
    requires forall i | 0 <= i < |d| :: pair(lines[i]) == Some(d[i])
    ensures FilledByLine(lines, pair) == d
    decreases |lines|
  {
    if lines != [] {
      var n := |d| - 1;
      LastIsNew(d);
      FilledOneByOne(lines[..n], pair, d[..n]);
    }
  }

  lemma LineIsItsCookie(e: Entry)
    requires Portable(e)
    ensures LinePair(Cookie(e)) == Some(e)
  {
    CookieIsTrimmed(e);
    TrimmedIsFixed(Cookie(e), Blank);
    assert Cookie(e) == e.0 + ['='] + e.1;
    PartitionAppend(e.0, '=', e.1);
    TrimmedIsFixed(e.0, Blank);
    TrimmedIsFixed(e.1, Blank);
    NothingToTrim(e.1);
  }

  lemma CookieLines(d: Jar)
    requires forall e | e in d :: Portable(e)
    ensures forall p | p in Cookies(d) ::
      p != "" && Trimmed(p, Blank) && '\t' !in p && ';' !in p && (forall c | c in p :: !LineEnd(c))
  {
    forall p | p in Cookies(d)
      ensures p != "" && Trimmed(p, Blank) && '\t' !in p && ';' !in p && (forall c | c in p :: !LineEnd(c))
    {
      var i :| 0 <= i < |d| && Cookies(d)[i] == p;
      assert d[i] in d;
      CookieIsTrimmed(d[i]);
    }
  }

  lemma LinesAreLoose(d: Jar)
    requires PortableJar(d)
    ensures Detected(Join(Cookies(d), '\n')).Loose?
  {
    var lines := Cookies(d);
    CookieLines(d);
    assert d[0] in d && lines[0] in lines;
    CookieIsTrimmed(d[0]);
    JoinEnds(lines, '\n', Blank);
    TrimmedIsFixed(Join(lines, '\n'), Blank);
    JoinHolds(lines, '\n', '\t');
    JoinHolds(lines, '\n', ';');
  }

  lemma LinesAreRead(d: Jar)
    requires PortableJar(d)
    ensures LooseJar(Join(Cookies(d), '\n')) == d
  {
    CookieLines(d);
    OnlyNewlines(Cookies(d), Newline);
    forall i | 0 <= i < |d| ensures LinePair(Cookies(d)[i]) == Some(d[i]) {
      assert d[i] in d;
      LineIsItsCookie(d[i]);
    }
    FilledOneByOne(Cookies(d), LinePair, d);
  }

  /** One cookie a line comes out as it is. */
  lemma LinesImport(d: Jar, decoder: Decoder)
    requires PortableJar(d)
    ensures var text := Join(Cookies(d), '\n');
      Accepted(text, decoder) == (Loose, d) && ImportedJar(text, decoder) == d
  {
    LinesAreLoose(d);
    LinesAreRead(d);
    NothingIsBlank(d);
  }

  /** Lines free of line ends, joined by newlines, are those lines again. */
  lemma OnlyNewlines(lines: seq<string>, breaks: char -> bool)
    requires lines != [] && forall p | p in lines :: '\n' !in p && forall c | c in p :: !breaks(c)
    ensures LinesOf(Join(lines, '\n'), breaks) == lines
  {
    var text := Join(lines, '\n');
    forall c | c in text ensures breaks(c) ==> c == '\n' {
      if breaks(c) && c != '\n' {
        forall p | p in lines ensures c !in p {
        }
        JoinHolds(lines, '\n', c);
      }
    }
    BreaksAreKept(text, breaks);
    SplitJoin(lines, '\n');
  }

  /** A single cookie under its header's label has no semicolon to tell it for a header: the line
      parser takes it, and the label with it. */
  lemma LabelledSingleCookieKeepsItsLabel(e: Entry, decoder: Decoder)
    requires Portable(e)
    ensures ImportedJar("Cookie: " + Cookie(e), decoder) == [("Cookie: " + e.0, e.1)]
  {
    var name := "Cookie: " + e.0;
    assert name[|name| - 1] == e.0[|e.0| - 1];
    assert Portable((name, e.1));
    assert "Cookie: " + Cookie(e) == Cookie((name, e.1));
    assert Cookies([(name, e.1)]) == [Cookie((name, e.1))];
    LinesImport([(name, e.1)], decoder);
  }

  // A Netscape file

  /** One line of a cookie file: five columns, the first a word, then name and value. */
  ghost predicate Columns(parts: seq<string>, e: Entry)
  {
    && |parts| >= 7 && parts[5] == e.0 && parts[6] == e.1
    && (forall p | p in parts :: forall c | c in p :: c != '\t' && !LineEnd(c))
    && parts[0] != "" && parts[0][0] !in "#[{" && (forall c | c in parts[0] :: !Blank(c))
  }

  lemma {:induction false} ColumnsBegin(parts: seq<string>, e: Entry)
    requires Columns(parts, e)
    ensures parts[0] + ['\t'] <= Join(parts, '\t')
    ensures forall c | c in Join(parts, '\t') :: !LineEnd(c)
  {
    forall c | LineEnd(c) ensures c !in Join(parts, '\t') {
      JoinHolds(parts, '\t', c);
    }
  }

  /** Columns six and seven of such a line are its cookie. */
  lemma NetscapeLineIsItsCookie(parts: seq<string>, e: Entry)
    requires Portable(e) && Columns(parts, e)
    ensures NetscapePair(Join(parts, '\t')) == Some(e)
  {
    var line := Join(parts, '\t');
    ColumnsBegin(parts, e);
    SplitJoin(parts, '\t');
    var c := parts[0][0];
    assert line[0] == c && c in parts[0];
    StripKeeps(line, c);
    assert TrimLeft(line, Blank) == line;
    TrimmedIsFixed(e.0, Blank);
    TrimmedIsFixed(e.1, Blank);
  }

  /** A line behind a `#` holds nothing, though browsers write their HttpOnly cookies so. */
  lemma HttpOnlyLinesAreLost(line: string)
    ensures NetscapePair("#HttpOnly_" + line) == None && NetscapePair("#" + line) == None
  {
  }

  function Joined(rows: seq<seq<string>>): (r: seq<string>)
    ensures |r| == |rows| && forall i | 0 <= i < |rows| :: r[i] == Join(rows[i], '\t')
  {
    seq(|rows|, i requires 0 <= i < |rows| => Join(rows[i], '\t'))
  }

  /** A cookie file comes out as the jar of its sixth and seventh columns. */
  lemma NetscapeImports(d: Jar, rows: seq<seq<string>>, decoder: Decoder)
    requires PortableJar(d) && |rows| == |d| && forall i | 0 <= i < |d| :: Columns(rows[i], d[i])
    ensures var text := Join(Joined(rows), '\n');
      Accepted(text, decoder) == (Netscape, d) && ImportedJar(text, decoder) == d
  {
    var lines := Joined(rows);
    var text := Join(lines, '\n');
    forall i | 0 <= i < |d| ensures NetscapePair(lines[i]) == Some(d[i]) {
      assert d[i] in d;
      NetscapeLineIsItsCookie(rows[i], d[i]);
    }
    forall p | p in lines ensures '\n' !in p && forall c | c in p :: !LineEnd(c) {
      var i :| 0 <= i < |lines| && lines[i] == p;
      ColumnsBegin(rows[i], d[i]);
      assert LineEnd('\n');
    }
    OnlyNewlines(lines, LineEnd);
    FilledOneByOne(lines, NetscapePair, d);
    FileIsDetected(rows[0], d[0], text, lines);
    NothingIsBlank(d);
  }

  /** Some name follows the first word of a line, so stripping the file keeps the word's tab. */
  lemma FileIsDetected(parts: seq<string>, e: Entry, text: string, lines: seq<string>)
    requires Columns(parts, e) && Portable(e)
    requires lines != [] && lines[0] == Join(parts, '\t') && text == Join(lines, '\n')
    ensures Detected(text).Netscape?
  {
    ColumnsBegin(parts, e);
    NameFollowsWord(parts, e);
    var i :| |parts[0]| < i < |lines[0]| && lines[0][i] == e.0[0];
    assert lines[0] <= text && text[i] == lines[0][i];
    FileKeepsWord(text, parts[0], i);
    WordIsTabbed(Strip(text), parts[0]);
  }

  lemma NameFollowsWord(parts: seq<string>, e: Entry)
    requires Columns(parts, e) && Portable(e)
    ensures exists i :: |parts[0]| < i < |Join(parts, '\t')| && Join(parts, '\t')[i] == e.0[0]
  {
    var word, rest := parts[0], Join(parts[1..], '\t');
    JoinKeeps(parts[1..], '\t', 4, e.0[0]);
    var k :| 0 <= k < |rest| && rest[k] == e.0[0];
    assert Join(parts, '\t')[|word| + 1 + k] == rest[k];
  }

  lemma FileKeepsWord(text: string, word: string, i: nat)
    requires word != "" && (forall c | c in word :: !Blank(c)) && word + ['\t'] <= text
    requires |word| < i < |text| && !Blank(text[i])
    ensures word + ['\t'] <= Strip(text)
  {
    assert text[0] == word[0] && word[0] in word;
    TrimRightStops(text, Blank, i);
    assert word + ['\t'] <= text[..i + 1];
  }

  lemma WordIsTabbed(s: string, word: string)
    requires word != "" && (forall c | c in word :: !Blank(c)) && word + ['\t'] <= s
    ensures s != "" && '\t' in s && HasTabbedLine(s)
  {
    assert s[0] == word[0] && word[0] in word;
    assert TrimLeft(s, Blank) == s;
    assert s[|word|] == '\t';
    forall k | 0 <= k < |word| ensures !Blank(s[k]) {
      assert s[k] == word[k] && word[k] in word;
    }
    assert WordThenTab(s);
    assert s[0..] == s;
    assert TabbedFrom(s, 0);
  }

  // JSON

  /** An exported cookie object: name and value somewhere among its fields. */
  ghost predicate Exported(item: Json, e: Entry)
  {
    && item.Object? && Distinct(item.fields)
    && ("name", Atom(e.0)) in item.fields && ("value", Atom(e.1)) in item.fields
  }

  lemma ExportedIsItsCookie(item: Json, e: Entry, show: Json -> string)
    requires Exported(item, e) && (forall s :: show(Atom(s)) == s)
    ensures ItemPair(item, show) == Some(e)
  {
    var i :| 0 <= i < |item.fields| && item.fields[i] == ("name", Atom(e.0));
    var j :| 0 <= j < |item.fields| && item.fields[j] == ("value", Atom(e.1));
    HasAt(item.fields, i);
    HasAt(item.fields, j);
  }

  lemma OneItemMore(items: seq<Json>, show: Json -> string, e: Entry)
    requires items != [] && ItemPair(items[|items| - 1], show) == Some(e)
    ensures FilledByItem(items, show) == Put(FilledByItem(items[..|items| - 1], show), e.0, e.1)
  {
  }

  lemma {:induction false} ItemsFill(items: seq<Json>, d: Jar, show: Json -> string)
    requires |items| == |d| && Distinct(d)
    requires forall i | 0 <= i < |d| :: ItemPair(items[i], show) == Some(d[i])
    ensures FilledByItem(items, show) == d
  {
    if items != [] {
      var n := |d| - 1;
      LastIsNew(d);
      ItemsFill(items[..n], d[..n], show);
      OneItemMore(items, show, d[n]);
    }
  }

  lemma {:induction false} FieldsFill(fields: seq<(string, Json)>, d: Jar, show: Json -> string)
    requires |fields| == |d| && Distinct(d) && (forall s :: show(Atom(s)) == s)
    requires forall i | 0 <= i < |d| :: fields[i] == (d[i].0, Atom(d[i].1))
    ensures FilledByField(fields, show) == d
  {
    if fields != [] {
      var n := |d| - 1;
      LastIsNew(d);
      FieldsFill(fields[..n], d[..n], show);
    }
  }

  /** Text opening with a bracket or a brace is taken as JSON, whatever cookies that gives. */
  lemma JsonIsAccepted(text: string, decoder: Decoder, jar: Jar)
    requires Strip(text) != "" && (Strip(text)[0] == '[' || Strip(text)[0] == '{')
    requires JsonJar(text, decoder) == jar && jar != [] && (forall e | e in jar :: e.0 != "" && e.1 != "")
    ensures Accepted(text, decoder) == (JsonArray, jar) && ImportedJar(text, decoder) == jar
  {
    NothingIsBlank(jar);
  }

  /** A list of cookie objects comes out as their names and values, in order. */
  lemma JsonListImports(d: Jar, text: string, items: seq<Json>, decoder: Decoder)
    requires d != [] && Distinct(d) && (forall e | e in d :: e.0 != "" && e.1 != "")
    requires Strip(text) != "" && Strip(text)[0] == '[' && decoder.loads(text) == Some(Array(items))
    requires |items| == |d| && (forall i | 0 <= i < |d| :: Exported(items[i], d[i]))
    requires forall s :: decoder.show(Atom(s)) == s
    ensures Accepted(text, decoder) == (JsonArray, d) && ImportedJar(text, decoder) == d
  {
    forall i | 0 <= i < |d| ensures ItemPair(items[i], decoder.show) == Some(d[i]) {
      ExportedIsItsCookie(items[i], d[i], decoder.show);
    }
    ItemsFill(items, d, decoder.show);
    JsonIsAccepted(text, decoder, d);
  }

  /** An object from names to values comes out as it is - unless it has both a `name` and a
      `value`: then it is taken for one exported cookie. */
  lemma JsonObjectImports(d: Jar, text: string, fields: seq<(string, Json)>, decoder: Decoder)
    requires d != [] && Distinct(d) && (forall e | e in d :: e.0 != "" && e.1 != "")
    requires Strip(text) != "" && Strip(text)[0] == '{' && decoder.loads(text) == Some(Object(fields))
    requires |fields| == |d| && (forall i | 0 <= i < |d| :: fields[i] == (d[i].0, Atom(d[i].1)))
    requires forall s :: decoder.show(Atom(s)) == s
    ensures !("name" in AsMap(d) && "value" in AsMap(d)) ==> ImportedJar(text, decoder) == d
    ensures "name" in AsMap(d) && "value" in AsMap(d) ==>
      ImportedJar(text, decoder) == [(AsMap(d)["name"], AsMap(d)["value"])]
  {
    SameNames(fields, d, "name");
    SameNames(fields, d, "value");
    if "name" in AsMap(d) && "value" in AsMap(d) {
      ShownField(d, fields, decoder, "name");
      ShownField(d, fields, decoder, "value");
      OneCookieObject(text, fields, decoder, AsMap(d)["name"], AsMap(d)["value"]);
    } else {
      FieldsFill(fields, d, decoder.show);
      JsonIsAccepted(text, decoder, d);
    }
  }

  lemma OneCookieObject(text: string, fields: seq<(string, Json)>, decoder: Decoder, name: string, value: string)
    requires Strip(text) != "" && Strip(text)[0] == '{' && decoder.loads(text) == Some(Object(fields))
    requires Has(fields, "name") && decoder.show(fields[Find(fields, "name")].1) == name != ""
    requires Has(fields, "value") && decoder.show(fields[Find(fields, "value")].1) == value != ""
    ensures ImportedJar(text, decoder) == [(name, value)]
  {
    ReadAsOneCookie(text, fields, decoder);
    JsonIsAccepted(text, decoder, [(name, value)]);
  }

  lemma ReadAsOneCookie(text: string, fields: seq<(string, Json)>, decoder: Decoder)
    requires decoder.loads(text) == Some(Object(fields)) && Has(fields, "name") && Has(fields, "value")
    ensures JsonJar(text, decoder) ==
      [(decoder.show(fields[Find(fields, "name")].1), decoder.show(fields[Find(fields, "value")].1))]
  {
  }

  lemma ShownField(d: Jar, fields: seq<(string, Json)>, decoder: Decoder, name: string)
    requires Distinct(d) && (forall e | e in d :: e.0 != "" && e.1 != "") && name in AsMap(d)
    requires |fields| == |d| && (forall i | 0 <= i < |d| :: fields[i] == (d[i].0, Atom(d[i].1)))
    requires forall s :: decoder.show(Atom(s)) == s
    ensures Has(fields, name) && decoder.show(fields[Find(fields, name)].1) == AsMap(d)[name] != ""
  {
    SameNames(fields, d, name);
    AsMapAt(d, Find(d, name));
    assert d[Find(d, name)] in d;
  }

  lemma SameNames(fields: seq<(string, Json)>, d: Jar, name: string)
    requires |fields| == |d| && Distinct(d)
    requires forall i | 0 <= i < |d| :: fields[i] == (d[i].0, Atom(d[i].1))
    ensures Find(fields, name) == Find(d, name)
    ensures name in AsMap(d) <==> Has(fields, name)
  {
    AsMapKeys(d, name);
  }
}
