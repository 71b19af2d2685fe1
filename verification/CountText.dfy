/** The text of a count: written as the source writes it, and read back as a reader who knows the
    locale would. */
module CountText {
  import opened Lists
  import opened Options
  import opened Text
  import opened CountFormat

  // Decimals

  /** The digits after the point: tenths and hundredths of one. */
  function Tenths(hundredths: nat): (d: nat)
    ensures d < 10
  {
    hundredths / 10 % 10
  }

  function Shortened(whole: string, tenths: nat, rest: nat): string
    requires tenths < 10 && rest < 10
  {
    if rest != 0 then whole + "." + [DIGITS[tenths], DIGITS[rest]]
    else if tenths != 0 then whole + "." + [DIGITS[tenths]]
    else whole
  }

  /** The shortest text of a value: no trailing zero after the point, and no point without a digit
      after it. */
  function Shortest(hundredths: nat): string
  {
    Shortened(Digits(hundredths / 100), Tenths(hundredths), hundredths % 10)
  }

  /** Digits after the point that rounding to three significant digits keeps. */
  function Places(m: nat, t: int): nat
  {
    if m < 10 * t then 2 else if m < 100 * t then 1 else 0
  }

  function Placed(whole: string, tenths: nat, rest: nat, places: nat): string
    requires tenths < 10 && rest < 10
  {
    if places == 0 then whole
    else if places == 1 then whole + "." + [DIGITS[tenths]]
    else whole + "." + [DIGITS[tenths], DIGITS[rest]]
  }

  /** The fixed-place text of a decimal with that many places. */
  function Fixed(hundredths: nat, places: nat): string
  {
    Placed(Digits(hundredths / 100), Tenths(hundredths), hundredths % 10, places)
  }

  predicate FitsPlaces(hundredths: nat, places: nat)
  {
    places <= 2 && (places == 0 ==> hundredths % 100 == 0) && (places == 1 ==> hundredths % 10 == 0)
  }

  predicate Zero(c: char)
  {
    c == '0'
  }

  predicate Point(c: char)
  {
    c == '.'
  }

  /** `_trim`: zeros and then a point off the end of a text that has one. */
  function Stripped(text: string): string
  {
    var t := if '.' in text then TrimRight(TrimRight(text, Zero), Point) else text;
    if t == "" then "0" else t
  }

  lemma StripEnd(s: string, c: char, cut: char -> bool)
    ensures TrimRight(s + [c], cut) == if cut(c) then TrimRight(s, cut) else s + [c]
  {
    assert (s + [c])[..|s|] == s;
  }

  lemma StripPoint(whole: string)
    requires '.' !in whole && whole != ""
    ensures TrimRight(TrimRight(whole + ['.'], Zero), Point) == whole
  {
    StripEnd(whole, '.', Zero);
    StripEnd(whole, '.', Point);
  }

  lemma StripOne(whole: string, c: char)
    requires '.' !in whole && whole != "" && c != '.'
    ensures Stripped(whole + "." + [c]) == if c == '0' then whole else whole + "." + [c]
  {
    StripEnd(whole + ['.'], c, Zero);
    StripEnd(whole + ['.'], c, Point);
    StripPoint(whole);
  }

  lemma StripTwo(whole: string, a: char, b: char)
    requires '.' !in whole && whole != "" && a != '.' && b != '.'
    ensures Stripped(whole + "." + [a, b]) == if b == '0' then Stripped(whole + "." + [a]) else whole + "." + [a, b]
  {
    var s := whole + "." + [a];
    assert whole + "." + [a, b] == s + [b];
    assert s[|whole|] == '.' && (s + [b])[|whole|] == '.';
    StripEnd(s, b, Zero);
    StripEnd(s, b, Point);
  }

  lemma DigitIsNoPoint(k: nat)
    requires k < 10
    ensures DIGITS[k] != '.' && (DIGITS[k] == '0' <==> k == 0)
  {
  }

  lemma StrippedIsShortened(whole: string, tenths: nat, rest: nat, places: nat)
    requires '.' !in whole && whole != "" && tenths < 10 && rest < 10 && places <= 2
    requires (places == 0 ==> tenths == 0) && (places <= 1 ==> rest == 0)
    ensures Stripped(Placed(whole, tenths, rest, places)) == Shortened(whole, tenths, rest)
  {
    DigitIsNoPoint(tenths);
    DigitIsNoPoint(rest);
    StripOne(whole, DIGITS[tenths]);
    StripTwo(whole, DIGITS[tenths], DIGITS[rest]);
  }

  /** Stripping the fixed-place text of a value with no more places than that gives its shortest
      text, whatever places it was written with. */
  lemma StrippedIsShortest(hundredths: nat, places: nat)
    requires FitsPlaces(hundredths, places)
    ensures Stripped(Fixed(hundredths, places)) == Shortest(hundredths)
  {
    if places == 0 {
      assert hundredths == 100 * (hundredths / 100);
    }
    StrippedIsShortened(Digits(hundredths / 100), Tenths(hundredths), hundredths % 10, places);
  }

  lemma RoundingFitsItsPlaces(m: nat, t: int)
    requires t > 0
    ensures FitsPlaces(RoundSignificant(m, t), Places(m, t))
  {
  }

  function ValueOf(c: char): nat
  {
    if '0' <= c <= '9' then c as nat - '0' as nat else 0
  }

  function ReadNat(s: string): nat
  {
    if s == "" then 0 else 10 * ReadNat(s[..|s| - 1]) + ValueOf(s[|s| - 1])
  }

  /** A decimal text read as hundredths. */
  function ReadBack(s: string): nat
  {
    var (whole, _, fraction) := Partition(s, '.');
    100 * ReadNat(whole) +
    (if fraction == "" then 0
     else if |fraction| == 1 then 10 * ValueOf(fraction[0])
     else 10 * ValueOf(fraction[0]) + ValueOf(fraction[1]))
  }

  lemma {:induction false} DigitsReadBack(n: nat)
    ensures ReadNat(Digits(n)) == n
  {
    var s := Digits(n);
    assert ValueOf(DIGITS[n % 10]) == n % 10;
    if n < 10 {
      assert s[..0] == "";
    } else {
      DigitsReadBack(n / 10);
      assert s[..|s| - 1] == Digits(n / 10);
    }
  }

  lemma ShortenedReadsBack(whole: string, tenths: nat, rest: nat)
    requires '.' !in whole && tenths < 10 && rest < 10
    ensures ReadBack(Shortened(whole, tenths, rest)) == 100 * ReadNat(whole) + 10 * tenths + rest
  {
    assert ValueOf(DIGITS[tenths]) == tenths && ValueOf(DIGITS[rest]) == rest;
    IndexOfAppend(whole, '.', "");
    PartitionAppend(whole, '.', [DIGITS[tenths]]);
    PartitionAppend(whole, '.', [DIGITS[tenths], DIGITS[rest]]);
  }

  /** The shortest text loses nothing: it reads back as the value it shows. */
  lemma ShortestReadsBack(hundredths: nat)
    ensures ReadBack(Shortest(hundredths)) == hundredths
  {
    DigitsReadBack(hundredths / 100);
    ShortenedReadsBack(Digits(hundredths / 100), Tenths(hundredths), hundredths % 10);
    PlaceValues(hundredths);
  }

  lemma PlaceValues(n: nat)
    ensures n == 100 * (n / 100) + 10 * Tenths(n) + n % 10
  {
    assert n / 10 == 10 * (n / 100) + n / 10 % 10;
  }

  // The text as a reader finds it

  predicate IsDigit(c: char)
  {
    '0' <= c <= '9'
  }

  /** A plain decimal: digits, then perhaps a point and one or two digits of which the last is no
      zero; and no zero to lead it but a single one. */
  ghost predicate IsNumber(n: string)
  {
    var (whole, pointed, fraction) := Partition(n, '.');
    && whole != "" && (forall c | c in whole :: IsDigit(c)) && (|whole| > 1 ==> whole[0] != '0')
    && (forall c | c in fraction :: IsDigit(c))
    && (pointed ==> 1 <= |fraction| <= 2 && fraction[|fraction| - 1] != '0')
  }

  lemma {:induction false} DigitsAreANumber(n: nat)
    ensures forall c | c in Digits(n) :: IsDigit(c)
    ensures n > 0 ==> Digits(n)[0] != '0'
    ensures n == 0 ==> Digits(n) == "0"
  {
    if n >= 10 {
      DigitsAreANumber(n / 10);
    }
  }

  /** A number with nothing after a point, and one with a point and digits after it. */
  lemma WholeIsANumber(whole: string)
    requires whole != "" && '.' !in whole && (forall c | c in whole :: IsDigit(c))
    requires |whole| > 1 ==> whole[0] != '0'
    ensures IsNumber(whole)
  {
    IndexOfAppend(whole, '.', "");
  }

  lemma PointedIsANumber(whole: string, fraction: string)
    requires IsNumber(whole) && '.' !in whole
    requires 1 <= |fraction| <= 2 && (forall c | c in fraction :: IsDigit(c)) && fraction[|fraction| - 1] != '0'
    ensures IsNumber(whole + "." + fraction)
  {
    IndexOfAppend(whole, '.', "");
    PartitionAppend(whole, '.', fraction);
  }

  lemma ShortestIsANumber(hundredths: nat)
    ensures IsNumber(Shortest(hundredths)) && ReadBack(Shortest(hundredths)) == hundredths
  {
    var whole, tenths, rest := Digits(hundredths / 100), Tenths(hundredths), hundredths % 10;
    DigitsAreANumber(hundredths / 100);
    DigitIsNoPoint(tenths);
    DigitIsNoPoint(rest);
    WholeIsANumber(whole);
    if rest != 0 {
      PointedIsANumber(whole, [DIGITS[tenths], DIGITS[rest]]);
    } else if tenths != 0 {
      PointedIsANumber(whole, [DIGITS[tenths]]);
    }
    ShortestReadsBack(hundredths);
  }

  /** What stands after the number when a display has this unit. */
  function Tail(scale: seq<Unit>, separator: string, unit: Option<nat>): string
    requires unit.Some? ==> unit.value < |scale|
  {
    if unit.None? then "" else separator + scale[unit.value].suffix
  }

  /** How much of a text is digits and points. */
  function NumberLength(s: string): (k: nat)
    ensures k <= |s|
  {
    if s == "" || !(IsDigit(s[0]) || s[0] == '.') then 0 else 1 + NumberLength(s[1..])
  }

  /** The first unit written so after the number. */
  function UnitNamed(scale: seq<Unit>, separator: string, tail: string): (i: nat)
    ensures i <= |scale|
    ensures i < |scale| ==> separator + scale[i].suffix == tail
    ensures forall j | 0 <= j < i :: separator + scale[j].suffix != tail
  {
    if scale == [] || separator + scale[0].suffix == tail then 0
    else 1 + UnitNamed(scale[1..], separator, tail)
  }

  /** A reader who knows the locale: the hundredths of one that a text stands for. */
  function ReadCount(scale: seq<Unit>, separator: string, text: string): Option<int>
  {
    if text != "" && text[0] == '-' then
      var worth := ReadBody(scale, separator, text[1..]);
      if worth.None? then None else Some(-worth.value)
    else
      ReadBody(scale, separator, text)
  }

  /** The number, and the unit named after it if anything is. */
  function ReadBody(scale: seq<Unit>, separator: string, body: string): Option<int>
  {
    var k := NumberLength(body);
    var i := UnitNamed(scale, separator, body[k..]);
    if k == 0 then None
    else if k == |body| then Some(ReadBack(body))
    else if i == |scale| then None
    else Some(ReadBack(body[..k]) * scale[i].threshold)
  }

  /** The locale's units can be told from the number before them, and from one another. */
  ghost predicate UnitsTell(scale: seq<Unit>, separator: string)
  {
    && (forall i | 0 <= i < |scale| ::
          var tail := separator + scale[i].suffix;
          tail != "" && !IsDigit(tail[0]) && tail[0] != '.')
    && (forall i, j | 0 <= i < j < |scale| && scale[i].suffix == scale[j].suffix ::
          scale[i].threshold == scale[j].threshold)
  }

  lemma {:induction false} NumberIsCut(number: string, tail: string)
    requires forall c | c in number :: IsDigit(c) || c == '.'
    requires tail == "" || (!IsDigit(tail[0]) && tail[0] != '.')
    ensures NumberLength(number + tail) == |number|
  {
    if number == "" {
      assert number + tail == tail;
    } else {
      NumberIsCut(number[1..], tail);
      assert (number + tail)[1..] == number[1..] + tail;
      assert number[0] in number;
    }
  }

  lemma NumberHasNoSign(number: string)
    requires IsNumber(number)
    ensures number != "" && IsDigit(number[0])
    ensures forall c | c in number :: IsDigit(c) || c == '.'
  {
    var (whole, pointed, fraction) := Partition(number, '.');
    assert number == if pointed then whole + ['.'] + fraction else whole;
    assert whole[0] in whole && number[0] == whole[0];
  }

  /** The number stops where the unit begins, and the unit is found again. */
  lemma BodyIsCut(scale: seq<Unit>, separator: string, unit: Option<nat>, number: string)
    requires UnitsTell(scale, separator) && (unit.Some? ==> unit.value < |scale|) && IsNumber(number)
    ensures var body := number + Tail(scale, separator, unit);
      && body != "" && body[0] != '-' && NumberLength(body) == |number| > 0
      && body[..|number|] == number && body[|number|..] == Tail(scale, separator, unit)
  {
    NumberHasNoSign(number);
    NumberIsCut(number, Tail(scale, separator, unit));
  }

  lemma UnitIsFound(scale: seq<Unit>, separator: string, k: nat)
    requires UnitsTell(scale, separator) && k < |scale|
    ensures var tail := separator + scale[k].suffix;
      var i := UnitNamed(scale, separator, tail);
      tail != "" && i < |scale| && scale[i].threshold == scale[k].threshold
  {
    var i := UnitNamed(scale, separator, separator + scale[k].suffix);
    assert i <= k;
    SuffixAfter(separator, scale[i].suffix, scale[k].suffix);
  }

  /** What a reader makes of a text without a sign. */
  lemma BodyReadsBack(scale: seq<Unit>, separator: string, shown: Shown, number: string)
    requires UnitsTell(scale, separator) && (shown.unit.Some? ==> shown.unit.value < |scale|)
    requires IsNumber(number) && ReadBack(number) == shown.hundredths
    ensures ReadBody(scale, separator, number + Tail(scale, separator, shown.unit)) ==
      Some(Worth(scale, shown.(negative := false)))
  {
    BodyIsCut(scale, separator, shown.unit, number);
    if shown.unit.Some? {
      UnitIsFound(scale, separator, shown.unit.value);
    } else {
      assert number + Tail(scale, separator, None) == number;
    }
  }

  lemma SignIsRead(scale: seq<Unit>, separator: string, negative: bool, body: string)
    requires body != "" && body[0] != '-' && ReadBody(scale, separator, body).Some?
    ensures var worth := ReadBody(scale, separator, body).value;
      ReadCount(scale, separator, (if negative then "-" else "") + body) == Some(if negative then -worth else worth)
  {
    if negative {
      assert ("-" + body)[1..] == body;
    } else {
      assert "" + body == body;
    }
  }

  /** Sign, number and unit read back as what the display stands for. */
  lemma TextReadsBack(scale: seq<Unit>, separator: string, shown: Shown, number: string)
    requires UnitsTell(scale, separator) && (shown.unit.Some? ==> shown.unit.value < |scale|)
    requires IsNumber(number) && ReadBack(number) == shown.hundredths
    ensures ReadCount(
      scale, separator, (if shown.negative then "-" else "") + (number + Tail(scale, separator, shown.unit)))
      == Some(Worth(scale, shown))
  {
    var body := number + Tail(scale, separator, shown.unit);
    BodyIsCut(scale, separator, shown.unit, number);
    BodyReadsBack(scale, separator, shown, number);
    SignIsRead(scale, separator, shown.negative, body);
  }

  lemma SuffixAfter(separator: string, a: string, b: string)
    requires separator + a == separator + b
    ensures a == b
  {
    assert a == (separator + a)[|separator|..] && b == (separator + b)[|separator|..];
  }

  // The operation

  /** What a display reads as: sign, shortest number, and the unit after its separator. */
  function Rendered(scale: seq<Unit>, separator: string, shown: Shown): string
    requires shown.unit.Some? ==> shown.unit.value < |scale|
  {
    (if shown.negative then "-" else "") + Shortest(shown.hundredths) +
    (if shown.unit.None? then "" else separator + scale[shown.unit.value].suffix)
  }

  /** What is written for a count, as its reader finds it. */
  lemma RenderedReads(scale: seq<Unit>, separator: string, value: int)
    requires Scale(scale)
    ensures var shown := Display(scale, value);
      && (shown.unit.Some? ==> shown.unit.value < |scale|)
      && var text := Rendered(scale, separator, shown);
         && Spells(text, if value < 0 then "-" else "", shown.hundredths,
                   if shown.unit.None? then "" else separator + scale[shown.unit.value].suffix)
         && text != "" && (text[0] == '-' <==> value < 0)
         && (UnitsTell(scale, separator) ==>
               && ReadCount(scale, separator, text) == Some(DisplayWorth(scale, value))
               && 2 * Magnitude(DisplayWorth(scale, value) - 100 * value) <= Magnitude(value))
  {
    DisplayIsClose(scale, value);
    var shown := Display(scale, value);
    var number := Shortest(shown.hundredths);
    ShortestIsANumber(shown.hundredths);
    NumberHasNoSign(number);
    if UnitsTell(scale, separator) {
      TextReadsBack(scale, separator, shown, number);
      Regroup(if shown.negative then "-" else "", number, Tail(scale, separator, shown.unit));
    }
  }

  /** A sign, a plain decimal of that many hundredths, and what follows it. */
  ghost predicate Spells(text: string, sign: string, hundredths: nat, tail: string)
  {
    exists number :: IsNumber(number) && ReadBack(number) == hundredths && text == sign + number + tail
  }

  /** The sign, the decimal's own text stripped, and the unit after its separator. */
  method Write(scale: seq<Unit>, separator: string, shown: Shown, places: nat) returns (text: string)
    requires shown.unit.Some? ==> shown.unit.value < |scale|
    requires FitsPlaces(shown.hundredths, places)
    ensures text == Rendered(scale, separator, shown)
  {
    StrippedIsShortest(shown.hundredths, places);
    text := if shown.negative then "-" else "";
    text := text + Stripped(Fixed(shown.hundredths, places));
    text := text + if shown.unit.None? then "" else separator + scale[shown.unit.value].suffix;
  }

  /** `format_count`: what its text tells a reader. The sign stands first exactly for a negative
      count; a plain decimal follows, then the unit and nothing else; and in a locale whose units
      can be told apart, reading it back gives what is displayed. */
  method FormatCount(scale: seq<Unit>, separator: string, value: int) returns (shown: Shown, text: string)
    requires Scale(scale)
    ensures shown == Display(scale, value)
    ensures shown.unit.Some? ==> shown.unit.value < |scale|
    ensures Spells(text, if value < 0 then "-" else "", shown.hundredths,
                   if shown.unit.None? then "" else separator + scale[shown.unit.value].suffix)
    ensures text != "" && (text[0] == '-' <==> value < 0)
    ensures UnitsTell(scale, separator) ==>
      && ReadCount(scale, separator, text) == Some(DisplayWorth(scale, value))
      && 2 * Magnitude(DisplayWorth(scale, value) - 100 * value) <= Magnitude(value)
  {
    shown, text := Compose(scale, separator, value);
    RenderedReads(scale, separator, value);
  }

  /** The loop over the scale as written, looking one unit back. */
  method Compose(scale: seq<Unit>, separator: string, value: int) returns (shown: Shown, text: string)
    requires Scale(scale)
    ensures shown == Display(scale, value)
    ensures shown.unit.Some? ==> shown.unit.value < |scale|
    ensures text == Rendered(scale, separator, shown)
  {
    var magnitude := if value < 0 then -value else value;
    for index := 0 to |scale|
      invariant FirstReached(scale, magnitude) == index + FirstReached(scale[index..], magnitude)
    {
      FirstReachedFrom(scale, magnitude, index);
      if magnitude < scale[index].threshold {
        continue;
      }
      shown, text := InUnit(scale, separator, value, index);
      return;
    }
    shown := Shown(value < 0, 100 * magnitude, None);
    text := Write(scale, separator, shown, 0);
  }

  /** The loop's body for the unit the magnitude reaches: rounded there, or carried to the next. */
  method InUnit(scale: seq<Unit>, separator: string, value: int, index: nat) returns (shown: Shown, text: string)
    requires Scale(scale) && index < |scale| && FirstReached(scale, Magnitude(value)) == index
    ensures shown == Display(scale, value) && shown.unit.Some? && shown.unit.value < |scale|
    ensures text == Rendered(scale, separator, shown)
  {
    var magnitude := if value < 0 then -value else value;
    var unit := index;
    var scaled := RoundSignificant(magnitude, scale[unit].threshold);
    if Carries(scale, magnitude, index) {
      unit := index - 1;
      scaled := RoundSignificant(magnitude, scale[unit].threshold);
    }
    RoundingFitsItsPlaces(magnitude, scale[unit].threshold);
    shown := Shown(value < 0, scaled, Some(unit));
    text := Write(scale, separator, shown, Places(magnitude, scale[unit].threshold));
  }
}
