/** Counts as a locale writes them: three significant digits of a unit, rounded half up, with a
    carry into the next unit when rounding reaches it. Decimals are exact: a scaled value is a
    whole number of hundredths, which is the finest place the rounding keeps. */
module CountFormat {
  import opened Options

  datatype Unit = Unit(threshold: int, suffix: string)

  /** Largest unit first, every threshold positive. */
  ghost predicate Scale(scale: seq<Unit>)
  {
    && (forall i | 0 <= i < |scale| :: scale[i].threshold > 0)
    && (forall i, j | 0 <= i < j < |scale| :: scale[i].threshold >= scale[j].threshold)
  }

  /** What is shown: a sign, a number of hundredths, and the unit it counts, if any. */
  datatype Shown = Shown(negative: bool, hundredths: nat, unit: Option<nat>)

  /** `m / t` rounded half up to three significant digits, in hundredths. */
  function RoundSignificant(m: nat, t: int): nat
    requires t > 0
  {
    if m < 10 * t then (200 * m + t) / (2 * t)
    else if m < 100 * t then 10 * ((20 * m + t) / (2 * t))
    else 100 * ((2 * m + t) / (2 * t))
  }

  /** The first unit, from the largest down, that the magnitude reaches. */
  function FirstReached(scale: seq<Unit>, m: nat): (i: nat)
    ensures i <= |scale|
    ensures i < |scale| ==> m >= scale[i].threshold
    ensures forall j | 0 <= j < i :: m < scale[j].threshold
  {
    if scale == [] || m >= scale[0].threshold then 0 else 1 + FirstReached(scale[1..], m)
  }

  /** Rounding in this unit reaches the next larger one. */
  predicate Carries(scale: seq<Unit>, m: nat, i: nat)
    requires i < |scale| && scale[i].threshold > 0
  {
    i > 0 && RoundSignificant(m, scale[i].threshold) * scale[i].threshold >= 100 * scale[i - 1].threshold
  }

  function Magnitude(value: int): nat
  {
    if value < 0 then -value else value
  }

  function Display(scale: seq<Unit>, value: int): Shown
    requires Scale(scale)
  {
    var m := Magnitude(value);
    var i := FirstReached(scale, m);
    if i == |scale| then Shown(value < 0, 100 * m, None)
    else
      var k := if Carries(scale, m, i) then i - 1 else i;
      Shown(value < 0, RoundSignificant(m, scale[k].threshold), Some(k))
  }

  lemma FirstReachedFrom(scale: seq<Unit>, m: nat, i: nat)
    requires i < |scale|
    ensures FirstReached(scale[i..], m) == if m >= scale[i].threshold then 0 else 1 + FirstReached(scale[i + 1..], m)
  {
  }

  /** Hundredths of one that a display stands for. */
  function Worth(scale: seq<Unit>, shown: Shown): int
    requires shown.unit.Some? ==> shown.unit.value < |scale|
  {
    var w := if shown.unit.None? then shown.hundredths else shown.hundredths * scale[shown.unit.value].threshold;
    if shown.negative then -w else w
  }

  // Rounding

  lemma SignOfFactor(d: int, t: int)
    requires t > 0 && d * t > 0
    ensures d > 0
  {
  }

  lemma QuotientAtLeast(a: nat, q: nat, t: int)
    requires t > 0 && a >= q * t
    ensures a / t >= q
  {
    var x := a / t;
    assert a == t * x + a % t;
    assert (x + 1 - q) * t == t * x + t - q * t;
    SignOfFactor(x + 1 - q, t);
  }

  lemma QuotientAtMost(a: nat, q: nat, t: int)
    requires t > 0 && a < (q + 1) * t
    ensures a / t <= q
  {
    var x := a / t;
    assert a == t * x + a % t;
    assert (q + 1 - x) * t == (q + 1) * t - t * x;
    SignOfFactor(q + 1 - x, t);
  }

  /** A larger dividend has no smaller quotient. */
  lemma QuotientIsMonotone(a: nat, b: nat, t: int)
    requires t > 0 && a <= b
    ensures a / t <= b / t
  {
    assert (a / t) * t <= a;
    QuotientAtLeast(b, a / t, t);
  }

  /** The rounded value is within one part in two hundred of the magnitude. */
  lemma RoundIsClose(m: nat, t: int)
    requires 0 < t <= m
    ensures 2 * (RoundSignificant(m, t) * t - 100 * m) <= m
    ensures 2 * (100 * m - RoundSignificant(m, t) * t) <= m
  {
  }

  /** Rounding starts at one whole unit and never decreases. */
  lemma RoundIsMonotone(m1: nat, m2: nat, t: int)
    requires t > 0 && m1 <= m2
    ensures RoundSignificant(m1, t) <= RoundSignificant(m2, t)
    ensures m2 >= t ==> RoundSignificant(m2, t) >= 100
  {
    RoundStaysInDecade(m1, t);
    RoundStaysInDecade(m2, t);
    QuotientIsMonotone(200 * m1 + t, 200 * m2 + t, 2 * t);
    QuotientIsMonotone(20 * m1 + t, 20 * m2 + t, 2 * t);
    QuotientIsMonotone(2 * m1 + t, 2 * m2 + t, 2 * t);
  }

  lemma RoundStaysInDecade(m: nat, t: int)
    requires t > 0
    ensures t <= m < 10 * t ==> 100 <= RoundSignificant(m, t)
    ensures m < 10 * t ==> RoundSignificant(m, t) <= 1000
    ensures 10 * t <= m < 100 * t ==> 1000 <= RoundSignificant(m, t) <= 10000
    ensures 100 * t <= m ==> 10000 <= RoundSignificant(m, t)
  {
    if m < 10 * t {
      if t <= m { QuotientAtLeast(200 * m + t, 100, 2 * t); }
      QuotientAtMost(200 * m + t, 1000, 2 * t);
    } else if m < 100 * t {
      QuotientAtLeast(20 * m + t, 100, 2 * t);
      QuotientAtMost(20 * m + t, 1000, 2 * t);
    } else {
      QuotientAtLeast(2 * m + t, 100, 2 * t);
    }
  }

  /** A carry lands on exactly one of the next unit. */
  lemma CarryLandsOnOne(m: nat, t: int, next: int)
    requires 0 < t <= m < next
    requires RoundSignificant(m, t) * t >= 100 * next
    ensures RoundSignificant(m, next) == 100
  {
    RoundIsClose(m, t);
    QuotientAtLeast(200 * m + next, 100, 2 * next);
    QuotientAtMost(200 * m + next, 100, 2 * next);
  }

  /** `h` hundredths of `t` are `m` rounded half up to three significant digits. */
  predicate HalfUp(h: nat, m: nat, t: int)
  {
    var step := if m < 10 * t then 1 else if m < 100 * t then 10 else 100;
    h % step == 0 && 200 * m - step * t < 2 * h * t <= 200 * m + step * t
  }

  lemma QuotientBounds(x: nat, t: int, q: int)
    requires t > 0 && q == x / (2 * t)
    ensures x - 2 * t < 2 * q * t <= x
  {
    assert x == (2 * t) * q + x % (2 * t);
    assert (2 * t) * q == 2 * q * t;
  }

  lemma RoundIsHalfUp(m: nat, t: int)
    requires t > 0
    ensures HalfUp(RoundSignificant(m, t), m, t)
  {
    if m < 10 * t {
      QuotientBounds(200 * m + t, t, RoundSignificant(m, t));
    } else if m < 100 * t {
      var q := (20 * m + t) / (2 * t);
      QuotientBounds(20 * m + t, t, q);
      assert 2 * (10 * q) * t == 10 * (2 * q * t);
    } else {
      var q := (2 * m + t) / (2 * t);
      QuotientBounds(2 * m + t, t, q);
      assert 2 * (100 * q) * t == 100 * (2 * q * t);
    }
  }

  // The display

  /** `m` rounded half up in units of `t` is worth one of the next unit. */
  ghost predicate RoundsUpTo(m: nat, t: int, next: int)
  {
    exists h: nat :: HalfUp(h, m, t) && h * t >= 100 * next
  }

  /** A count below every unit is written in full, and only such a one. */
  lemma DisplayIsExactBelowUnits(scale: seq<Unit>, value: int)
    requires Scale(scale)
    ensures var shown := Display(scale, value);
      var m := if value < 0 then -value else value;
      && (shown.negative <==> value < 0)
      && (shown.unit.None? <==> forall i | 0 <= i < |scale| :: m < scale[i].threshold)
      && (shown.unit.None? ==> shown.hundredths == 100 * m)
  {
  }

  /** Any other is shown in the first unit it reaches, rounded half up to three digits, unless
      that rounding is worth one of the next unit: then, and only then, in that one. */
  lemma DisplayIsHalfUp(scale: seq<Unit>, value: int)
    requires Scale(scale) && Display(scale, value).unit.Some?
    ensures var shown := Display(scale, value);
      var m := if value < 0 then -value else value;
      var k := shown.unit.value;
      && k < |scale| && HalfUp(shown.hundredths, m, scale[k].threshold)
      && (k > 0 ==> m < scale[k - 1].threshold)
      && (k > 0 && m >= scale[k].threshold ==>
            shown.hundredths * scale[k].threshold < 100 * scale[k - 1].threshold)
      && (m < scale[k].threshold ==>
            && k + 1 < |scale| && m >= scale[k + 1].threshold
            && RoundsUpTo(m, scale[k + 1].threshold, scale[k].threshold))
  {
    var m := Magnitude(value);
    var i := FirstReached(scale, m);
    if Carries(scale, m, i) {
      RoundIsHalfUp(m, scale[i].threshold);
      RoundIsHalfUp(m, scale[i - 1].threshold);
    } else {
      RoundIsHalfUp(m, scale[i].threshold);
      NoCarry(scale, m, i);
    }
  }

  lemma NoCarry(scale: seq<Unit>, m: nat, i: nat)
    requires i < |scale| && scale[i].threshold > 0 && !Carries(scale, m, i)
    ensures i > 0 ==> RoundSignificant(m, scale[i].threshold) * scale[i].threshold < 100 * scale[i - 1].threshold
  {
  }

  /** Every display is within 1/200 of its count, on the same side of zero, and a carried one
      is exactly one of a unit that is itself below the next: one carry is enough. */
  lemma DisplayIsClose(scale: seq<Unit>, value: int)
    requires Scale(scale)
    ensures var shown := Display(scale, value);
      && (shown.unit.Some? ==> shown.unit.value < |scale|)
      && 2 * Magnitude(Worth(scale, shown) - 100 * value) <= Magnitude(value)
      && (shown.unit.None? ==> Worth(scale, shown) == 100 * value)
    ensures var shown := Display(scale, value);
      var i := FirstReached(scale, Magnitude(value));
      i < |scale| && shown.unit != Some(i) ==>
        && shown.unit == Some(i - 1) && shown.hundredths == 100
        && Magnitude(value) < scale[i - 1].threshold
        && (i >= 2 ==> Magnitude(value) < scale[i - 2].threshold)
  {
    var m := Magnitude(value);
    var i := FirstReached(scale, m);
    if i < |scale| {
      var t := scale[i].threshold;
      RoundIsClose(m, t);
      if Carries(scale, m, i) {
        CarryLandsOnOne(m, t, scale[i - 1].threshold);
      }
    }
  }

  /** Hundredths of one that the display of a magnitude stands for: one of the next unit when it
      carries, and the rounded value otherwise. */
  function MagnitudeWorth(scale: seq<Unit>, m: nat): (w: int)
    ensures w >= 0
    requires Scale(scale)
  {
    var i := FirstReached(scale, m);
    if i == |scale| then 100 * m
    else if Carries(scale, m, i) then 100 * scale[i - 1].threshold
    else RoundedWorth(m, scale[i].threshold)
  }

  function RoundedWorth(m: nat, t: int): (w: int)
    requires t > 0
    ensures w >= 0
  {
    ProductIsMonotone(0, RoundSignificant(m, t), t);
    RoundSignificant(m, t) * t
  }

  lemma ProductIsMonotone(a: int, b: int, t: int)
    requires a <= b && t >= 0
    ensures a * t <= b * t
  {
  }

  lemma RoundedWorthIsMonotone(m1: nat, m2: nat, t: int)
    requires t > 0 && m1 <= m2
    ensures RoundedWorth(m1, t) <= RoundedWorth(m2, t)
    ensures m2 >= t ==> RoundedWorth(m2, t) >= 100 * t
  {
    RoundIsMonotone(m1, m2, t);
    ProductIsMonotone(RoundSignificant(m1, t), RoundSignificant(m2, t), t);
    if m2 >= t {
      ProductIsMonotone(100, RoundSignificant(m2, t), t);
    }
  }

  lemma DisplayIsWorth(scale: seq<Unit>, value: int)
    requires Scale(scale)
    ensures var shown := Display(scale, value);
      && (shown.unit.Some? ==> shown.unit.value < |scale|)
      && Worth(scale, shown) ==
           if value < 0 then -MagnitudeWorth(scale, -value) else MagnitudeWorth(scale, value)
  {
    var m := Magnitude(value);
    var i := FirstReached(scale, m);
    if i < |scale| && Carries(scale, m, i) {
      CarryLandsOnOne(m, scale[i].threshold, scale[i - 1].threshold);
    }
  }

  lemma WorthIsBetween(scale: seq<Unit>, m: nat)
    requires Scale(scale) && FirstReached(scale, m) < |scale|
    ensures var i := FirstReached(scale, m);
      && MagnitudeWorth(scale, m) >= 100 * scale[i].threshold
      && (i > 0 ==> MagnitudeWorth(scale, m) <= 100 * scale[i - 1].threshold)
  {
    var i := FirstReached(scale, m);
    RoundedWorthIsMonotone(m, m, scale[i].threshold);
  }

  lemma LargerReachesEarlier(scale: seq<Unit>, m1: nat, m2: nat)
    requires m1 <= m2
    ensures FirstReached(scale, m2) <= FirstReached(scale, m1)
  {
  }

  lemma MagnitudeWorthIsMonotone(scale: seq<Unit>, m1: nat, m2: nat)
    requires Scale(scale) && m1 <= m2
    ensures MagnitudeWorth(scale, m1) <= MagnitudeWorth(scale, m2)
  {
    LargerReachesEarlier(scale, m1, m2);
    var i1, i2 := FirstReached(scale, m1), FirstReached(scale, m2);
    if i2 < |scale| {
      WorthIsBetween(scale, m2);
      if i1 == |scale| {
        assert m1 < scale[i2].threshold;
      } else {
        WorthIsBetween(scale, m1);
        if i1 == i2 {
          SameUnitIsMonotone(scale, m1, m2);
        } else {
          assert scale[i1 - 1].threshold <= scale[i2].threshold;
        }
      }
    }
  }

  lemma SameUnitIsMonotone(scale: seq<Unit>, m1: nat, m2: nat)
    requires Scale(scale) && m1 <= m2
    requires FirstReached(scale, m1) == FirstReached(scale, m2) < |scale|
    ensures MagnitudeWorth(scale, m1) <= MagnitudeWorth(scale, m2)
  {
    var i := FirstReached(scale, m1);
    RoundedWorthIsMonotone(m1, m2, scale[i].threshold);
    if i > 0 {
      WorthIsBetween(scale, m1);
      WorthIsBetween(scale, m2);
    }
  }

  function DisplayWorth(scale: seq<Unit>, value: int): int
    requires Scale(scale)
  {
    DisplayIsWorth(scale, value);
    Worth(scale, Display(scale, value))
  }

  /** Whatever the scale, a larger count never shows as a smaller one. */
  lemma DisplayIsMonotone(scale: seq<Unit>, v1: int, v2: int)
    requires Scale(scale) && v1 <= v2
    ensures DisplayWorth(scale, v1) <= DisplayWorth(scale, v2)
  {
    DisplayIsWorth(scale, v1);
    DisplayIsWorth(scale, v2);
    if 0 <= v1 {
      MagnitudeWorthIsMonotone(scale, v1, v2);
    } else if v2 < 0 {
      MagnitudeWorthIsMonotone(scale, -v2, -v1);
    }
  }

  // The scale

  function InsertUnit(u: Unit, units: seq<Unit>): seq<Unit>
  {
    if units == [] || u.threshold >= units[0].threshold then [u] + units
    else [units[0]] + InsertUnit(u, units[1..])
  }

  /** What a locale file's entries become: `None` is an entry that could not be read. */
  function ParseScale(raw: seq<Option<Unit>>): seq<Unit>
  {
    if raw == [] then []
    else if raw[0].Some? && raw[0].value.threshold > 0 then InsertUnit(raw[0].value, ParseScale(raw[1..]))
    else ParseScale(raw[1..])
  }

  lemma {:induction false} InsertHolds(u: Unit, units: seq<Unit>)
    ensures multiset(InsertUnit(u, units)) == multiset(units) + multiset{u}
  {
    if units != [] {
      assert units == [units[0]] + units[1..];
      if u.threshold < units[0].threshold {
        InsertHolds(u, units[1..]);
      }
    }
  }

  predicate NoneAbove(units: seq<Unit>, t: int)
  {
    forall i | 0 <= i < |units| :: units[i].threshold <= t
  }

  lemma {:induction false} InsertKeepsScale(u: Unit, units: seq<Unit>)
    requires Scale(units) && u.threshold > 0
    ensures Scale(InsertUnit(u, units))
    ensures forall t | NoneAbove(units, t) && u.threshold <= t :: NoneAbove(InsertUnit(u, units), t)
  {
    if units != [] && u.threshold < units[0].threshold {
      var rest := units[1..];
      InsertKeepsScale(u, rest);
      assert NoneAbove(rest, units[0].threshold);
      forall t | NoneAbove(units, t) && u.threshold <= t ensures NoneAbove(InsertUnit(u, units), t) {
        assert NoneAbove(rest, t);
      }
    }
  }

  /** Any locale file yields a scale the arithmetic is sound over, holding every readable entry
      with a positive threshold as often as the file does, and nothing else. */
  lemma {:induction false} ParsedScaleIsAScale(raw: seq<Option<Unit>>)
    ensures Scale(ParseScale(raw))
    ensures forall u :: multiset(ParseScale(raw))[u] == if u.threshold > 0 then multiset(raw)[Some(u)] else 0
  {
    if raw != [] {
      ParsedScaleIsAScale(raw[1..]);
      assert raw == [raw[0]] + raw[1..];
      if raw[0].Some? && raw[0].value.threshold > 0 {
        InsertKeepsScale(raw[0].value, ParseScale(raw[1..]));
        InsertHolds(raw[0].value, ParseScale(raw[1..]));
      }
    }
  }
}
