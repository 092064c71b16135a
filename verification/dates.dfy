/** src/utils/date.ts: `parseDate(s)` is `new Date(s + 'T00:00:00Z')`, an
    instant at UTC midnight. The model keeps instants as milliseconds since
    1970-01-01T00:00:00Z on the proleptic Gregorian calendar, and an
    unparseable string as `None` (JavaScript's Invalid Date, whose time is
    NaN). */
module Dates {
  import opened Base
  import opened Text

  const MsPerDay: nat := 86400000

  /** Days from 0000-01-01 to 1970-01-01. */
  const EpochDayNumber: nat := 719528

  predicate IsLeapYear(y: int) {
    y % 4 == 0 && (y % 100 != 0 || y % 400 == 0)
  }

  function YearLength(y: int): nat {
    if IsLeapYear(y) then 366 else 365
  }

  function DaysInMonth(y: int, m: int): nat
    requires 1 <= m <= 12
  {
    if m == 2 then (if IsLeapYear(y) then 29 else 28)
    else if m == 4 || m == 6 || m == 9 || m == 11 then 30
    else 31
  }

  /** Days of year `y` that lie before month `m` (13 = the whole year). */
  function DaysBeforeMonth(y: int, m: int): nat
    requires 1 <= m <= 13
  {
    if m == 1 then 0 else DaysBeforeMonth(y, m - 1) + DaysInMonth(y, m - 1)
  }

  /** Days from 0000-01-01 to the first of January of year `y`: 365 per
      year plus one per leap year in [0, y). */
  function DaysBeforeYear(y: nat): nat {
    365 * y + (y + 3) / 4 - (y + 99) / 100 + (y + 399) / 400
  }

  predicate ValidCivil(y: int, m: int, d: int) {
    0 <= y <= 9999 && 1 <= m <= 12 && 1 <= d <= DaysInMonth(y, m)
  }

  /** Days from 0000-01-01 to the given calendar day. */
  function DayNumber(y: int, m: int, d: int): int
    requires ValidCivil(y, m, d)
  {
    DaysBeforeYear(y) + DaysBeforeMonth(y, m) + d - 1
  }

  /** UTC midnight of a calendar day, in milliseconds since the epoch. */
  function EpochMs(y: int, m: int, d: int): int
    requires ValidCivil(y, m, d)
  {
    (DayNumber(y, m, d) - EpochDayNumber) * MsPerDay
  }

  // ---------------------------------------------------------------------
  // Calendar arithmetic
  // ---------------------------------------------------------------------

  lemma WholeYearOfMonths(y: int)
    ensures DaysBeforeMonth(y, 13) == YearLength(y)
  {
    var leap := if IsLeapYear(y) then 1 else 0;
    assert DaysBeforeMonth(y, 2) == 31;
    assert DaysBeforeMonth(y, 3) == 59 + leap;
    assert DaysBeforeMonth(y, 4) == 90 + leap;
    assert DaysBeforeMonth(y, 5) == 120 + leap;
    assert DaysBeforeMonth(y, 6) == 151 + leap;
    assert DaysBeforeMonth(y, 7) == 181 + leap;
    assert DaysBeforeMonth(y, 8) == 212 + leap;
    assert DaysBeforeMonth(y, 9) == 243 + leap;
    assert DaysBeforeMonth(y, 10) == 273 + leap;
    assert DaysBeforeMonth(y, 11) == 304 + leap;
    assert DaysBeforeMonth(y, 12) == 334 + leap;
  }

  lemma DaysBeforeYearStep(y: nat)
    ensures DaysBeforeYear(y + 1) == DaysBeforeYear(y) + YearLength(y)
  {
    var a, b, c := (y + 3) / 4, (y + 99) / 100, (y + 399) / 400;
    var a', b', c' := (y + 4) / 4, (y + 100) / 100, (y + 400) / 400;
    assert DaysBeforeYear(y) == 365 * y + a - b + c;
    assert DaysBeforeYear(y + 1) == 365 * y + 365 + a' - b' + c';
    CountStep4(y);
    CountStep100(y);
    CountStep400(y);
    LeapCount(y);
  }

  /** The leap-year rule as a count: one per multiple of 4, minus one per
      multiple of 100, plus one per multiple of 400. */
  lemma LeapCount(y: nat)
    ensures YearLength(y) ==
      365 + (if y % 4 == 0 then 1 else 0) - (if y % 100 == 0 then 1 else 0) + (if y % 400 == 0 then 1 else 0)
  {
    if y % 100 == 0 {
      assert y % 4 == 0;
    }
    if y % 400 == 0 {
      assert y % 100 == 0;
    }
  }

  /** `(y + d - 1) / d` counts the multiples of `d` in [0, y); stepping `y`
      adds one exactly when `y` is such a multiple. */
  lemma CountStep4(y: nat)
    ensures (y + 4) / 4 == (y + 3) / 4 + (if y % 4 == 0 then 1 else 0)
  {
  }

  lemma CountStep100(y: nat)
    ensures (y + 100) / 100 == (y + 99) / 100 + (if y % 100 == 0 then 1 else 0)
  {
  }

  lemma CountStep400(y: nat)
    ensures (y + 400) / 400 == (y + 399) / 400 + (if y % 400 == 0 then 1 else 0)
  {
  }

  lemma {:induction false} DaysBeforeYearGrows(y1: nat, y2: nat)
    requires y1 < y2
    ensures DaysBeforeYear(y1) + YearLength(y1) <= DaysBeforeYear(y2)
    decreases y2 - y1
  {
    DaysBeforeYearStep(y1);
    if y1 + 1 < y2 {
      DaysBeforeYearGrows(y1 + 1, y2);
    }
  }

  lemma {:induction false} DaysBeforeMonthGrows(y: int, m1: int, m2: int)
    requires 1 <= m1 < m2 <= 13
    ensures DaysBeforeMonth(y, m1) + DaysInMonth(y, m1) <= DaysBeforeMonth(y, m2)
    decreases m2 - m1
  {
    if m1 + 1 < m2 {
      DaysBeforeMonthGrows(y, m1 + 1, m2);
    }
  }

  /** Chronological order of valid calendar days is the lexicographic order
      of (year, month, day). */
  lemma DayNumberIncreasing(y1: int, m1: int, d1: int, y2: int, m2: int, d2: int)
    requires ValidCivil(y1, m1, d1) && ValidCivil(y2, m2, d2)
    requires y1 < y2 || (y1 == y2 && (m1 < m2 || (m1 == m2 && d1 < d2)))
    ensures DayNumber(y1, m1, d1) < DayNumber(y2, m2, d2)
  {
    if y1 < y2 {
      DaysBeforeMonthGrows(y1, m1, 13);
      WholeYearOfMonths(y1);
      DaysBeforeYearGrows(y1, y2);
    } else if m1 < m2 {
      DaysBeforeMonthGrows(y1, m1, m2);
    }
  }

  lemma DayNumberOrder(y1: int, m1: int, d1: int, y2: int, m2: int, d2: int)
    requires ValidCivil(y1, m1, d1) && ValidCivil(y2, m2, d2)
    ensures DayNumber(y1, m1, d1) < DayNumber(y2, m2, d2) <==>
      (y1 < y2 || (y1 == y2 && (m1 < m2 || (m1 == m2 && d1 < d2))))
    ensures DayNumber(y1, m1, d1) == DayNumber(y2, m2, d2) <==> (y1, m1, d1) == (y2, m2, d2)
  {
    if y1 < y2 || (y1 == y2 && (m1 < m2 || (m1 == m2 && d1 < d2))) {
      DayNumberIncreasing(y1, m1, d1, y2, m2, d2);
    } else if (y1, m1, d1) != (y2, m2, d2) {
      DayNumberIncreasing(y2, m2, d2, y1, m1, d1);
    }
  }

  // ---------------------------------------------------------------------
  // YYYY-MM-DD strings
  // ---------------------------------------------------------------------

  predicate DateShape(s: String) {
    |s| == 10 && AllDigits(s[..4]) && s[4] == '-' && AllDigits(s[5..7]) && s[7] == '-' && AllDigits(s[8..])
  }

  function YearOf(s: String): nat
    requires DateShape(s)
  {
    DigitsValue(s[..4])
  }

  function MonthOf(s: String): nat
    requires DateShape(s)
  {
    DigitsValue(s[5..7])
  }

  function DayOf(s: String): nat
    requires DateShape(s)
  {
    DigitsValue(s[8..])
  }

  /** A `YYYY-MM-DD` string naming a real calendar day. */
  predicate WellFormedDate(s: String) {
    DateShape(s) && ValidCivil(YearOf(s), MonthOf(s), DayOf(s))
  }

  /** `parseDate(s)`: UTC midnight of the named day, or `None` (Invalid Date)
      for anything else, the empty string included. */
  function ParseDate(s: String): (r: Option<int>)
    ensures r.Some? <==> WellFormedDate(s)
    ensures r.Some? ==> r.value % MsPerDay == 0
  {
    if WellFormedDate(s) then Some(EpochMs(YearOf(s), MonthOf(s), DayOf(s))) else None
  }

  /** What `formatDate` hands to `toLocaleDateString`: the instant of
      `parseDate`, or an Invalid Date (rendered as the text "Invalid Date"). */
  datatype LocaleDate = InvalidDate | LocaleDateOf(instantMs: int)

  function FormatDate(s: String): (r: LocaleDate)
    ensures r == InvalidDate <==> ParseDate(s) == None
    ensures r.LocaleDateOf? ==> ParseDate(s) == Some(r.instantMs)
  {
    if WellFormedDate(s) then LocaleDateOf(EpochMs(YearOf(s), MonthOf(s), DayOf(s))) else InvalidDate
  }

  /** The day numbering is anchored at the Unix epoch. */
  lemma EpochAnchors()
    ensures EpochMs(1970, 1, 1) == 0
    ensures EpochMs(2000, 3, 1) == 951868800000
  {
  }

  lemma DashStep(a: String, b: String)
    requires |a| > 0 && |b| > 0 && a[0] == b[0]
    ensures LexLess(a, b) <==> LexLess(a[1..], b[1..])
  {
  }

  /** String order of two well-formed dates is the (year, month, day)
      order of their fields. */
  lemma DateStringOrder(a: String, b: String)
    requires DateShape(a) && DateShape(b)
    ensures LexLess(a, b) <==>
      (YearOf(a) < YearOf(b) || (YearOf(a) == YearOf(b) &&
        (MonthOf(a) < MonthOf(b) || (MonthOf(a) == MonthOf(b) && DayOf(a) < DayOf(b)))))
    ensures a == b <==> (YearOf(a), MonthOf(a), DayOf(a)) == (YearOf(b), MonthOf(b), DayOf(b))
  {
    DateLex(a, b);
    DateFieldsEqual(a, b);
    DigitsLexOrder(a[..4], b[..4]);
    DigitsLexOrder(a[5..7], b[5..7]);
    DigitsLexOrder(a[8..], b[8..]);
  }

  /** String order of dates compares the year digits, then the month
      digits, then the day digits. */
  lemma DateLex(a: String, b: String)
    requires DateShape(a) && DateShape(b)
    ensures LexLess(a, b) <==>
      LexLess(a[..4], b[..4]) || (a[..4] == b[..4] &&
        (LexLess(a[5..7], b[5..7]) || (a[5..7] == b[5..7] && LexLess(a[8..], b[8..]))))
  {
    assert a == a[..4] + a[4..] && b == b[..4] + b[4..];
    LexConcat(a[..4], a[4..], b[..4], b[4..]);
    DateTailLex(a[4..], b[4..]);
    assert a[4..][1..3] == a[5..7] && a[4..][4..] == a[8..];
    assert b[4..][1..3] == b[5..7] && b[4..][4..] == b[8..];
  }

  /** The same for the `-MM-DD` tails. */
  lemma DateTailLex(a: String, b: String)
    requires |a| == 6 && |b| == 6 && a[0] == b[0] == '-' && a[3] == b[3] == '-'
    ensures LexLess(a, b) <==>
      LexLess(a[1..3], b[1..3]) || (a[1..3] == b[1..3] && LexLess(a[4..], b[4..]))
  {
    DashStep(a, b);
    var a1, b1 := a[1..], b[1..];
    assert a1 == a1[..2] + a1[2..] && b1 == b1[..2] + b1[2..];
    LexConcat(a1[..2], a1[2..], b1[..2], b1[2..]);
    DashStep(a1[2..], b1[2..]);
    assert a1[..2] == a[1..3] && b1[..2] == b[1..3];
    assert a1[2..][1..] == a[4..] && b1[2..][1..] == b[4..];
  }

  /** Two dates are equal exactly when their digit fields are. */
  lemma DateFieldsEqual(a: String, b: String)
    requires DateShape(a) && DateShape(b)
    ensures a == b <==> a[..4] == b[..4] && a[5..7] == b[5..7] && a[8..] == b[8..]
  {
    if a[..4] == b[..4] && a[5..7] == b[5..7] && a[8..] == b[8..] {
      forall i | 0 <= i < 10
        ensures a[i] == b[i]
      {
        if i < 4 {
          assert a[i] == a[..4][i];
          assert b[i] == b[..4][i];
        } else if 5 <= i < 7 {
          assert a[i] == a[5..7][i - 5];
          assert b[i] == b[5..7][i - 5];
        } else if 8 <= i {
          assert a[i] == a[8..][i - 8];
          assert b[i] == b[8..][i - 8];
        }
      }
    }
  }

  /** On well-formed dates `parseDate` is strictly monotone and injective:
      it orders dates exactly as JavaScript's string comparison does. */
  lemma ParseDateOrdersLikeStrings(a: String, b: String)
    requires WellFormedDate(a) && WellFormedDate(b)
    ensures ParseDate(a).value < ParseDate(b).value <==> LexLess(a, b)
    ensures ParseDate(a) == ParseDate(b) <==> a == b
  {
    DateStringOrder(a, b);
    DayNumberOrder(YearOf(a), MonthOf(a), DayOf(a), YearOf(b), MonthOf(b), DayOf(b));
  }
}
