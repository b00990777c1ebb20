/** The calendar that iso8601.c counts in: months and years as `normalizeperiod`
    measures them, with the leap test applied to `tm_year` itself. */
module Calendar {

  /** iso8601.c:73 and 92 */
  predicate Leap(year: int) {
    year % 4 == 0 && (year % 100 != 0 || year % 400 == 0)
  }

  function MonthLength(year: int, month: int): (n: int)
    requires 0 <= month < 12
    ensures 28 <= n <= 31
  {
    if month == 1 then (if Leap(year) then 29 else 28)
    else if month == 3 || month == 5 || month == 8 || month == 10 then 30
    else 31
  }

  function YearLength(year: int): int {
    if Leap(year) then 366 else 365
  }

  /** Days from the start of year 0 to the start of `year`, negative before it. */
  function YearStart(year: int): int {
    365 * year + (year + 3) / 4 - (year + 99) / 100 + (year + 399) / 400
  }

  /** Days from the start of `year` to the start of `month`. */
  function MonthStart(year: int, month: nat): int
    requires month <= 12
  {
    if month == 0 then 0 else MonthStart(year, month - 1) + MonthLength(year, month - 1)
  }

  lemma FourStep(y: int)
    ensures (y + 4) / 4 == (y + 3) / 4 + if y % 4 == 0 then 1 else 0
  {
  }

  lemma HundredStep(y: int)
    ensures (y + 100) / 100 == (y + 99) / 100 + if y % 100 == 0 then 1 else 0
  {
  }

  lemma FourHundredStep(y: int)
    ensures (y + 400) / 400 == (y + 399) / 400 + if y % 400 == 0 then 1 else 0
  {
  }

  lemma CenturyIsFourth(y: int)
    ensures y % 100 == 0 ==> y % 4 == 0
  {
    assert y == 4 * (25 * (y / 100)) + y % 100;
  }

  lemma FourthCentury(y: int)
    ensures y % 400 == 0 ==> y % 100 == 0
  {
    assert y == 100 * (4 * (y / 400)) + y % 400;
  }

  lemma YearStep(year: int)
    ensures YearStart(year + 1) == YearStart(year) + YearLength(year)
  {
    FourStep(year);
    HundredStep(year);
    FourHundredStep(year);
    CenturyIsFourth(year);
    FourthCentury(year);
  }

  lemma YearSum(year: int)
    ensures MonthStart(year, 12) == YearLength(year)
  {
    assert MonthStart(year, 1) == 31;
    assert MonthStart(year, 2) == 31 + MonthLength(year, 1);
    assert MonthStart(year, 4) == MonthStart(year, 2) + 61;
    assert MonthStart(year, 6) == MonthStart(year, 4) + 61;
    assert MonthStart(year, 8) == MonthStart(year, 6) + 62;
    assert MonthStart(year, 10) == MonthStart(year, 8) + 61;
    assert MonthStart(year, 12) == MonthStart(year, 10) + 61;
  }

  lemma {:induction false} YearMonotone(y: int, z: int)
    requires y <= z
    ensures YearStart(z) >= YearStart(y) + 365 * (z - y)
    decreases z - y
  {
    if y < z {
      YearMonotone(y, z - 1);
      YearStep(z - 1);
    }
  }

  lemma {:induction false} MonthMonotone(year: int, m: nat, n: nat)
    requires m <= n <= 12
    ensures MonthStart(year, n) >= MonthStart(year, m) + 28 * (n - m)
    decreases n
  {
    if m < n {
      MonthMonotone(year, m, n - 1);
    }
  }

  /** Broken-down fields; the month may lie outside the year. */
  datatype Fields = Fields(year: int, mon: int, mday: int, hour: int, min: int, sec: int)

  /** Days from the start of year 0 to the start of a month that may lie outside its year. */
  function MonthDay(year: int, mon: int): int {
    YearStart(year + mon / 12) + MonthStart(year + mon / 12, mon % 12)
  }

  /** Seconds since the start of year 0, for any fields; `mday` counts from 1. */
  function Seconds(f: Fields): int {
    (((MonthDay(f.year, f.mon) + f.mday - 1) * 24 + f.hour) * 60 + f.min) * 60 + f.sec
  }

  predicate Canonical(f: Fields) {
    && 0 <= f.mon < 12 && 1 <= f.mday <= MonthLength(f.year, f.mon)
    && 0 <= f.hour < 24 && 0 <= f.min < 60 && 0 <= f.sec < 60
  }

  /** A month later, or earlier, is the length of the month away. */
  lemma MonthStep(year: int, mon: int)
    requires 0 <= mon < 12
    ensures MonthDay(year, mon + 1) == MonthDay(year, mon) + MonthLength(year, mon)
  {
    if mon == 11 {
      YearSum(year);
      YearStep(year);
    }
  }

  lemma MonthStepBack(year: int, mon: int)
    requires 0 <= mon < 12
    ensures mon == 0 ==> MonthDay(year, mon - 1) == MonthDay(year, mon) - 31
    ensures mon > 0 ==> MonthDay(year, mon - 1) == MonthDay(year, mon) - MonthLength(year, mon - 1)
  {
    if mon == 0 {
      YearSum(year - 1);
      YearStep(year - 1);
    } else {
      MonthStep(year, mon - 1);
    }
  }

  /** Carrying whole years between the month and the year. */
  lemma CarryYears(year: int, mon: int, count: int)
    ensures MonthDay(year + count, mon - count * 12) == MonthDay(year, mon)
  {
    assert (mon - count * 12) / 12 == mon / 12 - count;
    assert (mon - count * 12) % 12 == mon % 12;
  }

  /** A date determines its day number and the other way round. */
  lemma DayUnique(y: int, m: int, d: int, y': int, m': int, d': int)
    requires 0 <= m < 12 && 0 <= d < MonthLength(y, m)
    requires 0 <= m' < 12 && 0 <= d' < MonthLength(y', m')
    requires MonthDay(y, m) + d == MonthDay(y', m') + d'
    ensures y == y' && m == m' && d == d'
  {
    hide MonthDay, YearStart, Leap, MonthLength;
    InYear(y, m, d);
    InYear(y', m', d');
    if y < y' {
      YearStep(y);
      YearMonotone(y + 1, y');
    } else if y' < y {
      YearStep(y');
      YearMonotone(y' + 1, y);
    } else if m < m' {
      MonthMonotone(y, m + 1, m');
    } else if m' < m {
      MonthMonotone(y, m' + 1, m);
    }
  }

  lemma InYear(y: int, m: int, d: int)
    requires 0 <= m < 12 && 0 <= d < MonthLength(y, m)
    ensures MonthDay(y, m) == YearStart(y) + MonthStart(y, m)
    ensures 0 <= MonthStart(y, m) && MonthStart(y, m) + d < YearLength(y)
  {
    assert y + m / 12 == y && m % 12 == m;
    hide YearStart, Leap, MonthLength, YearLength;
    MonthMonotone(y, 0, m);
    MonthMonotone(y, m + 1, 12);
    YearSum(y);
  }

  /** The canonical fields of a second are unique. */
  lemma CanonicalUnique(f: Fields, g: Fields)
    requires Canonical(f) && Canonical(g) && Seconds(f) == Seconds(g)
    ensures f == g
  {
    var a, b := MonthDay(f.year, f.mon) + f.mday - 1, MonthDay(g.year, g.mon) + g.mday - 1;
    assert (a * 24 + f.hour) * 60 + f.min == (b * 24 + g.hour) * 60 + g.min;
    assert a * 24 + f.hour == b * 24 + g.hour;
    assert a == b;
    DayUnique(f.year, f.mon, f.mday - 1, g.year, g.mon, g.mday - 1);
  }

  // ----- the calendar in numbers

  /** Days from 1 March of a year to the start of a month, counted from March. */
  lemma MarchMonths(year: int, mon: int)
    requires 0 <= mon < 12
    ensures mon >= 2 ==> MonthStart(year, mon) == MonthStart(year, 2) + (153 * (mon - 2) + 2) / 5
    ensures mon < 2 ==> MonthStart(year, mon) == (153 * (mon + 10) + 2) / 5 - 306
  {
    assert MonthStart(year, 1) == 31;
    assert MonthStart(year, 3) == MonthStart(year, 2) + 31;
    assert MonthStart(year, 5) == MonthStart(year, 3) + 61;
    assert MonthStart(year, 7) == MonthStart(year, 5) + 61;
    assert MonthStart(year, 9) == MonthStart(year, 7) + 61;
    assert MonthStart(year, 11) == MonthStart(year, 9) + 61;
  }

  /** The day number of the first of any month of any year, in closed form: years
      run from March to February, so that the leap day is the last of its year. */
  lemma DayNumber(year: int, mon: int)
    ensures var y, m := year + mon / 12, mon % 12;
            var v, k := if m >= 2 then y else y - 1, if m >= 2 then m - 2 else m + 10;
            MonthDay(year, mon) == 365 * v + v / 4 - v / 100 + v / 400 + (153 * k + 2) / 5 + 60
  {
    hide MonthLength, YearLength, YearStart, Leap;
    var y, m := year + mon / 12, mon % 12;
    MarchMonths(y, m);
    FirstOfMarch(y);
    FirstOfJanuary(y);
  }

  lemma FirstOfMarch(y: int)
    ensures YearStart(y) + MonthStart(y, 2) == 365 * y + y / 4 - y / 100 + y / 400 + 60
  {
    assert MonthStart(y, 1) == 31;
    assert MonthStart(y, 2) == 31 + MonthLength(y, 1);
    CenturyIsFourth(y);
    FourthCentury(y);
    LeapDays(y);
  }

  lemma FirstOfJanuary(y: int)
    ensures YearStart(y) == 365 * y + (y - 1) / 4 - (y - 1) / 100 + (y - 1) / 400 + 1
  {
    LeapDays(y);
  }

  lemma LeapDays(y: int)
    ensures (y + 3) / 4 == (y - 1) / 4 + 1 == y / 4 + if y % 4 == 0 then 0 else 1
    ensures (y + 99) / 100 == (y - 1) / 100 + 1 == y / 100 + if y % 100 == 0 then 0 else 1
    ensures (y + 399) / 400 == (y - 1) / 400 + 1 == y / 400 + if y % 400 == 0 then 0 else 1
  {
    FourDays(y);
    HundredDays(y);
    FourHundredDays(y);
  }

  lemma FourDays(y: int)
    ensures (y + 3) / 4 == (y - 1) / 4 + 1 == y / 4 + if y % 4 == 0 then 0 else 1
  {
  }

  lemma HundredDays(y: int)
    ensures (y + 99) / 100 == (y - 1) / 100 + 1 == y / 100 + if y % 100 == 0 then 0 else 1
  {
  }

  lemma FourHundredDays(y: int)
    ensures (y + 399) / 400 == (y - 1) / 400 + 1 == y / 400 + if y % 400 == 0 then 0 else 1
  {
  }

  /** Four hundred years are 146097 days. */
  lemma Cycle(year: int, mon: int)
    ensures MonthDay(year + 400, mon) == MonthDay(year, mon) + 146097
  {
    hide MonthDay;
    DayNumber(year, mon);
    DayNumber(year + 400, mon);
    FourCenturies(year + mon / 12);
    FourCenturies(year + mon / 12 - 1);
  }

  lemma FourCenturies(v: int)
    ensures (v + 400) / 4 == v / 4 + 100 && (v + 400) / 100 == v / 100 + 4 && (v + 400) / 400 == v / 400 + 1
  {
  }

  /** Which broken-down times are normal, month by month. */
  lemma NormalTimes(f: Fields)
    ensures Canonical(f) <==>
            && 1 <= f.mday
            && (f.mon == 0 || f.mon == 2 || f.mon == 4 || f.mon == 6 || f.mon == 7 || f.mon == 9 || f.mon == 11 ==>
                  f.mday <= 31)
            && (f.mon == 3 || f.mon == 5 || f.mon == 8 || f.mon == 10 ==> f.mday <= 30)
            && (f.mon == 1 ==>
                  f.mday <= if f.year % 4 == 0 && (f.year % 100 != 0 || f.year % 400 == 0) then 29 else 28)
            && 0 <= f.mon <= 11 && 0 <= f.hour <= 23 && 0 <= f.min <= 59 && 0 <= f.sec <= 59
  {
  }
}
