/** Normalising broken-down time, iso8601.c:44-146, and adding periods to it. */
module Normalize {
  import opened Calendar

  class Tm {
    var year: int
    var mon: int
    var mday: int
    var hour: int
    var min: int
    var sec: int

    function Get(): Fields
      reads this
    {
      Fields(year, mon, mday, hour, min, sec)
    }

    constructor (f: Fields)
      ensures Get() == f
    {
      year, mon, mday, hour, min, sec := f.year, f.mon, f.mday, f.hour, f.min, f.sec;
    }
  }

  function B2N(b: bool): nat { if b then 1 else 0 }

  /** How far a zero-based day is from settling: below zero counts as farther
      than any day that one borrowed month can bring. */
  function DayDistance(mday: int): nat {
    if mday < 0 then 31 - mday else mday
  }

  /** Seconds since the start of year 0 while the loop runs, with a zero-based day. */
  function Total(f: Fields): int {
    Seconds(f.(mday := f.mday + 1))
  }

  /** iso8601.c:50-62; afterwards the month is in its year. */
  method FixMonth(tm: Tm) returns (changed: bool)
    modifies tm`year, tm`mon
    ensures changed <==> !(0 <= old(tm.mon) < 12)
    ensures Total(tm.Get()) == old(Total(tm.Get())) && 0 <= tm.mon < 12
    ensures !changed ==> tm.year == old(tm.year) && tm.mon == old(tm.mon)
  {
    changed := true;
    if tm.mon < 0 {
      var count := (11 - tm.mon) / 12;
      CarryYears(tm.year, tm.mon, -count);
      tm.year := tm.year - count;
      tm.mon := tm.mon + count * 12;
    } else if tm.mon > 11 {
      var count := tm.mon / 12;
      CarryYears(tm.year, tm.mon, count);
      tm.year := tm.year + count;
      tm.mon := tm.mon - count * 12;
    } else {
      changed := false;
    }
  }

  /** iso8601.c:63-105, on a zero-based day. */
  method FixDay(tm: Tm) returns (changed: bool)
    requires 0 <= tm.mon < 12
    modifies tm`mon, tm`mday
    ensures changed <==> !(0 <= old(tm.mday) < MonthLength(tm.year, old(tm.mon)))
    ensures MonthDay(tm.year, tm.mon) + tm.mday == old(MonthDay(tm.year, tm.mon)) + old(tm.mday)
    ensures if changed then DayDistance(tm.mday) < DayDistance(old(tm.mday))
            else tm.mon == old(tm.mon) && tm.mday == old(tm.mday)
  {
    hide MonthDay;
    MonthStep(tm.year, tm.mon);
    MonthStepBack(tm.year, tm.mon);
    changed := true;
    if tm.mday < 0 {
      if tm.mon == 0 || tm.mon == 1 || tm.mon == 3 || tm.mon == 5 || tm.mon == 7 || tm.mon == 8 || tm.mon == 10 {
        tm.mday := tm.mday + 31;
        tm.mon := tm.mon - 1;
      } else if tm.mon == 4 || tm.mon == 6 || tm.mon == 8 || tm.mon == 9 || tm.mon == 11 {
        tm.mday := tm.mday + 30;
        tm.mon := tm.mon - 1;
      } else if tm.mon == 2 {
        if tm.year % 4 == 0 && (tm.year % 100 != 0 || tm.year % 400 == 0) {
          tm.mday := tm.mday + 29;
          tm.mon := tm.mon - 1;
        } else {
          tm.mday := tm.mday + 28;
          tm.mon := tm.mon - 1;
        }
      }
    } else if (tm.mon == 0 || tm.mon == 2 || tm.mon == 4 || tm.mon == 6 || tm.mon == 7 || tm.mon == 9 || tm.mon == 11)
              && tm.mday >= 31 {
      tm.mday := tm.mday - 31;
      tm.mon := tm.mon + 1;
    } else if (tm.mon == 3 || tm.mon == 5 || tm.mon == 8 || tm.mon == 10) && tm.mday >= 30 {
      tm.mday := tm.mday - 30;
      tm.mon := tm.mon + 1;
    } else if tm.mon == 1 {
      if tm.year % 4 == 0 && (tm.year % 100 != 0 || tm.year % 400 == 0) {
        if tm.mday >= 29 {
          tm.mday := tm.mday - 29;
          tm.mon := tm.mon + 1;
        } else {
          changed := false;
        }
      } else {
        if tm.mday >= 28 {
          tm.mday := tm.mday - 28;
          tm.mon := tm.mon + 1;
        } else {
          changed := false;
        }
      }
    } else {
      changed := false;
    }
  }

  /** iso8601.c:107-117; the quotients are taken of non-negative numbers only. */
  method FixHour(tm: Tm) returns (changed: bool)
    modifies tm`mday, tm`hour
    ensures changed <==> !(0 <= old(tm.hour) < 24)
    ensures Total(tm.Get()) == old(Total(tm.Get())) && 0 <= tm.hour < 24
    ensures !changed ==> tm.hour == old(tm.hour) && tm.mday == old(tm.mday)
  {
    changed := true;
    if tm.hour < 0 {
      var count := (23 - tm.hour) / 24;
      tm.mday := tm.mday - count;
      tm.hour := tm.hour + count * 24;
    } else if tm.hour >= 24 {
      var count := tm.hour / 24;
      tm.mday := tm.mday + count;
      tm.hour := tm.hour - count * 24;
    } else {
      changed := false;
    }
  }

  /** iso8601.c:119-129; the quotients are taken of non-negative numbers only. */
  method FixMinute(tm: Tm) returns (changed: bool)
    modifies tm`hour, tm`min
    ensures changed <==> !(0 <= old(tm.min) < 60)
    ensures Total(tm.Get()) == old(Total(tm.Get())) && 0 <= tm.min < 60
    ensures !changed ==> tm.min == old(tm.min) && tm.hour == old(tm.hour)
  {
    changed := true;
    if tm.min < 0 {
      var count := (59 - tm.min) / 60;
      tm.hour := tm.hour - count;
      tm.min := tm.min + count * 60;
    } else if tm.min >= 60 {
      var count := tm.min / 60;
      tm.hour := tm.hour + count;
      tm.min := tm.min - count * 60;
    } else {
      changed := false;
    }
  }

  /** iso8601.c:131-141; the quotients are taken of non-negative numbers only. */
  method FixSecond(tm: Tm) returns (changed: bool)
    modifies tm`min, tm`sec
    ensures changed <==> !(0 <= old(tm.sec) < 60)
    ensures Total(tm.Get()) == old(Total(tm.Get())) && 0 <= tm.sec < 60
    ensures !changed ==> tm.sec == old(tm.sec) && tm.min == old(tm.min)
  {
    changed := true;
    if tm.sec < 0 {
      var count := (59 - tm.sec) / 60;
      tm.min := tm.min - count;
      tm.sec := tm.sec + count * 60;
    } else if tm.sec >= 60 {
      var count := tm.sec / 60;
      tm.min := tm.min + count;
      tm.sec := tm.sec - count * 60;
    } else {
      changed := false;
    }
  }

  /** The second a normalised time has to have: days below zero are taken as
      zero-based, all others as counting from one. */
  function Target(f: Fields): int {
    Seconds(f) + if f.mday < 0 then 24 * 60 * 60 else 0
  }

  /** iso8601.c:44-146: ends for every input, with every field in range and at
      the same second, except that a negative day comes out one day later.  A
      time that is already normal stays as it is. */
  method NormalizePeriod(tm: Tm)
    modifies tm
    ensures Canonical(tm.Get()) && Seconds(tm.Get()) == old(Target(tm.Get()))
    ensures tm.Get() == old(tm.Get()) <==> old(Canonical(tm.Get()))
    ensures Seconds(tm.Get()) == old(Seconds(tm.Get())) + if old(tm.mday) < 0 then 86400 else 0
    ensures 0 <= tm.mon <= 11 && 0 <= tm.hour <= 23 && 0 <= tm.min <= 59 && 0 <= tm.sec <= 59
    ensures 1 <= tm.mday <=
            if tm.mon == 3 || tm.mon == 5 || tm.mon == 8 || tm.mon == 10 then 30
            else if tm.mon != 1 then 31
            else if tm.year % 4 == 0 && (tm.year % 100 != 0 || tm.year % 400 == 0) then 29 else 28
  {
    hide MonthDay, MonthLength, Leap, Total;
    StartTotal(tm.Get());
    ghost var total := Target(tm.Get());
    if tm.mday >= 0 {
      tm.mday := tm.mday - 1;
    }
    while true
      invariant Total(tm.Get()) == total
      decreases B2N(!(0 <= tm.sec < 60)), B2N(!(0 <= tm.min < 60)), B2N(!(0 <= tm.hour < 24)),
                DayDistance(tm.mday), B2N(!(0 <= tm.mon < 12))
    {
      hide Seconds;
      var changed := FixMonth(tm);
      if changed {
        continue;
      }
      ghost var before := tm.Get();
      changed := FixDay(tm);
      SameDay(before, tm.Get());
      if changed {
        continue;
      }
      changed := FixHour(tm);
      if changed {
        continue;
      }
      changed := FixMinute(tm);
      if changed {
        continue;
      }
      changed := FixSecond(tm);
      if changed {
        continue;
      }
      break;
    }
    EndTotal(tm.Get());
    tm.mday := tm.mday + 1;
    NormalTimes(tm.Get());
    if old(Canonical(tm.Get())) {
      CanonicalUnique(tm.Get(), old(tm.Get()));
    }
  }

  lemma StartTotal(f: Fields)
    ensures Total(if f.mday >= 0 then f.(mday := f.mday - 1) else f) == Target(f)
  {
  }

  lemma SameDay(f: Fields, g: Fields)
    requires MonthDay(g.year, g.mon) + g.mday == MonthDay(f.year, f.mon) + f.mday
    requires (g.hour, g.min, g.sec) == (f.hour, f.min, f.sec)
    ensures Total(g) == Total(f)
  {
  }

  lemma EndTotal(f: Fields)
    ensures Seconds(f.(mday := f.mday + 1)) == Total(f)
  {
  }

  /** Normalising keeps the second exactly when the day was not negative. */
  lemma TargetIsSeconds(f: Fields)
    ensures Target(f) == Seconds(f) <==> f.mday >= 0
  {
  }

  // ----- adding periods

  function Plus(f: Fields, g: Fields): Fields {
    Fields(f.year + g.year, f.mon + g.mon, f.mday + g.mday, f.hour + g.hour, f.min + g.min, f.sec + g.sec)
  }

  /** A period that is a fixed number of seconds: no years and no months. */
  predicate Fixed(p: Fields) {
    p.year == 0 && p.mon == 0 && p.mday >= 0
  }

  function Length(p: Fields): int {
    ((p.mday * 24 + p.hour) * 60 + p.min) * 60 + p.sec
  }

  /** iso8601.c:338 and 343-349: the fields of the period are added between two
      normalisations.  `n` is the time in between. */
  method AddPeriod(tm: Tm, period: Fields) returns (ghost n: Fields)
    modifies tm
    ensures Canonical(n) && Seconds(n) == old(Target(tm.Get()))
    ensures Canonical(tm.Get()) && Seconds(tm.Get()) == Target(Plus(n, period))
    ensures Fixed(period) ==> Seconds(tm.Get()) == old(Target(tm.Get())) + Length(period)
    ensures Seconds(tm.Get()) ==
            Seconds(Fields(n.year + period.year, n.mon + period.mon, n.mday + period.mday,
                           n.hour + period.hour, n.min + period.min, n.sec + period.sec)) +
            if n.mday + period.mday < 0 then 86400 else 0
    ensures period.year == 0 && period.mon == 0 && period.mday >= 0 && old(tm.mday) >= 0 ==>
              Seconds(tm.Get()) == old(Seconds(tm.Get())) + period.mday * 86400 + period.hour * 3600 +
                                   period.min * 60 + period.sec
  {
    hide MonthLength, MonthDay;
    NormalizePeriod(tm);
    n := tm.Get();
    tm.year := tm.year + period.year;
    tm.mon := tm.mon + period.mon;
    tm.mday := tm.mday + period.mday;
    tm.hour := tm.hour + period.hour;
    tm.min := tm.min + period.min;
    tm.sec := tm.sec + period.sec;
    NormalizePeriod(tm);
  }

  /** Adding two fixed periods one after the other is adding their sum. */
  method AddTwice(a: Tm, b: Tm, p: Fields, q: Fields)
    requires a != b && a.Get() == b.Get() && Fixed(p) && Fixed(q)
    modifies a, b
    ensures a.Get() == b.Get() && Canonical(a.Get())
    ensures Seconds(a.Get()) == old(Target(a.Get())) + Length(p) + Length(q)
  {
    hide MonthLength, MonthDay, Seconds;
    ghost var n := AddPeriod(a, p);
    assert a.mday >= 0;
    n := AddPeriod(a, q);
    n := AddPeriod(b, Plus(p, q));
    CanonicalUnique(a.Get(), b.Get());
  }
}
