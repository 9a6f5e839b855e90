/** `gmtime_r` as an explicit function: the proleptic Gregorian breakdown of a count of seconds,
    and its inverse, "Seconds Since the Epoch" of section 4.16 of the POSIX.1-2017 Base
    Definitions, extended to years before 1970 with flooring division. */
module Calendar {
  import opened Wrappers

  const TM_YEAR_BASE := 1900
  const MAX_INT32 := 2147483647
  const MIN_INT32 := -2147483648

  /** The fields of C's `struct tm` that the formatter reads, and `tm_yday`. */
  datatype Tm = Tm(tmYear: int, tmMon: int, tmMday: int, tmHour: int, tmMin: int, tmSec: int, tmYday: int)

  predicate IsLeap(year: int) {
    year % 4 == 0 && (year % 100 != 0 || year % 400 == 0)
  }

  /** Days from 1 January 1970 to 1 January of `year`. */
  function DaysBeforeYear(year: int): int {
    365 * (year - 1970) + (year - 1969) / 4 - (year - 1901) / 100 + (year - 1601) / 400
  }

  /** Days from 1 January to the first day of month `month` (0 is January). */
  function DaysBeforeMonth(leap: bool, month: int): int {
    var shift := if leap then 1 else 0;
    if month <= 0 then 0
    else if month == 1 then 31
    else if month == 2 then 59 + shift
    else if month == 3 then 90 + shift
    else if month == 4 then 120 + shift
    else if month == 5 then 151 + shift
    else if month == 6 then 181 + shift
    else if month == 7 then 212 + shift
    else if month == 8 then 243 + shift
    else if month == 9 then 273 + shift
    else if month == 10 then 304 + shift
    else if month == 11 then 334 + shift
    else 365 + shift
  }

  /** POSIX "Seconds Since the Epoch". */
  function SecondsSinceEpoch(tm: Tm): int {
    tm.tmSec + tm.tmMin * 60 + tm.tmHour * 3600 + tm.tmYday * 86400
    + (tm.tmYear - 70) * 31536000 + ((tm.tmYear - 69) / 4) * 86400
    - ((tm.tmYear - 1) / 100) * 86400 + ((tm.tmYear + 299) / 400) * 86400
  }

  /** The fields name an actual date and time of day. */
  predicate ValidTm(tm: Tm) {
    var leap := IsLeap(tm.tmYear + TM_YEAR_BASE);
    && 0 <= tm.tmMon < 12
    && 1 <= tm.tmMday <= DaysBeforeMonth(leap, tm.tmMon + 1) - DaysBeforeMonth(leap, tm.tmMon)
    && 0 <= tm.tmHour < 24
    && 0 <= tm.tmMin < 60
    && 0 <= tm.tmSec < 60
    && tm.tmYday == DaysBeforeMonth(leap, tm.tmMon) + tm.tmMday - 1
  }

  lemma Every4(year: int)
    ensures (year - 1968) / 4 == (year - 1969) / 4 + (if year % 4 == 0 then 1 else 0)
  {
  }

  lemma Every100(year: int)
    ensures (year - 1900) / 100 == (year - 1901) / 100 + (if year % 100 == 0 then 1 else 0)
  {
    var q, r := (year - 1901) / 100, (year - 1901) % 100;
    assert year == 100 * (q + 19) + (r + 1);
    if r == 99 {
      assert year == 100 * (q + 20);
    }
  }

  lemma Every400(year: int)
    ensures (year - 1600) / 400 == (year - 1601) / 400 + (if year % 400 == 0 then 1 else 0)
  {
    var q, r := (year - 1601) / 400, (year - 1601) % 400;
    assert year == 400 * (q + 4) + (r + 1);
    if r == 399 {
      assert year == 400 * (q + 5);
    }
  }

  lemma LeapNesting(year: int)
    ensures year % 400 == 0 ==> year % 100 == 0
    ensures year % 100 == 0 ==> year % 4 == 0
  {
  }

  lemma YearLength(year: int)
    ensures DaysBeforeYear(year + 1) - DaysBeforeYear(year) == if IsLeap(year) then 366 else 365
  {
    Every4(year);
    Every100(year);
    Every400(year);
    LeapNesting(year);
  }

  lemma {:induction false} YearsAscend(a: int, b: int)
    requires a <= b
    ensures DaysBeforeYear(a) + 365 * (b - a) <= DaysBeforeYear(b)
    decreases b - a
  {
    if a < b {
      YearLength(b - 1);
      YearsAscend(a, b - 1);
    }
  }

  /** The year holding day `day` (counted from 1 January 1970), searched from `year`. */
  function YearFrom(day: int, year: int): (y: int)
    ensures DaysBeforeYear(y) <= day < DaysBeforeYear(y + 1)
    decreases if day < DaysBeforeYear(year) then 1 else 0,
              if day < DaysBeforeYear(year) then DaysBeforeYear(year) - day else day - DaysBeforeYear(year)
  {
    YearLength(year);
    YearLength(year - 1);
    if day < DaysBeforeYear(year) then YearFrom(day, year - 1)
    else if day >= DaysBeforeYear(year + 1) then YearFrom(day, year + 1)
    else year
  }

  /** The month holding day-of-year `yday`, searched from `month`. */
  function MonthFrom(leap: bool, yday: int, month: int): (m: int)
    requires 0 <= month < 12 && DaysBeforeMonth(leap, month) <= yday < DaysBeforeMonth(leap, 12)
    ensures 0 <= m < 12 && DaysBeforeMonth(leap, m) <= yday < DaysBeforeMonth(leap, m + 1)
    decreases 12 - month
  {
    if yday < DaysBeforeMonth(leap, month + 1) then month else MonthFrom(leap, yday, month + 1)
  }

  /** The breakdown of a count of seconds. */
  function Breakdown(seconds: int): Tm {
    var day, rest := seconds / 86400, seconds % 86400;
    var year := YearFrom(day, 1970);
    var yday := day - DaysBeforeYear(year);
    YearLength(year);
    var month := MonthFrom(IsLeap(year), yday, 0);
    Tm(year - TM_YEAR_BASE, month, yday - DaysBeforeMonth(IsLeap(year), month) + 1,
       rest / 3600, rest % 3600 / 60, rest % 60, yday)
  }

  /** `gmtime_r` fails exactly when the year does not fit `int tm_year`. */
  function GmTime(seconds: int): Option<Tm> {
    var tm := Breakdown(seconds);
    if MIN_INT32 <= tm.tmYear <= MAX_INT32 then Some(tm) else None
  }

  lemma ClockSplit(rest: int)
    requires 0 <= rest < 86400
    ensures rest == rest % 60 + 60 * (rest % 3600 / 60) + 3600 * (rest / 3600)
    ensures 0 <= rest / 3600 < 24 && 0 <= rest % 3600 / 60 < 60
  {
  }

  lemma EpochSeconds(tm: Tm)
    ensures SecondsSinceEpoch(tm)
         == tm.tmSec + 60 * tm.tmMin + 3600 * tm.tmHour
            + 86400 * (tm.tmYday + DaysBeforeYear(tm.tmYear + TM_YEAR_BASE))
  {
  }

  /** The breakdown names a real date, and POSIX's formula takes it back to the same second. */
  lemma BreakdownInverts(seconds: int)
    ensures ValidTm(Breakdown(seconds))
    ensures SecondsSinceEpoch(Breakdown(seconds)) == seconds
  {
    ClockSplit(seconds % 86400);
    EpochSeconds(Breakdown(seconds));
    YearLength(YearFrom(seconds / 86400, 1970));
  }

  /** The order of dates: year, then month, day, hour, minute and second. */
  predicate TmLess(a: Tm, b: Tm) {
    || a.tmYear < b.tmYear
    || (a.tmYear == b.tmYear && (
        || a.tmMon < b.tmMon
        || (a.tmMon == b.tmMon && (
            || a.tmMday < b.tmMday
            || (a.tmMday == b.tmMday && (
                || a.tmHour < b.tmHour
                || (a.tmHour == b.tmHour && (
                    || a.tmMin < b.tmMin
                    || (a.tmMin == b.tmMin && a.tmSec < b.tmSec)))))))))
  }

  lemma DayOfYearBound(tm: Tm)
    requires ValidTm(tm)
    ensures 0 <= tm.tmYday
    ensures tm.tmYday + DaysBeforeYear(tm.tmYear + TM_YEAR_BASE) < DaysBeforeYear(tm.tmYear + TM_YEAR_BASE + 1)
  {
    YearLength(tm.tmYear + TM_YEAR_BASE);
  }

  lemma SecondOfDayBound(tm: Tm)
    requires ValidTm(tm)
    ensures 0 <= tm.tmSec + 60 * tm.tmMin + 3600 * tm.tmHour < 86400
  {
  }

  lemma EarlierDay(a: Tm, b: Tm)
    requires ValidTm(a) && ValidTm(b) && a.tmYear == b.tmYear
    requires a.tmMon < b.tmMon || (a.tmMon == b.tmMon && a.tmMday < b.tmMday)
    ensures a.tmYday < b.tmYday
  {
  }

  lemma EarlierYear(a: Tm, b: Tm)
    requires ValidTm(a) && ValidTm(b) && a.tmYear < b.tmYear
    ensures a.tmYday + DaysBeforeYear(a.tmYear + TM_YEAR_BASE) < b.tmYday + DaysBeforeYear(b.tmYear + TM_YEAR_BASE)
  {
    DayOfYearBound(a);
    DayOfYearBound(b);
    YearsAscend(a.tmYear + TM_YEAR_BASE + 1, b.tmYear + TM_YEAR_BASE);
  }

  lemma EarlierTime(a: Tm, b: Tm)
    requires ValidTm(a) && ValidTm(b)
    requires || a.tmHour < b.tmHour
             || (a.tmHour == b.tmHour && (a.tmMin < b.tmMin || (a.tmMin == b.tmMin && a.tmSec < b.tmSec)))
    ensures a.tmSec + 60 * a.tmMin + 3600 * a.tmHour < b.tmSec + 60 * b.tmMin + 3600 * b.tmHour
  {
  }

  lemma DayThenTime(dayA: int, timeA: int, dayB: int, timeB: int)
    requires 0 <= timeA < 86400 && 0 <= timeB < 86400
    requires dayA < dayB || (dayA == dayB && timeA < timeB)
    ensures timeA + 86400 * dayA < timeB + 86400 * dayB
  {
  }

  lemma SameDay(a: Tm, b: Tm)
    requires ValidTm(a) && ValidTm(b)
    requires a.tmYear == b.tmYear && a.tmMon == b.tmMon && a.tmMday == b.tmMday
    ensures a.tmYday == b.tmYday
  {
  }

  /** Earlier fields mean an earlier second. */
  lemma DateOrder(a: Tm, b: Tm)
    requires ValidTm(a) && ValidTm(b) && TmLess(a, b)
    ensures SecondsSinceEpoch(a) < SecondsSinceEpoch(b)
  {
    var dayA := a.tmYday + DaysBeforeYear(a.tmYear + TM_YEAR_BASE);
    var dayB := b.tmYday + DaysBeforeYear(b.tmYear + TM_YEAR_BASE);
    var timeA := a.tmSec + 60 * a.tmMin + 3600 * a.tmHour;
    var timeB := b.tmSec + 60 * b.tmMin + 3600 * b.tmHour;
    assert dayA < dayB || (dayA == dayB && timeA < timeB) by {
      if a.tmYear < b.tmYear {
        EarlierYear(a, b);
      } else if a.tmMon < b.tmMon || (a.tmMon == b.tmMon && a.tmMday < b.tmMday) {
        EarlierDay(a, b);
      } else {
        SameDay(a, b);
        EarlierTime(a, b);
      }
    }
    assert SecondsSinceEpoch(a) == timeA + 86400 * dayA by { EpochSeconds(a); }
    assert SecondsSinceEpoch(b) == timeB + 86400 * dayB by { EpochSeconds(b); }
    SecondOfDayBound(a);
    SecondOfDayBound(b);
    DayThenTime(dayA, timeA, dayB, timeB);
  }

  lemma DayOf(seconds: int, day: int)
    ensures day <= seconds / 86400 <==> day * 86400 <= seconds
  {
  }

  lemma YearNotBefore(day: int, year: int)
    ensures year <= YearFrom(day, 1970) <==> DaysBeforeYear(year) <= day
  {
    var found := YearFrom(day, 1970);
    if year <= found {
      YearsAscend(year, found);
    } else {
      YearsAscend(found + 1, year);
    }
  }

  /** The year of a second lies in a range exactly when the second does. */
  lemma YearRange(seconds: int, first: int, last: int)
    ensures first <= Breakdown(seconds).tmYear + TM_YEAR_BASE <= last
       <==> DaysBeforeYear(first) * 86400 <= seconds < DaysBeforeYear(last + 1) * 86400
  {
    var day := seconds / 86400;
    YearNotBefore(day, first);
    YearNotBefore(day, last + 1);
    DayOf(seconds, DaysBeforeYear(first));
    DayOf(seconds, DaysBeforeYear(last + 1));
  }
}
