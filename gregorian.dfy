/** The proleptic Gregorian calendar as Python's `datetime.date` implements
    it: dates, day numbers (`toordinal`), weekdays, day arithmetic
    (`date + timedelta(days=k)`) and ISO 8601 week numbering (`isocalendar`). */
module Gregorian {

  /** A calendar date; `Valid` says it names a real day of year 1 or later. */
  datatype Date = Date(year: int, month: int, day: int)

  predicate IsLeapYear(y: int) {
    y % 4 == 0 && (y % 100 != 0 || y % 400 == 0)
  }

  function DaysInYear(y: int): int {
    if IsLeapYear(y) then 366 else 365
  }

  /** The length of month `m` of year `y` (what `calendar.monthrange` returns second). */
  function DaysInMonth(y: int, m: int): (n: int)
    requires 1 <= m <= 12
    ensures 28 <= n <= 31
    ensures n == 29 <==> m == 2 && IsLeapYear(y)
  {
    if m == 2 then (if IsLeapYear(y) then 29 else 28)
    else if m == 4 || m == 6 || m == 9 || m == 11 then 30
    else 31
  }

  predicate Valid(d: Date) {
    1 <= d.year && 1 <= d.month <= 12 && 1 <= d.day <= DaysInMonth(d.year, d.month)
  }

  /** Days in the years before `y`, counted year by year. */
  function DaysBeforeYear(y: int): (n: int)
    requires 1 <= y
    ensures n >= 0
  {
    if y == 1 then 0 else DaysBeforeYear(y - 1) + DaysInYear(y - 1)
  }

  function DaysBeforeMonth(y: int, m: int): (n: int)
    requires 1 <= m <= 12
    ensures 0 <= n && n + DaysInMonth(y, m) <= DaysInYear(y)
  {
    var common :=
      if m == 1 then 0 else if m == 2 then 31 else if m == 3 then 59
      else if m == 4 then 90 else if m == 5 then 120 else if m == 6 then 151
      else if m == 7 then 181 else if m == 8 then 212 else if m == 9 then 243
      else if m == 10 then 273 else if m == 11 then 304 else 334;
    if m > 2 && IsLeapYear(y) then common + 1 else common
  }

  /** Python's `date.toordinal()`: 0001-01-01 is day 1. */
  function DayNumber(d: Date): (n: int)
    requires Valid(d)
    ensures DaysBeforeYear(d.year) < n <= DaysBeforeYear(d.year) + DaysInYear(d.year)
  {
    DaysBeforeYear(d.year) + DaysBeforeMonth(d.year, d.month) + d.day
  }

  /** Python's `date.weekday()`: Monday is 0 and Sunday is 6. */
  function Weekday(d: Date): (w: int)
    requires Valid(d)
    ensures 0 <= w < 7
  {
    (DayNumber(d) + 6) % 7
  }

  lemma StepOfFloor(p: int)
    requires p >= 0
    ensures (p + 1) / 4 - p / 4 == (if (p + 1) % 4 == 0 then 1 else 0)
    ensures (p + 1) / 100 - p / 100 == (if (p + 1) % 100 == 0 then 1 else 0)
    ensures (p + 1) / 400 - p / 400 == (if (p + 1) % 400 == 0 then 1 else 0)
  {
  }

  /** The year-by-year count agrees with the closed form Python's `datetime`
      module uses (`_days_before_year`). */
  lemma {:induction false} DaysBeforeYearClosedForm(y: int)
    requires 1 <= y
    ensures var p := y - 1; DaysBeforeYear(y) == 365 * p + p / 4 - p / 100 + p / 400
  {
    if y > 1 {
      var p, q := y - 1, y - 2;
      DaysBeforeYearClosedForm(y - 1);
      StepOfFloor(q);
      LeapDays(p);
      assert DaysBeforeYear(y) == DaysBeforeYear(y - 1) + DaysInYear(p);
    }
  }

  /** A year's length as the sum of the three Gregorian rules. */
  lemma LeapDays(p: int)
    ensures DaysInYear(p) == 365 + (if p % 4 == 0 then 1 else 0)
      - (if p % 100 == 0 then 1 else 0) + (if p % 400 == 0 then 1 else 0)
  {
    if p % 400 == 0 {
      var k := p / 400;
      assert p == 100 * (4 * k);
    }
    if p % 100 == 0 {
      var k := p / 100;
      assert p == 4 * (25 * k);
    }
  }

  /** A year contributes exactly its own length to the day count. */
  lemma DaysBeforeNextYear(y: int)
    requires 1 <= y
    ensures DaysBeforeYear(y + 1) == DaysBeforeYear(y) + DaysInYear(y)
  {
  }

  lemma {:induction false} DaysBeforeYearMonotone(a: int, b: int)
    requires 1 <= a <= b
    ensures DaysBeforeYear(a) + DaysInYear(a) * (if a < b then 1 else 0) <= DaysBeforeYear(b)
    decreases b - a
  {
    if a < b {
      DaysBeforeNextYear(a);
      if a + 1 < b {
        DaysBeforeYearMonotone(a + 1, b);
      }
    }
  }

  /** Distinct dates have distinct day numbers, so a day number names one date. */
  lemma DayNumberInjective(a: Date, b: Date)
    requires Valid(a) && Valid(b) && DayNumber(a) == DayNumber(b)
    ensures a == b
  {
    if a.year < b.year {
      DaysBeforeYearMonotone(a.year, b.year);
      assert false;
    } else if b.year < a.year {
      DaysBeforeYearMonotone(b.year, a.year);
      assert false;
    }
    MonthsApart(a.year, a.month, b.month);
    MonthsApart(a.year, b.month, a.month);
  }

  lemma {:induction false} MonthsApart(y: int, m1: int, m2: int)
    requires 1 <= m1 <= 12 && 1 <= m2 <= 12
    ensures m1 < m2 ==> DaysBeforeMonth(y, m1) + DaysInMonth(y, m1) <= DaysBeforeMonth(y, m2)
    decreases m2 - m1
  {
    if m1 + 1 < m2 {
      MonthsApart(y, m1 + 1, m2);
    }
  }

  /** The day after `d` (`d + timedelta(days=1)`). */
  function NextDay(d: Date): (r: Date)
    requires Valid(d)
    ensures Valid(r) && DayNumber(r) == DayNumber(d) + 1
  {
    if d.day < DaysInMonth(d.year, d.month) then Date(d.year, d.month, d.day + 1)
    else if d.month < 12 then Date(d.year, d.month + 1, 1)
    else DaysBeforeNextYear(d.year); Date(d.year + 1, 1, 1)
  }

  /** The day before `d`; 0001-01-01 (day 1) has none. */
  function PrevDay(d: Date): (r: Date)
    requires Valid(d) && DayNumber(d) > 1
    ensures Valid(r) && DayNumber(r) == DayNumber(d) - 1
  {
    if d.day > 1 then Date(d.year, d.month, d.day - 1)
    else if d.month > 1 then Date(d.year, d.month - 1, DaysInMonth(d.year, d.month - 1))
    else DaysBeforeNextYear(d.year - 1); Date(d.year - 1, 12, 31)
  }

  /** `d + timedelta(days=k)`, defined while the result stays at or after 0001-01-01. */
  function AddDays(d: Date, k: int): (r: Date)
    requires Valid(d) && DayNumber(d) + k >= 1
    ensures Valid(r) && DayNumber(r) == DayNumber(d) + k
    decreases if k < 0 then -k else k
  {
    if k == 0 then d
    else if k > 0 then AddDays(NextDay(d), k - 1)
    else AddDays(PrevDay(d), k + 1)
  }

  /** The last year `datetime.date` can hold, and the day number of its
      last day, 9999-12-31. */
  const MaxYear := 9999
  const MaxDayNumber := 3652059

  /** A date is within Python's range exactly when its day number is. */
  lemma PythonDateRange(d: Date)
    requires Valid(d)
    ensures d.year <= MaxYear <==> DayNumber(d) <= MaxDayNumber
  {
    DaysBeforeYearClosedForm(MaxYear + 1);
    if d.year <= MaxYear {
      DaysBeforeNextYear(d.year);
      DaysBeforeYearMonotone(d.year + 1, MaxYear + 1);
    } else {
      DaysBeforeYearMonotone(MaxYear + 1, d.year);
    }
  }

  /** Day number of the Monday that opens ISO week 1 of year `y`: the week
      holding the year's first Thursday (ISO 8601:2004 section 2.2.10). */
  function IsoWeek1Monday(y: int): (r: int)
    requires 1 <= y
    ensures (r + 6) % 7 == 0
    ensures NewYearDay(y) - 3 <= r <= NewYearDay(y) + 3
  {
    MondayNear(NewYearDay(y))
  }

  /** The day number of January 1 of year `y`. */
  function NewYearDay(y: int): int
    requires 1 <= y
  {
    DaysBeforeYear(y) + 1
  }

  /** The Monday nearest to day number `first` when that day falls Monday to
      Thursday (on or before it), otherwise the Monday after it. */
  function MondayNear(first: int): (r: int)
    ensures (r + 6) % 7 == 0
    ensures first - 3 <= r <= first + 3
  {
    var wd := (first + 6) % 7;
    if wd > 3 then first - wd + 7 else first - wd
  }

  /** An ISO 8601 week date without its day: week-numbering year and week. */
  datatype IsoWeek = IsoWeek(isoYear: int, week: int)

  /** The year and week of Python's `date.isocalendar()`. */
  function IsoCalendar(d: Date): IsoWeek
    requires Valid(d)
  {
    IsoWeekInYear(d.year, DayNumber(d))
  }

  /** The ISO week of day number `today`, which falls in calendar year `y`. */
  function IsoWeekInYear(y: int, today: int): IsoWeek
    requires 1 <= y
  {
    IsoWeekOfDay(today, y, PrevWeek1Monday(y), IsoWeek1Monday(y), IsoWeek1Monday(y + 1))
  }

  /** `isocalendar` on day numbers: `today` falls in calendar year `y`, whose
      week-1 Monday is `w1`; `prev` and `next` are those of the years around it. */
  function IsoWeekOfDay(today: int, y: int, prev: int, w1: int, next: int): IsoWeek
  {
    if today < w1 then IsoWeek(y - 1, (today - prev) / 7 + 1)
    else if (today - w1) / 7 >= 52 && today >= next then IsoWeek(y + 1, 1)
    else IsoWeek(y, (today - w1) / 7 + 1)
  }

  /** Day number arithmetic behind `isocalendar`, on plain integers. */
  lemma IsoWeekOfDayArithmetic(today: int, y: int, prev: int, w1: int, next: int)
    requires (prev + 6) % 7 == 0 && (w1 + 6) % 7 == 0 && (next + 6) % 7 == 0
    requires w1 - 3 <= today < next + 7 && w1 < next <= w1 + 372
    requires today < w1 ==> prev <= today && prev < w1 <= prev + 372 && y > 1
    ensures var iw := IsoWeekOfDay(today, y, prev, w1, next);
      && y - 1 <= iw.isoYear <= y + 1
      && (iw.isoYear == y - 1 ==> today < w1)
      && 1 <= iw.week <= 53
      && (if iw.isoYear == y - 1 then prev else if iw.isoYear == y then w1 else next)
         + 7 * (iw.week - 1) == today - (today + 6) % 7
  {
    if today < w1 {
      assert (w1 - prev) % 7 == 0;
    } else {
      assert (next - w1) % 7 == 0;
    }
  }

  /** 0001-01-01 is a Monday, so it opens ISO week 1 of year 1 and no day of
      year 1 falls in a week of year 0. */
  lemma FirstWeekOfYearOne()
    ensures NewYearDay(1) == 1 && IsoWeek1Monday(1) == 1
  {
  }

  /** Consecutive week-1 Mondays are 52 or 53 weeks apart. */
  lemma Week1MondaysApart(y: int)
    requires 1 <= y
    ensures IsoWeek1Monday(y) + 364 <= IsoWeek1Monday(y + 1) <= IsoWeek1Monday(y) + 372
  {
    MondaysNearApart(NewYearDay(y), NewYearDay(y + 1));
  }

  lemma MondaysNearApart(f1: int, f2: int)
    requires f1 + 365 <= f2 <= f1 + 366
    ensures MondayNear(f1) + 364 <= MondayNear(f2) <= MondayNear(f1) + 372
  {
  }

  /** A date lies between its own New Year's Day and the next one. */
  lemma WithinYear(d: Date)
    requires Valid(d)
    ensures NewYearDay(d.year) <= DayNumber(d) < NewYearDay(d.year + 1)
  {
  }

  /** The week-1 Monday of the year before `y`; for year 1, whose first day is
      a Monday opening week 1, the Monday a week earlier stands in. */
  function PrevWeek1Monday(y: int): int
    requires 1 <= y
  {
    if y > 1 then IsoWeek1Monday(y - 1) else -6
  }

  /** The ISO week of `d` is a real week (1 to 53) of a neighbouring year
      that begins on the Monday on or before `d`. */
  lemma IsoCalendarWeek(d: Date)
    requires Valid(d)
    ensures var iw := IsoCalendar(d);
      && d.year - 1 <= iw.isoYear <= d.year + 1
      && iw.isoYear >= 1
      && 1 <= iw.week <= 53
      && IsoWeek1Monday(iw.isoYear) + 7 * (iw.week - 1) == DayNumber(d) - Weekday(d)
  {
    var today := DayNumber(d);
    WithinYear(d);
    IsoWeekWithinYear(d.year, today);
    assert Weekday(d) == (today + 6) % 7;
  }

  /** `d` comes before week 1 of the ISO year after its own. With
      `IsoCalendarWeek` this makes the ISO year and week those of `d`: no
      other year and week 1 to 53 both start on `d`'s Monday and end after
      `d`. */
  lemma IsoCalendarBeforeNextYear(d: Date)
    requires Valid(d)
    ensures IsoCalendar(d).isoYear + 1 >= 1
    ensures DayNumber(d) < IsoWeek1Monday(IsoCalendar(d).isoYear + 1)
  {
    WithinYear(d);
    IsoWeekBeforeNextYear(d.year, DayNumber(d));
  }

  /** `isocalendar` is the only year and week that fit: any year and
      week from 1 whose week begins on `d`'s Monday, with `d` before week 1
      of the following year, are those of `IsoCalendar(d)`. */
  lemma IsoCalendarUnique(d: Date, y: int, week: int)
    requires Valid(d) && 1 <= y && 1 <= week
    requires IsoWeek1Monday(y) + 7 * (week - 1) == DayNumber(d) - Weekday(d)
    requires DayNumber(d) < IsoWeek1Monday(y + 1)
    ensures IsoCalendar(d) == IsoWeek(y, week)
  {
    var iw := IsoCalendar(d);
    IsoCalendarWeek(d);
    IsoCalendarBeforeNextYear(d);
    var monday, today := DayNumber(d) - Weekday(d), DayNumber(d);
    assert monday <= today;
    if y < iw.isoYear {
      Week1MondayMonotone(y, iw.isoYear);
      assert false;
    } else if iw.isoYear < y {
      Week1MondayMonotone(iw.isoYear, y);
      assert false;
    }
  }

  /** Week-1 Mondays grow with the year. */
  lemma {:induction false} Week1MondayMonotone(a: int, b: int)
    requires 1 <= a < b
    ensures IsoWeek1Monday(a + 1) <= IsoWeek1Monday(b)
    decreases b - a
  {
    if a + 1 < b {
      Week1MondayMonotone(a, b - 1);
      Week1MondaysApart(b - 1);
    }
  }

  lemma IsoWeekWithinYear(y: int, today: int)
    requires 1 <= y
    requires NewYearDay(y) <= today < NewYearDay(y + 1)
    ensures var iw := IsoWeekInYear(y, today);
      && y - 1 <= iw.isoYear <= y + 1
      && iw.isoYear >= 1
      && 1 <= iw.week <= 53
      && IsoWeek1Monday(iw.isoYear) + 7 * (iw.week - 1) == today - (today + 6) % 7
  {
    var prev, w1, next := PrevWeek1Monday(y), IsoWeek1Monday(y), IsoWeek1Monday(y + 1);
    WeekMondaysAround(y);
    IsoWeekFromBrackets(today, y, prev, w1, next, NewYearDay(y), NewYearDay(y + 1));
    var iw := IsoWeekOfDay(today, y, prev, w1, next);
    if iw.isoYear == y - 1 {
      assert IsoWeek1Monday(iw.isoYear) == prev;
    }
  }

  /** A day of calendar year `y` comes before week 1 of the ISO year after
      its own, so its ISO week is not a 53rd week the year does not have. */
  lemma IsoWeekBeforeNextYear(y: int, today: int)
    requires 1 <= y
    requires NewYearDay(y) <= today < NewYearDay(y + 1)
    ensures var iw := IsoWeekInYear(y, today);
      iw.isoYear + 1 >= 1 && today < IsoWeek1Monday(iw.isoYear + 1)
  {
    var prev, w1, next := PrevWeek1Monday(y), IsoWeek1Monday(y), IsoWeek1Monday(y + 1);
    WeekMondaysAround(y);
    IsoWeekFromBrackets(today, y, prev, w1, next, NewYearDay(y), NewYearDay(y + 1));
    var iw := IsoWeekOfDay(today, y, prev, w1, next);
    if iw.isoYear == y - 1 {
      assert IsoWeek1Monday(iw.isoYear + 1) == w1;
    } else if iw.isoYear == y {
      assert IsoWeek1Monday(iw.isoYear + 1) == next;
    } else {
      Week1MondaysApart(y + 1);
      assert today < next + 7 <= IsoWeek1Monday(iw.isoYear + 1);
    }
  }

  /** Where the week-1 Mondays of the years around `y` lie. */
  lemma WeekMondaysAround(y: int)
    requires 1 <= y
    ensures IsoWeek1Monday(y) + 364 <= IsoWeek1Monday(y + 1) <= IsoWeek1Monday(y) + 372
    ensures y > 1 ==> PrevWeek1Monday(y) + 364 <= IsoWeek1Monday(y) <= PrevWeek1Monday(y) + 372
    ensures y == 1 ==> IsoWeek1Monday(y) <= NewYearDay(y)
    ensures (PrevWeek1Monday(y) + 6) % 7 == 0
  {
    Week1MondaysApart(y);
    if y > 1 {
      Week1MondaysApart(y - 1);
    } else {
      FirstWeekOfYearOne();
    }
  }

  /** The arithmetic of `isocalendar` given only where the three week-1
      Mondays lie relative to the New Year's Days around `today`. */
  lemma IsoWeekFromBrackets(today: int, y: int, prev: int, w1: int, next: int, first: int, firstNext: int)
    requires (prev + 6) % 7 == 0 && (w1 + 6) % 7 == 0 && (next + 6) % 7 == 0
    requires first - 3 <= w1 <= first + 3 && firstNext - 3 <= next <= firstNext + 3
    requires first <= today < firstNext
    requires w1 + 364 <= next <= w1 + 372
    requires 1 <= y
    requires y > 1 ==> prev + 364 <= w1 <= prev + 372
    requires y == 1 ==> w1 <= first
    ensures var iw := IsoWeekOfDay(today, y, prev, w1, next);
      && y - 1 <= iw.isoYear <= y + 1
      && (iw.isoYear == y - 1 ==> y > 1)
      && 1 <= iw.week <= 53
      && (if iw.isoYear == y - 1 then prev else if iw.isoYear == y then w1 else next)
         + 7 * (iw.week - 1) == today - (today + 6) % 7
      && today < (if iw.isoYear == y - 1 then w1 else if iw.isoYear == y then next else next + 7)
  {
    IsoWeekOfDayArithmetic(today, y, prev, w1, next);
  }
}
