/** Task analytics: the calendar bounds of a requested week or month, and
    the per-day counters computed over the tasks dated inside them. */
module Analytics {
  import opened Wrappers
  import opened Gregorian

  // ---------------------------------------------------------------------
  // Period dates

  /** The first and last calendar day of a requested period (the end's time
      of day, 23:59:59, is dropped: the tasks are selected by date). */
  datatype DateRange = DateRange(start: Date, end: Date)

  /** `ValueError` (an unknown period type, or a year or month `datetime`
      rejects) and `OverflowError` (a year or month too wide for the C `int`
      that `datetime` converts it to, or a week whose dates leave year 1 to
      9999). */
  datatype PeriodError = InvalidPeriodType(periodType: string) | InvalidDate | DateOverflow

  /** The HTTP status the endpoint answers for each error: 400 for a
      `ValueError`, 500 for anything else. */
  function StatusOf(e: PeriodError): (status: int)
    ensures status == 400 <==> !e.DateOverflow?
    ensures status == 400 || status == 500
  {
    match e
    case InvalidPeriodType(_) => 400
    case InvalidDate => 400
    case DateOverflow => 500
  }

  /** `datetime` reads its year, month and day as C `int`s: a Python
      integer outside this range raises `OverflowError` before any check of
      the date itself. */
  const CIntMin: int := -0x8000_0000
  const CIntMax: int := 0x7fff_ffff

  predicate CInt(n: int) {
    CIntMin <= n <= CIntMax
  }

  /** A day number `datetime` can hold. */
  predicate InRange(n: int) {
    1 <= n <= MaxDayNumber
  }

  /** The Monday opening week 1 of `year`, as the endpoint finds it: back
      to the Monday on or before January 1 when January 1 falls Monday to
      Thursday, otherwise forward to the next Monday. It is the ISO 8601
      week-1 Monday. */
  function FirstMonday(year: int): (r: Date)
    requires 1 <= year <= MaxYear
    ensures Valid(r) && DayNumber(r) == IsoWeek1Monday(year)
  {
    var firstDay := Date(year, 1, 1);
    NewYearWeekday(year);
    var daysToMonday := Weekday(firstDay) % 7;
    if daysToMonday > 3 then AddDays(firstDay, -(daysToMonday - 7))
    else
      FirstMondayNotBeforeYearOne(year);
      AddDays(firstDay, -daysToMonday)
  }

  /** January 1 is day `NewYearDay(year)`, and its weekday is already
      reduced modulo 7. */
  lemma NewYearWeekday(year: int)
    requires 1 <= year
    ensures DayNumber(Date(year, 1, 1)) == NewYearDay(year)
    ensures Weekday(Date(year, 1, 1)) % 7 == Weekday(Date(year, 1, 1)) == (NewYearDay(year) + 6) % 7
  {
  }

  /** January 1 of year 1 is a Monday, so going back from January 1 never
      leaves year 1. */
  lemma FirstMondayNotBeforeYearOne(year: int)
    requires 1 <= year
    ensures DayNumber(Date(year, 1, 1)) - Weekday(Date(year, 1, 1)) >= 1
  {
    if year > 1 {
      DaysBeforeYearMonotone(2, year);
    }
  }

  /** The endpoint's week 1 is the week holding the year's first Thursday
      (ISO 8601:2004 section 2.2.10): it starts on a Monday, its Thursday
      is one of the first seven days of the year, and it starts on or
      before January 1 exactly when January 1 falls Monday to Thursday. */
  lemma FirstMondayHoldsFirstThursday(year: int)
    requires 1 <= year <= MaxYear
    ensures Weekday(FirstMonday(year)) == 0
    ensures NewYearDay(year) <= DayNumber(FirstMonday(year)) + 3 < NewYearDay(year) + 7
    ensures DayNumber(FirstMonday(year)) <= NewYearDay(year) <==> Weekday(Date(year, 1, 1)) <= 3
  {
    var n, m := NewYearDay(year), FirstMonday(year);
    NewYearWeekday(year);
    MondayNearBefore(n);
    assert DayNumber(m) == MondayNear(n);
    assert Weekday(m) == (DayNumber(m) + 6) % 7;
  }

  /** The Monday near a day opens the week holding the first Thursday on or
      after it, and is on or before that day exactly when the day falls
      Monday to Thursday. */
  lemma MondayNearBefore(first: int)
    ensures first <= MondayNear(first) + 3 < first + 7
    ensures MondayNear(first) <= first <==> (first + 6) % 7 <= 3
  {
  }

  /** Whole weeks after a date fall on the same weekday. */
  lemma WeeksLater(d: Date, weeks: int)
    requires Valid(d) && DayNumber(d) + 7 * weeks >= 1
    ensures Weekday(AddDays(d, 7 * weeks)) == Weekday(d)
  {
    SameResidue(DayNumber(d), DayNumber(AddDays(d, 7 * weeks)), weeks);
  }

  /** Numbers a whole number of weeks apart leave the same remainder. */
  lemma SameResidue(a: int, b: int, weeks: int)
    requires b == a + 7 * weeks
    ensures (b + 6) % 7 == (a + 6) % 7
  {
    var q, r := (a + 6) / 7, (a + 6) % 7;
    assert b + 6 == 7 * (q + weeks) + r;
  }

  /** `get_period_dates`: a weekly period is ISO week `period` of `year`,
      Monday to Sunday; a monthly period is month `period` of `year`, from
      the 1st to its last day; anything else is an error. */
  function GetPeriodDates(periodType: string, year: int, period: int): (r: Result<DateRange, PeriodError>)
    ensures r.Err? && r.error.InvalidPeriodType? <==> periodType != "weekly" && periodType != "monthly"
    ensures r.Ok? ==>
      && Valid(r.value.start) && Valid(r.value.end)
      && DayNumber(r.value.start) <= DayNumber(r.value.end)
      && r.value.start.year <= MaxYear && r.value.end.year <= MaxYear
  {
    if periodType == "weekly" then WeekDates(year, period)
    else if periodType == "monthly" then MonthDates(year, period)
    else Err(InvalidPeriodType(periodType))
  }

  /** The weekly branch: `datetime(year, 1, 1)` overflows on a year beyond
      a C `int` and rejects any other year outside 1 to 9999; week `period`
      then starts `period - 1` weeks after the ISO
      week-1 Monday, on a Monday, and ends on the Sunday after. A week
      number outside 1 to 53 is not refused: only a week whose dates leave
      the range overflows. */
  function WeekDates(year: int, period: int): (r: Result<DateRange, PeriodError>)
    ensures !CInt(year) ==> r == Err(DateOverflow)
    ensures r.Err? ==> (r.error == InvalidDate <==> CInt(year) && (year < 1 || year > MaxYear))
    ensures r.Err? ==> !r.error.InvalidPeriodType?
    ensures 1 <= year <= MaxYear ==>
      var start := IsoWeek1Monday(year) + 7 * (period - 1);
      r.Ok? <==> InRange(start) && InRange(start + 6)
    ensures r.Ok? ==>
      && Valid(r.value.start) && Valid(r.value.end)
      && r.value.start.year <= MaxYear && r.value.end.year <= MaxYear
      && 1 <= year <= MaxYear && DayNumber(r.value.start) == IsoWeek1Monday(year) + 7 * (period - 1)
      && Weekday(r.value.start) == 0
      && DayNumber(r.value.end) == DayNumber(r.value.start) + 6
  {
    if !CInt(year) then Err(DateOverflow)
    else if year < 1 || year > MaxYear then Err(InvalidDate)
    else
      var monday := FirstMonday(year);
      var start := DayNumber(monday) + 7 * (period - 1);
      if !InRange(start) || !InRange(start + 6) then Err(DateOverflow)
      else
        var startDate := AddDays(monday, 7 * (period - 1));
        WeekInRange(year, period);
        Ok(DateRange(startDate, AddDays(startDate, 6)))
  }

  /** A week whose seven day numbers are representable runs from a Monday
      to the Sunday after, both within year 9999. */
  lemma WeekInRange(year: int, period: int)
    requires 1 <= year <= MaxYear
    requires InRange(IsoWeek1Monday(year) + 7 * (period - 1)) && InRange(IsoWeek1Monday(year) + 7 * (period - 1) + 6)
    ensures var s := AddDays(FirstMonday(year), 7 * (period - 1));
      var e := AddDays(s, 6);
      && s.year <= MaxYear && e.year <= MaxYear
      && Weekday(s) == 0
  {
    var monday := FirstMonday(year);
    var s := AddDays(monday, 7 * (period - 1));
    var e := AddDays(s, 6);
    assert DayNumber(e) <= MaxDayNumber;
    PythonDateRange(s);
    PythonDateRange(e);
    WeekStartsOnMonday(year, period - 1);
  }

  /** Whole weeks after the week-1 Monday fall on a Monday. */
  lemma WeekStartsOnMonday(year: int, weeks: int)
    requires 1 <= year <= MaxYear && DayNumber(FirstMonday(year)) + 7 * weeks >= 1
    ensures Weekday(AddDays(FirstMonday(year), 7 * weeks)) == 0
  {
    FirstMondayHoldsFirstThursday(year);
    WeeksLater(FirstMonday(year), weeks);
  }

  /** The weekly analytics period agrees with ISO week dates: asking for the
      ISO year and week of any date gives the week that holds that date,
      starting on its Monday. */
  lemma WeekOfIsoCalendar(d: Date)
    requires Valid(d) && IsoCalendar(d).isoYear <= MaxYear
    ensures var iw := IsoCalendar(d);
      var r := WeekDates(iw.isoYear, iw.week);
      && (r.Ok? <==> InRange(DayNumber(d) - Weekday(d) + 6))
      && (r.Ok? ==> DayNumber(r.value.start) == DayNumber(d) - Weekday(d)
                    && DayNumber(r.value.start) <= DayNumber(d) <= DayNumber(r.value.end))
  {
    IsoCalendarWeek(d);
  }

  /** The monthly branch: `datetime(year, period, 1)` overflows when the
      year or the month is beyond a C `int`, and otherwise rejects a year
      outside 1 to 9999 or a month outside 1 to 12; else the 1st to the
      month's last day. */
  function MonthDates(year: int, period: int): (r: Result<DateRange, PeriodError>)
    ensures r.Err? <==> year < 1 || year > MaxYear || period < 1 || period > 12
    ensures r.Err? ==> (r.error == DateOverflow <==> !CInt(year) || !CInt(period))
    ensures r.Err? ==> r.error == InvalidDate || r.error == DateOverflow
    ensures r.Ok? ==> r.value == DateRange(Date(year, period, 1), Date(year, period, DaysInMonth(year, period)))
    ensures r.Ok? ==>
      && Valid(r.value.start) && Valid(r.value.end)
      && DayNumber(r.value.start) <= DayNumber(r.value.end)
      && DayNumber(r.value.end) == DayNumber(r.value.start) + DaysInMonth(year, period) - 1
  {
    if !CInt(year) || !CInt(period) then Err(DateOverflow)
    else if year < 1 || year > MaxYear || period < 1 || period > 12 then Err(InvalidDate)
    else Ok(DateRange(Date(year, period, 1), Date(year, period, DaysInMonth(year, period))))
  }

  /** Out-of-range path values: a week of year 3000000000 or month
      3000000000 is a server error (500), month 13 or year 0 a client error
      (400). */
  lemma PeriodErrorStatus()
    ensures StatusOf(GetPeriodDates("weekly", 3000000000, 1).error) == 500
    ensures StatusOf(GetPeriodDates("monthly", 2024, 3000000000).error) == 500
    ensures StatusOf(GetPeriodDates("monthly", 2024, 13).error) == 400
    ensures StatusOf(GetPeriodDates("weekly", 0, 1).error) == 400
  {
  }

  // ---------------------------------------------------------------------
  // Per-day counters

  /** The columns of a task row the counters read; `spentTime` may be NULL. */
  datatype TaskRow = TaskRow(date: string, status: string, spentTime: Option<int>)

  predicate IsDone(t: TaskRow) {
    t.status == "done"
  }

  /** `getattr(t, 'spentTime', 0) or 0`. */
  function SpentOf(t: TaskRow): int {
    match t.spentTime
    case None => 0
    case Some(v) => v
  }

  /** The number of completed tasks. */
  function CountDone(tasks: seq<TaskRow>): (n: nat)
    ensures n <= |tasks|
  {
    if tasks == [] then 0
    else CountDone(tasks[..|tasks| - 1]) + (if IsDone(tasks[|tasks| - 1]) then 1 else 0)
  }

  /** The sum of all spent times, `None` counting as 0. */
  function TotalTime(tasks: seq<TaskRow>): int {
    if tasks == [] then 0
    else TotalTime(tasks[..|tasks| - 1]) + SpentOf(tasks[|tasks| - 1])
  }

  /** The number of completed tasks dated `day`. */
  function DoneOn(tasks: seq<TaskRow>, day: string): nat {
    if tasks == [] then 0
    else
      var t := tasks[|tasks| - 1];
      DoneOn(tasks[..|tasks| - 1], day) + (if IsDone(t) && t.date == day then 1 else 0)
  }

  /** The positive spent times of the tasks dated `day`, added up. */
  function TimeOn(tasks: seq<TaskRow>, day: string): (n: nat) {
    if tasks == [] then 0
    else
      var t := tasks[|tasks| - 1];
      TimeOn(tasks[..|tasks| - 1], day) + (if SpentOf(t) > 0 && t.date == day then SpentOf(t) else 0)
  }

  /** The positive spent times of all tasks, added up. */
  function PositiveTime(tasks: seq<TaskRow>): (n: nat) {
    if tasks == [] then 0
    else
      var t := tasks[|tasks| - 1];
      PositiveTime(tasks[..|tasks| - 1]) + (if SpentOf(t) > 0 then SpentOf(t) else 0)
  }

  /** The sum of a map's values. */
  ghost function SumValues(m: map<string, int>): int
    decreases |m|
  {
    if m == map[] then 0
    else
      var k :| k in m;
      m[k] + SumValues(m - {k})
  }

  /** The sum does not depend on which key is taken first. */
  lemma {:induction false} SumValuesRemove(m: map<string, int>, k: string)
    requires k in m
    ensures SumValues(m) == m[k] + SumValues(m - {k})
    decreases |m|
  {
    var j :| j in m && SumValues(m) == m[j] + SumValues(m - {j});
    if j != k {
      SumValuesRemove(m - {j}, k);
      SumValuesRemove(m - {k}, j);
      assert m - {j} - {k} == m - {k} - {j};
    }
  }

  /** Setting one key changes the sum by the difference at that key. */
  lemma SumValuesUpdate(m: map<string, int>, k: string, v: int)
    ensures SumValues(m[k := v]) == SumValues(m) - (if k in m then m[k] else 0) + v
  {
    SumValuesRemove(m[k := v], k);
    assert m[k := v] - {k} == m - {k};
    if k in m {
      SumValuesRemove(m, k);
    } else {
      assert m - {k} == m;
    }
  }

  /** `m[key] = m.get(key, 0) + amount`: only `key` changes, and the values
      grow by `amount` in all. */
  function Bump(m: map<string, nat>, key: string, amount: nat): (r: map<string, nat>)
    ensures r.Keys == m.Keys + {key}
    ensures r[key] == (if key in m then m[key] else 0) + amount
    ensures forall k :: k in m && k != key ==> r[k] == m[k]
    ensures SumValues(r) == SumValues(m) + amount
  {
    var current := if key in m then m[key] else 0;
    SumValuesUpdate(m, key, current + amount);
    m[key := current + amount]
  }

  /** `m` holds, for each date, the number of completed tasks bearing it,
      and holds no other date. */
  ghost predicate CompletedTally(m: map<string, nat>, tasks: seq<TaskRow>) {
    forall day :: (day in m <==> DoneOn(tasks, day) > 0) && (day in m ==> m[day] == DoneOn(tasks, day))
  }

  /** `m` holds, for each date, the positive spent times of the tasks
      bearing it, added up, and holds no other date. */
  ghost predicate TimeTally(m: map<string, nat>, tasks: seq<TaskRow>) {
    forall day :: (day in m <==> TimeOn(tasks, day) > 0) && (day in m ==> m[day] == TimeOn(tasks, day))
  }

  /** Counting one more task keeps the completed tally. */
  lemma CompletedTallyStep(m: map<string, nat>, tasks: seq<TaskRow>, i: nat)
    requires i < |tasks| && CompletedTally(m, tasks[..i])
    ensures CompletedTally(if IsDone(tasks[i]) then Bump(m, tasks[i].date, 1) else m, tasks[..i + 1])
    ensures CountDone(tasks[..i + 1]) == CountDone(tasks[..i]) + (if IsDone(tasks[i]) then 1 else 0)
  {
    assert tasks[..i + 1][..i] == tasks[..i];
  }

  /** Adding one more task's time keeps the time tally. */
  lemma TimeTallyStep(m: map<string, nat>, tasks: seq<TaskRow>, i: nat)
    requires i < |tasks| && TimeTally(m, tasks[..i])
    ensures TimeTally(if SpentOf(tasks[i]) > 0 then Bump(m, tasks[i].date, SpentOf(tasks[i])) else m, tasks[..i + 1])
    ensures PositiveTime(tasks[..i + 1]) == PositiveTime(tasks[..i]) + (if SpentOf(tasks[i]) > 0 then SpentOf(tasks[i]) else 0)
  {
    assert tasks[..i + 1][..i] == tasks[..i];
  }

  /** What the endpoint reports for the tasks of a period. */
  datatype TaskAnalytics = TaskAnalytics(
    totalCreated: nat, totalCompleted: nat, totalTimeSpent: int, activeDays: nat,
    completedByDay: map<string, nat>, timeByDay: map<string, nat>)

  /** The counters of `get_task_analytics`: the totals, and one pass that
      counts completed tasks per date, adds positive spent times per date
      and collects the dates with time spent. Every date's completed count
      and time are those of the tasks bearing it, the per-date counts add
      up to the completed total, and the active days are exactly the dates
      with time spent. */
  method ComputeAnalytics(tasks: seq<TaskRow>) returns (r: TaskAnalytics)
    ensures r.totalCreated == |tasks|
    ensures r.totalCompleted == CountDone(tasks) <= r.totalCreated
    ensures r.totalTimeSpent == TotalTime(tasks)
    ensures CompletedTally(r.completedByDay, tasks)
    ensures TimeTally(r.timeByDay, tasks)
    ensures SumValues(r.completedByDay) == r.totalCompleted
    ensures SumValues(r.timeByDay) == PositiveTime(tasks)
    ensures r.activeDays == |r.timeByDay.Keys|
  {
    var completedByDay: map<string, nat> := map[];
    var timeByDay: map<string, nat> := map[];
    var activeDays: set<string> := {};
    for i := 0 to |tasks|
      invariant CompletedTally(completedByDay, tasks[..i])
      invariant TimeTally(timeByDay, tasks[..i])
      invariant SumValues(completedByDay) == CountDone(tasks[..i])
      invariant SumValues(timeByDay) == PositiveTime(tasks[..i])
      invariant activeDays == timeByDay.Keys
    {
      var task := tasks[i];
      CompletedTallyStep(completedByDay, tasks, i);
      TimeTallyStep(timeByDay, tasks, i);
      if IsDone(task) {
        completedByDay := Bump(completedByDay, task.date, 1);
      }
      var timeSpent := SpentOf(task);
      if timeSpent > 0 {
        timeByDay := Bump(timeByDay, task.date, timeSpent);
        activeDays := activeDays + {task.date};
      }
    }
    assert tasks[..|tasks|] == tasks;
    r := TaskAnalytics(|tasks|, CountDone(tasks), TotalTime(tasks), |activeDays|, completedByDay, timeByDay);
  }

  /** When no spent time is negative, the per-date times add up to the
      total time spent. */
  lemma {:induction false} PositiveTimeIsTotal(tasks: seq<TaskRow>)
    requires forall i :: 0 <= i < |tasks| ==> SpentOf(tasks[i]) >= 0
    ensures PositiveTime(tasks) == TotalTime(tasks)
  {
    if tasks != [] {
      PositiveTimeIsTotal(tasks[..|tasks| - 1]);
    }
  }
}
