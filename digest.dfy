/** When the AI coach sends its digests, and which calendar period a digest
    covers: the quiet-hours window, the minute a digest fires, which digest
    types are due on a local day, and the bounds and key of each period.
    Local time is an input: the conversion from UTC into the user's time
    zone is not part of this model. */
module DigestSchedule {
  import opened Wrappers
  import opened Gregorian

  /** `max(lo, min(hi, v))`. */
  function Clamp(v: real, lo: real, hi: real): (r: real)
    ensures lo <= hi ==> lo <= r <= hi
    ensures lo <= v <= hi ==> r == v
    ensures lo <= hi && v < lo ==> r == lo
    ensures lo <= hi && hi < v ==> r == hi
    ensures hi < lo ==> r == lo
  {
    var low := if hi < v then hi else v;
    if lo < low then low else lo
  }

  /** Clamping twice into the same range changes nothing more. */
  lemma ClampIdempotent(v: real, lo: real, hi: real)
    requires lo <= hi
    ensures Clamp(Clamp(v, lo, hi), lo, hi) == Clamp(v, lo, hi)
  {
  }

  // ---------------------------------------------------------------------
  // Preferences and digest types

  /** The scheduling fields of a user's coach preferences.  The stored hour
      and minute are read with a fallback (`None` stands for a value `int()`
      rejects); the quiet-hours bounds are optional "HH:MM" strings. */
  datatype Preference = Preference(
    dailyEnabled: bool, dailyHour: Option<int>, dailyMinute: Option<int>,
    weeklyEnabled: bool, monthlyEnabled: bool, yearlyEnabled: bool,
    quietEnabled: bool, quietStart: Option<string>, quietEnd: Option<string>)

  datatype DigestType = Daily | Weekly | Monthly | Yearly

  /** The name a digest type has in requests and reports. */
  function Name(t: DigestType): string {
    match t
    case Daily => "daily"
    case Weekly => "weekly"
    case Monthly => "monthly"
    case Yearly => "yearly"
  }

  /** The digest type a name stands for, if any. */
  function ParseDigestType(name: string): (r: Option<DigestType>)
    ensures r.Some? ==> Name(r.value) == name
  {
    if name == "daily" then Some(Daily)
    else if name == "weekly" then Some(Weekly)
    else if name == "monthly" then Some(Monthly)
    else if name == "yearly" then Some(Yearly)
    else None
  }

  /** Every digest type's name reads back as that type. */
  lemma ParseName(t: DigestType)
    ensures ParseDigestType(Name(t)) == Some(t)
  {
  }

  /** The place of a digest type in the order daily, weekly, monthly, yearly. */
  function Rank(t: DigestType): nat {
    match t
    case Daily => 0
    case Weekly => 1
    case Monthly => 2
    case Yearly => 3
  }

  /** The preference flag of a digest type. */
  function Enabled(pref: Preference, t: DigestType): bool {
    match t
    case Daily => pref.dailyEnabled
    case Weekly => pref.weeklyEnabled
    case Monthly => pref.monthlyEnabled
    case Yearly => pref.yearlyEnabled
  }

  /** Whether the preferences enable the digest type of that name; a name of
      no digest type is never enabled. */
  function IsDigestEnabled(pref: Preference, name: string): (b: bool)
    ensures ParseDigestType(name).None? ==> !b
    ensures forall t :: name == Name(t) ==> (b <==> Enabled(pref, t))
  {
    match ParseDigestType(name)
    case None => false
    case Some(t) => Enabled(pref, t)
  }

  // ---------------------------------------------------------------------
  // Reading "HH:MM"

  /** `s.split(sep)`: the pieces between separators, at least one. */
  function Split(s: string, sep: char): (parts: seq<string>)
    ensures |parts| >= 1
    ensures forall i :: 0 <= i < |parts| ==> sep !in parts[i]
  {
    if s == [] then [""]
    else
      var rest := Split(s[1..], sep);
      if s[0] == sep then [""] + rest
      else [[s[0]] + rest[0]] + rest[1..]
  }

  /** `sep.join(parts)`. */
  function Join(parts: seq<string>, sep: char): string
    requires |parts| >= 1
  {
    if |parts| == 1 then parts[0] else parts[0] + [sep] + Join(parts[1..], sep)
  }

  /** Joining the pieces gives the string back. */
  lemma {:induction false} JoinSplit(s: string, sep: char)
    ensures Join(Split(s, sep), sep) == s
  {
    if s != [] {
      JoinSplit(s[1..], sep);
      var rest := Split(s[1..], sep);
      if s[0] != sep {
        if |rest| == 1 {
          assert Split(s, sep) == [[s[0]] + rest[0]];
        } else {
          var parts := Split(s, sep);
          assert parts[1..] == rest[1..];
        }
      }
    }
  }

  /** Splitting a join of pieces without separators gives the pieces back. */
  lemma {:induction false} SplitJoin(parts: seq<string>, sep: char)
    requires |parts| >= 1
    requires forall i :: 0 <= i < |parts| ==> sep !in parts[i]
    ensures Split(Join(parts, sep), sep) == parts
    decreases |parts|, |parts[0]|
  {
    var p := parts[0];
    if p == [] {
      if |parts| > 1 {
        SplitJoin(parts[1..], sep);
        assert Join(parts, sep) == [sep] + Join(parts[1..], sep);
      }
    } else {
      var tail := [p[1..]] + parts[1..];
      forall i | 0 <= i < |tail| ensures sep !in tail[i] {
        if i > 0 {
          assert tail[i] == parts[i];
        }
      }
      SplitJoin(tail, sep);
      if |parts| == 1 {
        assert Join(parts, sep) == [p[0]] + Join(tail, sep);
      } else {
        assert Join(parts, sep) == [p[0]] + Join(tail, sep);
        assert tail[1..] == parts[1..];
      }
      assert [p[0]] + p[1..] == p;
    }
  }

  predicate IsDigit(c: char) {
    '0' <= c <= '9'
  }

  /** The value of a string of decimal digits. */
  function DigitsValue(s: string): (n: nat)
    requires forall i :: 0 <= i < |s| ==> IsDigit(s[i])
  {
    if s == [] then 0
    else
      assert IsDigit(s[|s| - 1]);
      10 * DigitsValue(s[..|s| - 1]) + (s[|s| - 1] as int - '0' as int)
  }

  /** `int(s)` on an optional sign followed by decimal digits; any other
      string is rejected. */
  function ParseInt(s: string): (r: Option<int>)
    ensures r.Some? ==> s != []
  {
    if s == [] then None
    else if s[0] == '+' || s[0] == '-' then
      var digits := s[1..];
      if digits != [] && forall i :: 0 <= i < |digits| ==> IsDigit(digits[i]) then
        var v: int := DigitsValue(digits);
        Some(if s[0] == '-' then -v else v)
      else None
    else if forall i :: 0 <= i < |s| ==> IsDigit(s[i]) then Some(DigitsValue(s))
    else None
  }

  /** The two-digit form of 0 to 99, as in "07". */
  function TwoDigits(n: nat): (s: string)
    requires n < 100
    ensures |s| == 2 && IsDigit(s[0]) && IsDigit(s[1])
  {
    [('0' as int + n / 10) as char, ('0' as int + n % 10) as char]
  }

  /** Two digits read back as their number. */
  lemma ParseTwoDigits(n: nat)
    requires n < 100
    ensures ParseInt(TwoDigits(n)) == Some(n)
  {
    var s := TwoDigits(n);
    assert s[..|s| - 1] == [s[0]] && [s[0]][..0] == [];
    assert DigitsValue([s[0]]) == n / 10;
  }

  /** The hours and minutes of an "H:M" string: exactly one colon, with an
      integer on each side. */
  function ParseHM(s: string): (r: Option<(int, int)>)
  {
    var parts := Split(s, ':');
    if |parts| != 2 then None
    else match (ParseInt(parts[0]), ParseInt(parts[1]))
      case (Some(h), Some(m)) => Some((h, m))
      case _ => None
  }

  /** A time written as "HH:MM" reads back as its hour and minute. */
  lemma ParseFormattedTime(h: nat, m: nat)
    requires h < 24 && m < 60
    ensures ParseHM(FormatHM(h, m)) == Some((h, m))
  {
    var parts := [TwoDigits(h), TwoDigits(m)];
    forall i | 0 <= i < 2 ensures ':' !in parts[i] {
    }
    assert Join(parts, ':') == FormatHM(h, m);
    SplitJoin(parts, ':');
    ParseTwoDigits(h);
    ParseTwoDigits(m);
  }

  /** A missing value or the empty string: what `not value` tests. */
  predicate Blank(v: Option<string>) {
    v.None? || v.value == ""
  }

  // ---------------------------------------------------------------------
  // Quiet hours and the trigger minute

  /** Whether minute-of-day `now` lies in the window from `start` to `end`:
      empty when they are equal, `start` included and `end` excluded, and
      wrapping past midnight when `start` is later than `end`. */
  predicate InWindow(start: int, end: int, now: int) {
    if start == end then false
    else if start < end then start <= now < end
    else now >= start || now < end
  }

  /** A window that wraps past midnight is exactly the complement of the
      window running the other way. */
  lemma WrappedWindowIsComplement(start: int, end: int, now: int)
    requires start != end
    ensures InWindow(start, end, now) <==> !InWindow(end, start, now)
  {
  }

  /** The quiet window as minutes of the day, when quiet hours are enabled
      and both bounds are present and read as "H:M". */
  function QuietWindow(pref: Preference): (w: Option<(int, int)>)
    ensures w.Some? <==> (pref.quietEnabled && !Blank(pref.quietStart) && !Blank(pref.quietEnd)
      && ParseHM(pref.quietStart.value).Some? && ParseHM(pref.quietEnd.value).Some?)
  {
    if !pref.quietEnabled || Blank(pref.quietStart) || Blank(pref.quietEnd) then None
    else match (ParseHM(pref.quietStart.value), ParseHM(pref.quietEnd.value))
      case (Some((sh, sm)), Some((eh, em))) => Some((sh * 60 + sm, eh * 60 + em))
      case _ => None
  }

  /** Whether the local time is in quiet hours: never when quiet hours are
      disabled, a bound is missing or unreadable, or the bounds are equal. */
  function InQuietHours(pref: Preference, hour: int, minute: int): (quiet: bool)
    ensures !pref.quietEnabled || Blank(pref.quietStart) || Blank(pref.quietEnd) ==> !quiet
    ensures QuietWindow(pref).None? ==> !quiet
    ensures QuietWindow(pref).Some? ==>
      var (start, end) := QuietWindow(pref).value;
      && (start == end ==> !quiet)
      && (start < end ==> (quiet <==> start <= hour * 60 + minute < end))
      && (start > end ==> (quiet <==> hour * 60 + minute >= start || hour * 60 + minute < end))
  {
    match QuietWindow(pref)
    case None => false
    case Some((start, end)) => InWindow(start, end, hour * 60 + minute)
  }

  /** `_safe_int(value, default)`. */
  function IntOr(v: Option<int>, default: int): int {
    if v.None? then default else v.value
  }

  /** The local hour and minute at which digests fire, 20:00 by default. */
  function TriggerHour(pref: Preference): int { IntOr(pref.dailyHour, 20) }
  function TriggerMinute(pref: Preference): int { IntOr(pref.dailyMinute, 0) }

  /** Whether digests fire at this local minute: exactly at the configured
      hour and minute, and not in quiet hours. */
  function ShouldTrigger(pref: Preference, hour: int, minute: int): (fire: bool)
    ensures fire <==> hour == TriggerHour(pref) && minute == TriggerMinute(pref) && !InQuietHours(pref, hour, minute)
  {
    if hour != TriggerHour(pref) then false
    else if minute != TriggerMinute(pref) then false
    else !InQuietHours(pref, hour, minute)
  }

  /** Digests fire at most one minute a day. */
  lemma TriggerAtMostOncePerDay(pref: Preference, h1: int, m1: int, h2: int, m2: int)
    requires ShouldTrigger(pref, h1, m1) && ShouldTrigger(pref, h2, m2)
    ensures h1 == h2 && m1 == m2
  {
  }

  /** A quiet-hours bound written as "HH:MM". */
  function FormatHM(h: nat, m: nat): (s: string)
    requires h < 24 && m < 60
    ensures |s| == 5
  {
    TwoDigits(h) + ":" + TwoDigits(m)
  }

  /** Enabled quiet hours with bounds written as "HH:MM" span the minutes
      from the start to the end, so 22:00 to 07:00 wraps past midnight. */
  lemma QuietWindowOfFormattedBounds(pref: Preference, sh: nat, sm: nat, eh: nat, em: nat)
    requires sh < 24 && sm < 60 && eh < 24 && em < 60
    requires pref.quietEnabled
    requires pref.quietStart == Some(FormatHM(sh, sm)) && pref.quietEnd == Some(FormatHM(eh, em))
    ensures QuietWindow(pref) == Some((sh * 60 + sm, eh * 60 + em))
  {
    ParseFormattedTime(sh, sm);
    ParseFormattedTime(eh, em);
  }

  // ---------------------------------------------------------------------
  // Which digests are due

  /** The local calendar fields the due check reads. */
  datatype LocalTime = LocalTime(hour: int, minute: int, weekday: int, day: int, month: int)

  /** Whether a digest type's own calendar condition holds: daily every
      day, weekly on Sundays (weekday 6), monthly on the 1st, yearly on
      January 1. */
  predicate OnItsDay(t: DigestType, now: LocalTime) {
    match t
    case Daily => true
    case Weekly => now.weekday == 6
    case Monthly => now.day == 1
    case Yearly => now.day == 1 && now.month == 1
  }

  /** The digest types due at a local minute, in the order daily, weekly,
      monthly, yearly: none unless digests fire at this minute, and then
      each enabled type whose day it is. */
  method DueDigestTypes(pref: Preference, now: LocalTime) returns (due: seq<DigestType>)
    ensures forall t :: t in due <==>
      ShouldTrigger(pref, now.hour, now.minute) && Enabled(pref, t) && OnItsDay(t, now)
    ensures forall i, j :: 0 <= i < j < |due| ==> Rank(due[i]) < Rank(due[j])
  {
    if !ShouldTrigger(pref, now.hour, now.minute) {
      return [];
    }
    due := [];
    if pref.dailyEnabled {
      due := due + [Daily];
    }
    assert forall t :: t in due <==> t == Daily && pref.dailyEnabled;
    if pref.weeklyEnabled && now.weekday == 6 {
      due := due + [Weekly];
    }
    assert forall t :: t in due <==> (t == Daily && pref.dailyEnabled) || (t == Weekly && pref.weeklyEnabled && now.weekday == 6);
    if pref.monthlyEnabled && now.day == 1 {
      due := due + [Monthly];
    }
    assert forall t :: t in due <==> (t == Daily && pref.dailyEnabled) || (t == Weekly && pref.weeklyEnabled && now.weekday == 6) || (t == Monthly && pref.monthlyEnabled && now.day == 1);
    if pref.yearlyEnabled && now.day == 1 && now.month == 1 {
      due := due + [Yearly];
    }
  }

  /** A due digest passes the enabled check made when it is generated. */
  lemma DueIsEnabled(pref: Preference, now: LocalTime, t: DigestType)
    requires ShouldTrigger(pref, now.hour, now.minute) && Enabled(pref, t) && OnItsDay(t, now)
    ensures IsDigestEnabled(pref, Name(t))
  {
    ParseName(t);
  }

  // ---------------------------------------------------------------------
  // Period bounds

  /** What identifies a digest's period: the day, the ISO week, the month
      or the year (written "2024-05-17", "2024-W07", "2024-05", "2024"). */
  datatype PeriodKey = DayKey(date: Date) | WeekKey(week: IsoWeek) | MonthKey(year: int, month: int) | YearKey(year: int)

  datatype Period = Period(start: Date, end: Date, key: PeriodKey)

  datatype PeriodError = UnsupportedDigestType(name: string) | DateOutOfRange

  /** A date Python's `datetime.date` can hold. */
  predicate PythonDate(d: Date) {
    Valid(d) && d.year <= MaxYear
  }

  /** `_period_bounds`: the period of the digest type of that name that
      holds `target`; a name of no digest type is an error. */
  function PeriodBounds(digestType: string, target: Date): (r: Result<Period, PeriodError>)
    requires PythonDate(target)
    ensures r.Err? && r.error.UnsupportedDigestType? <==> ParseDigestType(digestType).None?
    ensures forall t :: digestType == Name(t) ==> r == PeriodOf(t, target)
  {
    match ParseDigestType(digestType)
    case None => Err(UnsupportedDigestType(digestType))
    case Some(t) => PeriodOf(t, target)
  }

  /** The first and last day and the key of the period of type `t` that
      holds `target`; a period whose bounds would pass 9999-12-31 is an
      error. */
  function PeriodOf(t: DigestType, target: Date): (r: Result<Period, PeriodError>)
    requires PythonDate(target)
    ensures r.Err? ==> r.error == DateOutOfRange
    ensures r.Ok? ==>
      && PythonDate(r.value.start) && PythonDate(r.value.end)
      && DayNumber(r.value.start) <= DayNumber(target) <= DayNumber(r.value.end)
  {
    match t
    case Daily => Ok(Period(target, target, DayKey(target)))
    case Weekly => WeekBounds(target)
    case Monthly => MonthBounds(target)
    case Yearly => YearBounds(target)
  }

  /** The weekly period: from the Monday of the target's week to the Sunday
      six days later, keyed by the target's ISO week. */
  function WeekBounds(target: Date): (r: Result<Period, PeriodError>)
    requires PythonDate(target)
    ensures r.Err? ==> r.error == DateOutOfRange
    ensures r.Ok? ==>
      && PythonDate(r.value.start) && PythonDate(r.value.end)
      && DayNumber(r.value.start) <= DayNumber(target) <= DayNumber(r.value.end)
  {
    var start := WeekStart(target);
    if DayNumber(start) + 6 > MaxDayNumber then Err(DateOutOfRange)
    else
      var end := AddDays(start, 6);
      PythonDateRange(start);
      PythonDateRange(end);
      Ok(Period(start, end, WeekKey(IsoCalendar(target))))
  }

  /** A weekly period starts on a Monday, ends six days later on a Sunday,
      and its key is the ISO week that Monday opens: that week of the key's
      ISO year begins on the Monday, and the target comes before week 1 of
      the next ISO year. */
  lemma WeeklyPeriod(target: Date)
    requires PythonDate(target) && WeekBounds(target).Ok?
    ensures var p := WeekBounds(target).value;
      var iw := IsoCalendar(target);
      && Weekday(p.start) == 0
      && DayNumber(p.end) == DayNumber(p.start) + 6
      && p.key == WeekKey(iw)
      && iw.isoYear >= 1
      && IsoWeek1Monday(iw.isoYear) + 7 * (iw.week - 1) == DayNumber(p.start)
      && DayNumber(target) < IsoWeek1Monday(iw.isoYear + 1)
  {
    assert WeekBounds(target).value.start == WeekStart(target);
    IsoCalendarWeek(target);
    IsoCalendarBeforeNextYear(target);
  }

  /** The weekly period is out of range exactly for 9999-12-27 to
      9999-12-31, whose Sunday would fall in year 10000. */
  lemma WeeklyOutOfRange(target: Date)
    requires PythonDate(target)
    ensures WeekBounds(target).Err? <==> target.year == MaxYear && target.month == 12 && target.day >= 27
  {
    var n := DayNumber(target);
    assert DayNumber(WeekStart(target)) == n - (n + 6) % 7;
    assert WeekBounds(target).Err? <==> n - (n + 6) % 7 + 6 > MaxDayNumber;
    MondayOfLastWeek(n);
    LastDaysOfRange(target);
  }

  /** The Monday on or before `d` (`d - timedelta(days=d.weekday())`). */
  function WeekStart(d: Date): (r: Date)
    requires Valid(d)
    ensures Valid(r) && DayNumber(r) == DayNumber(d) - Weekday(d)
    ensures Weekday(r) == 0
  {
    var n, w := DayNumber(d), Weekday(d);
    assert w == (n + 6) % 7;
    MondayOf(n, n - w);
    AddDays(d, -w)
  }

  /** The monthly period: from the 1st up to the day before the 1st of the
      next month, which for December lies in the next year, so December of
      9999 is out of range. */
  function MonthBounds(target: Date): (r: Result<Period, PeriodError>)
    requires PythonDate(target)
    ensures r.Err? <==> target.month == 12 && target.year == MaxYear
    ensures r.Err? ==> r.error == DateOutOfRange
    ensures r.Ok? ==> r.value == Period(Date(target.year, target.month, 1),
      Date(target.year, target.month, DaysInMonth(target.year, target.month)), MonthKey(target.year, target.month))
    ensures r.Ok? ==>
      && PythonDate(r.value.start) && PythonDate(r.value.end)
      && DayNumber(r.value.start) <= DayNumber(target) <= DayNumber(r.value.end)
  {
    var y, m := target.year, target.month;
    if m == 12 && y == MaxYear then Err(DateOutOfRange)
    else
      var next := if m == 12 then Date(y + 1, 1, 1) else Date(y, m + 1, 1);
      DaysBeforeNextYear(y);
      Ok(Period(Date(y, m, 1), PrevDay(next), MonthKey(y, m)))
  }

  /** The yearly period: January 1 to December 31 of the target's year. */
  function YearBounds(target: Date): (r: Result<Period, PeriodError>)
    requires PythonDate(target)
    ensures r == Ok(Period(Date(target.year, 1, 1), Date(target.year, 12, 31), YearKey(target.year)))
    ensures PythonDate(r.value.start) && PythonDate(r.value.end)
      && DayNumber(r.value.start) <= DayNumber(target) <= DayNumber(r.value.end)
  {
    MonthsApart(target.year, target.month, 12);
    Ok(Period(Date(target.year, 1, 1), Date(target.year, 12, 31), YearKey(target.year)))
  }

  /** Going back by a day's weekday lands on a Monday. */
  lemma MondayOf(n: int, m: int)
    requires m == n - (n + 6) % 7
    ensures (m + 6) % 7 == 0
    ensures n >= 1 ==> m >= 1
  {
    var q := (n + 6) / 7;
    assert m + 6 == 7 * q;
  }

  /** The week holding day `n` ends after 9999-12-31 exactly when `n` is
      9999-12-27 (a Monday) or later. */
  lemma MondayOfLastWeek(n: int)
    requires n >= 1
    ensures n - (n + 6) % 7 + 6 > MaxDayNumber <==> n >= MaxDayNumber - 4
  {
  }

  /** The last five days of the range are 9999-12-27 to 9999-12-31. */
  lemma LastDaysOfRange(target: Date)
    requires PythonDate(target)
    ensures DayNumber(target) >= MaxDayNumber - 4 <==> target.year == MaxYear && target.month == 12 && target.day >= 27
  {
    DaysBeforeYearClosedForm(MaxYear);
    assert DaysBeforeYear(MaxYear) == MaxDayNumber - 365;
    if target.year < MaxYear {
      DaysBeforeNextYear(target.year);
      DaysBeforeYearMonotone(target.year + 1, MaxYear);
    } else if target.month < 12 {
      MonthsApart(MaxYear, target.month, 12);
    }
  }
}
