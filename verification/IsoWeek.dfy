/**
 The weekly report's windows. A time is a number of nanoseconds, and a day a number of days, since
 Monday 1 January of year 1, in UTC; both may be negative.
 */
module IsoWeek {
  type Day = int
  type Time = int

  const DAY_NS: int := 24 * 3600 * 1_000_000_000

  // ---- The calendar ----

  predicate IsLeap(year: int) {
    year % 4 == 0 && (year % 100 != 0 || year % 400 == 0)
  }

  // 1 January of a year.
  function NewYear(year: int): Day {
    var y := year - 1;
    365 * y + y / 4 - y / 100 + y / 400
  }

  lemma YearLength(year: int)
    ensures NewYear(year + 1) - NewYear(year) == if IsLeap(year) then 366 else 365
  {
    hide IsLeap;
    Carry(year, 4);
    Carry(year, 100);
    Carry(year, 400);
    LeapDays(year);
  }

  lemma Carry(y: int, m: int)
    requires m == 4 || m == 100 || m == 400
    ensures y / m - (y - 1) / m == if y % m == 0 then 1 else 0
  {
  }

  lemma LeapDays(y: int)
    ensures (if IsLeap(y) then 1 else 0) ==
      (if y % 4 == 0 then 1 else 0) - (if y % 100 == 0 then 1 else 0) + (if y % 400 == 0 then 1 else 0)
  {
    Hundreds(y);
    Fours(y);
  }

  lemma Hundreds(y: int)
    ensures y % 400 == 0 ==> y % 100 == 0
  {
    assert y % 400 == 0 ==> y == 100 * (4 * (y / 400));
  }

  lemma Fours(y: int)
    ensures y % 100 == 0 ==> y % 4 == 0
  {
    assert y % 100 == 0 ==> y == 4 * (25 * (y / 100));
  }

  // Sunday is 0.
  function Weekday(d: Day): (w: int)
    ensures 0 <= w < 7
  {
    (d + 1) % 7
  }

  const CYCLE: int := 146_097

  // The calendar repeats after 400 years, which are a whole number of weeks.
  lemma Cycle(year: int)
    ensures NewYear(year + 400) == NewYear(year) + CYCLE
    ensures CYCLE % 7 == 0
  {
    var y := year - 1;
    assert (y + 400) / 4 == y / 4 + 100 && (y + 400) / 100 == y / 100 + 4 && (y + 400) / 400 == y / 400 + 1;
  }

  function YearFrom(d: Day, year: int): (y: int)
    requires 1 <= year <= 400 && NewYear(year) <= d < CYCLE
    ensures NewYear(y) <= d < NewYear(y + 1)
    decreases 400 - year
  {
    if d < NewYear(year + 1) then year
    else
      assert year == 400 ==> NewYear(401) == CYCLE;
      YearFrom(d, year + 1)
  }

  // The year a day belongs to.
  function YearOf(d: Day): int {
    400 * (d / CYCLE) + YearFrom(d % CYCLE, 1)
  }

  lemma {:induction false} Cycles(year: int, n: nat)
    ensures NewYear(year + 400 * n) == NewYear(year) + n * CYCLE
  {
    if n > 0 {
      Cycles(year, n - 1);
      Cycle(year + 400 * (n - 1));
    }
  }

  lemma CyclesEitherWay(year: int, n: int)
    ensures NewYear(year + 400 * n) == NewYear(year) + n * CYCLE
  {
    if n >= 0 {
      Cycles(year, n);
    } else {
      Cycles(year + 400 * n, -n);
    }
  }

  lemma YearOfBounds(d: Day)
    ensures NewYear(YearOf(d)) <= d < NewYear(YearOf(d) + 1)
  {
    hide NewYear, YearFrom;
    var y := YearInCycle(d % CYCLE);
    ShiftedYear(y, d / CYCLE, d % CYCLE);
  }

  lemma YearInCycle(r: int) returns (y: int)
    requires 0 <= r < CYCLE
    ensures NewYear(1) <= r && y == YearFrom(r, 1) && NewYear(y) <= r < NewYear(y + 1)
  {
    y := YearFrom(r, 1);
  }

  lemma ShiftedYear(y: int, n: int, r: int)
    requires NewYear(y) <= r < NewYear(y + 1)
    ensures NewYear(400 * n + y) <= n * CYCLE + r < NewYear(400 * n + y + 1)
  {
    hide NewYear;
    CyclesEitherWay(y, n);
    CyclesEitherWay(y + 1, n);
    assert y + 400 * n == 400 * n + y && y + 1 + 400 * n == 400 * n + y + 1;
  }

  lemma {:induction false} NewYearMonotone(a: int, b: int)
    requires a <= b
    ensures NewYear(a) <= NewYear(b)
    decreases b - a
  {
    if a < b {
      NewYearMonotone(a, b - 1);
      YearLength(b - 1);
    }
  }

  lemma YearIsUnique(d: Day, y: int)
    requires NewYear(y) <= d < NewYear(y + 1)
    ensures YearOf(d) == y
  {
    hide NewYear, YearOf;
    YearOfBounds(d);
    if YearOf(d) < y {
      NewYearMonotone(YearOf(d) + 1, y);
    } else if YearOf(d) > y {
      NewYearMonotone(y + 1, YearOf(d));
    }
  }

  // ---- The source's date functions ----

  // The weekday with Sunday last.
  function DayNumber(d: Day): (n: int)
    ensures 1 <= n <= 7
  {
    if Weekday(d) == 0 then 7 else Weekday(d)
  }

  function MondayOf(d: Day): Day {
    d - (DayNumber(d) - 1)
  }

  // `Time.ISOWeek`: year and week of the Thursday in the same week.
  function ISOWeek(d: Day): (int, int) {
    var thursday := MondayOf(d) + 3;
    (YearOf(thursday), (thursday - NewYear(YearOf(thursday))) / 7 + 1)
  }

  // Midnight of the last Monday that is not after `t`.
  function PreviousMondayUTC(t: Time): Time {
    MondayOf(t / DAY_NS) * DAY_NS
  }

  function CurrentISOWeek(now: Time): (int, int) {
    ISOWeek((PreviousMondayUTC(now) - DAY_NS) / DAY_NS)
  }

  function WeekOneMonday(year: int): Day {
    MondayOf(NewYear(year) + 3)
  }

  function IsoWeekRange(year: int, week: int): (Time, Time) {
    var from := WeekOneMonday(year) + (week - 1) * 7;
    (from * DAY_NS, (from + 7) * DAY_NS)
  }

  // ---- What the weeks are ----

  // Days and Mondays by their remainder.
  lemma MondayByRemainder(d: Day)
    ensures MondayOf(d) == d - d % 7
    ensures Weekday(d) == 1 <==> d % 7 == 0
  {
  }

  lemma MondayOfIsMonday(d: Day)
    ensures Weekday(MondayOf(d)) == 1 && MondayOf(d) <= d < MondayOf(d) + 7
  {
    MondayByRemainder(d);
    MondayByRemainder(MondayOf(d));
  }

  lemma MondayIsUnique(d: Day, m: Day)
    requires Weekday(m) == 1 && m <= d < m + 7
    ensures MondayOf(d) == m
  {
    MondayByRemainder(d);
    MondayByRemainder(m);
  }

  /** Week 1 is the week of the year's first Thursday (section 4.1.4 of ISO 8601:2004). */
  lemma WeekOneHasFirstThursday(year: int)
    ensures Weekday(WeekOneMonday(year)) == 1
    ensures NewYear(year) <= WeekOneMonday(year) + 3 < NewYear(year) + 7
  {
    hide MondayOf, NewYear;
    MondayOfIsMonday(NewYear(year) + 3);
  }

  function WeeksIn(year: int): int {
    (WeekOneMonday(year + 1) - WeekOneMonday(year)) / 7
  }

  lemma MondayOfShift(k: int, c: int)
    ensures MondayOf(7 * k + c) == 7 * k + MondayOf(c)
  {
    MondayByRemainder(7 * k + c);
    MondayByRemainder(c);
  }

  // The weeks between the first Mondays of a year that starts `r` days after a Monday and the next.
  lemma WeekCount(a: Day, b: Day, leap: bool)
    requires b - a == if leap then 366 else 365
    ensures MondayOf(b + 3) - MondayOf(a + 3) ==
      7 * if Weekday(a) == 4 || (leap && Weekday(a) == 3) then 53 else 52
  {
    var k, r := a / 7, a % 7;
    MondayOfShift(k, r + 3);
    MondayOfShift(k, r + 3 + if leap then 366 else 365);
    MondayOfYear(r);
    assert Weekday(a) == if r == 6 then 0 else r + 1;
  }

  lemma MondayOfYear(r: int)
    requires 0 <= r < 7
    ensures MondayOf(r + 3) == if r < 4 then 0 else 7
    ensures MondayOf(r + 3 + 365) == if r < 3 then 364 else 371
    ensures MondayOf(r + 3 + 366) == if r < 2 then 364 else 371
  {
    MondayByRemainder(r + 3);
    MondayByRemainder(r + 3 + 365);
    MondayByRemainder(r + 3 + 366);
  }

  /**
   A year has 52 or 53 weeks, 53 exactly when it starts on a Thursday or is a leap year starting on
   a Wednesday, and its last week ends where week 1 of the next year starts.
   */
  lemma WeeksTileYears(year: int)
    ensures WeekOneMonday(year) + 7 * WeeksIn(year) == WeekOneMonday(year + 1)
    ensures WeeksIn(year) ==
      if Weekday(NewYear(year)) == 4 || (IsLeap(year) && Weekday(NewYear(year)) == 3) then 53 else 52
    ensures IsoWeekRange(year, WeeksIn(year)).1 == IsoWeekRange(year + 1, 1).0
  {
    hide NewYear, MondayOf, Weekday, IsLeap;
    YearLength(year);
    WeekCount(NewYear(year), NewYear(year + 1), IsLeap(year));
  }

  /** Consecutive weeks abut and are 604 800 seconds long, for every year and week number. */
  lemma WeeksAbut(year: int, week: int)
    ensures IsoWeekRange(year, week).1 == IsoWeekRange(year, week + 1).0
    ensures IsoWeekRange(year, week).1 == IsoWeekRange(year, week).0 + 604_800_000_000_000
  {
    assert 7 * DAY_NS == 604_800_000_000_000;
  }

  /** The days of a week's range are exactly the days that have this week as their ISO week. */
  lemma RangeIsWeek(year: int, week: int, d: Day)
    requires 1 <= week <= WeeksIn(year)
    ensures ISOWeek(d) == (year, week) <==> IsoWeekRange(year, week).0 <= d * DAY_NS < IsoWeekRange(year, week).1
  {
    hide ISOWeek, MondayOf, WeekOneMonday, WeeksIn;
    var from := WeekOneMonday(year) + (week - 1) * 7;
    if from <= d < from + 7 {
      InRange(year, week, d);
    }
    if ISOWeek(d) == (year, week) {
      WeekContainsDay(d);
      MondayOfIsMonday(d);
    }
  }

  lemma WeekIndex(offset: int, k: int)
    requires 0 <= offset < 7
    ensures (offset + k * 7) / 7 == k
  {
  }

  lemma InRange(year: int, week: int, d: Day)
    requires 1 <= week <= WeeksIn(year)
    requires WeekOneMonday(year) + (week - 1) * 7 <= d < WeekOneMonday(year) + week * 7
    ensures ISOWeek(d) == (year, week)
  {
    hide NewYear, MondayOf, Weekday, WeekOneMonday, WeeksIn, YearOf;
    var m := WeekOneMonday(year) + (week - 1) * 7;
    WeekOneHasFirstThursday(year);
    WeekOneHasFirstThursday(year + 1);
    WeeksTileYears(year);
    WholeWeeksOn(WeekOneMonday(year), week - 1);
    MondayIsUnique(d, m);
    YearIsUnique(m + 3, year);
    WeekIndex(WeekOneMonday(year) + 3 - NewYear(year), week - 1);
  }

  lemma WholeWeeksOn(m: Day, k: int)
    ensures Weekday(m + k * 7) == Weekday(m)
  {
  }

  lemma WholeWeeks(a: Day, b: Day)
    requires Weekday(a) == 1 && Weekday(b) == 1
    ensures b == a + (b - a) / 7 * 7
  {
    MondayByRemainder(a);
    MondayByRemainder(b);
  }

  // Every day lies in the range of its own ISO week.
  lemma WeekContainsDay(d: Day)
    ensures var (y, w) := ISOWeek(d);
      1 <= w <= WeeksIn(y) && WeekOneMonday(y) + (w - 1) * 7 == MondayOf(d)
  {
    hide NewYear, MondayOf, Weekday, WeekOneMonday, WeeksIn, YearOf;
    var m := MondayOf(d);
    var y := YearOf(m + 3);
    MondayOfIsMonday(d);
    YearOfBounds(m + 3);
    WeekOneHasFirstThursday(y);
    WeekOneHasFirstThursday(y + 1);
    WeeksTileYears(y);
    WholeWeeks(WeekOneMonday(y), m);
    WholeWeeks(m, WeekOneMonday(y + 1));
    WeekIndex(WeekOneMonday(y) + 3 - NewYear(y), (m - WeekOneMonday(y)) / 7);
  }

  /**
   The report's window is exactly the seven days that end at the last Monday 00:00 UTC not after
   `now`.
   */
  lemma ReportWindow(now: Time)
    ensures var m := PreviousMondayUTC(now);
      var (year, week) := CurrentISOWeek(now);
      && IsoWeekRange(year, week) == (m - 7 * DAY_NS, m)
      && m <= now < m + 7 * DAY_NS && m % DAY_NS == 0 && Weekday(m / DAY_NS) == 1
      && 1 <= week <= WeeksIn(year)
  {
    hide MondayOf, Weekday, WeekOneMonday, WeeksIn, ISOWeek;
    var today := now / DAY_NS;
    var monday := MondayOf(today);
    MondayOfIsMonday(today);
    WholeWeeksOn(monday, -1);
    MondayIsUnique(monday - 1, monday - 7);
    WeekContainsDay(monday - 1);
  }

  // ---- Known days ----

  /**
   The day numbers start on a Monday; 1 January 1970 was a Thursday, 719162 days later, and
   1 January 2000 a Saturday; 1900 was no leap year, 2000 and 2024 were.
   */
  lemma KnownDays()
    ensures NewYear(1) == 0 && Weekday(0) == 1
    ensures NewYear(1970) == 719_162 && Weekday(719_162) == 4
    ensures NewYear(2000) == 730_119 && Weekday(730_119) == 6
    ensures !IsLeap(1900) && IsLeap(2000) && IsLeap(2024)
  {
    assert 719_162 == 7 * 102_737 + 3 && 730_119 == 7 * 104_302 + 5;
  }

  // The week of a day by the first Monday of its year.
  lemma WeekByMonday(year: int, week: int, monday: Day, d: Day)
    requires Weekday(monday) == 1 && monday <= NewYear(year) + 3 < monday + 7
    requires monday + (week - 1) * 7 <= d < monday + week * 7
    requires 1 <= week <= 52 || (week == 53 && WeeksIn(year) == 53)
    ensures ISOWeek(d) == (year, week)
  {
    hide ISOWeek, NewYear, MondayOf, IsLeap, Weekday;
    MondayIsUnique(NewYear(year) + 3, monday);
    WeeksTileYears(year);
    InRange(year, week, d);
  }

  // The years that start on a Thursday have 53 weeks, here by their first day.
  lemma LongYear(year: int)
    requires Weekday(NewYear(year)) == 4 || (IsLeap(year) && Weekday(NewYear(year)) == 3)
    ensures WeeksIn(year) == 53
  {
    WeeksTileYears(year);
  }

  lemma TurnOf2009()
    ensures ISOWeek(NewYear(2009) - 3) == (2009, 1)
    ensures ISOWeek(NewYear(2010) + 2) == (2009, 53)
  {
    hide ISOWeek, WeeksIn;
    assert NewYear(2009) == 733_407 && NewYear(2010) == 733_772;
    assert Weekday(733_404) == 1 && Weekday(733_407) == 4;
    LongYear(2009);
    WeekByMonday(2009, 1, 733_404, 733_404);
    WeekByMonday(2009, 53, 733_404, 733_774);
  }

  lemma TurnOf2021()
    ensures ISOWeek(NewYear(2021) + 2) == (2020, 53)
    ensures ISOWeek(NewYear(2021) + 3) == (2021, 1)
  {
    hide ISOWeek, WeeksIn;
    assert NewYear(2020) == 737_424 && NewYear(2021) == 737_790;
    assert Weekday(737_422) == 1 && Weekday(737_424) == 3 && Weekday(737_793) == 1 && IsLeap(2020);
    LongYear(2020);
    WeekByMonday(2020, 53, 737_422, 737_792);
    WeekByMonday(2021, 1, 737_793, 737_793);
  }

  /**
   Known weeks: 29 December 2008 is in week 1 of 2009, 3 January 2010 in week 53 of 2009, 3 January
   2021 in week 53 of 2020 and the day after it in week 1 of 2021.
   */
  lemma KnownWeeks()
    ensures ISOWeek(NewYear(2009) - 3) == (2009, 1) && ISOWeek(NewYear(2010) + 2) == (2009, 53)
    ensures ISOWeek(NewYear(2021) + 2) == (2020, 53) && ISOWeek(NewYear(2021) + 3) == (2021, 1)
  {
    hide ISOWeek, NewYear;
    TurnOf2009();
    TurnOf2021();
  }

  /** On Tuesday 19 May 2026, 06:00, the last completed week is week 20 of 2026. */
  lemma LastCompletedWeek()
    ensures CurrentISOWeek((NewYear(2026) + (31 + 28 + 31 + 30) + 18) * 86_400_000_000_000 + 21_600_000_000_000) ==
      (2026, 20)
  {
    hide ISOWeek;
    assert NewYear(2026) == 739_616;
    var now := 739_754 * 86_400_000_000_000 + 21_600_000_000_000;
    assert now / DAY_NS == 739_754;
    MondayByRemainder(739_754);
    assert PreviousMondayUTC(now) == 739_753 * DAY_NS;
    assert (739_753 * DAY_NS - DAY_NS) / DAY_NS == 739_752;
    WeekByMonday(2026, 20, 739_613, 739_752);
  }
}
