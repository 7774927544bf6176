// Quota periods (pkg/config/config.go) in a zone with a fixed offset. A time is a number
// of nanoseconds since local midnight of 1970-01-01, a Thursday; a month is 12 * year + month - 1.
module QuotaPeriods {
  const DAY := 86_400_000_000_000
  const EPOCH_MONTH := 12 * 1970

  predicate IsLeap(y: int) { y % 4 == 0 && (y % 100 != 0 || y % 400 == 0) }

  function MonthLength(m: int): (n: int)
    ensures 28 <= n <= 31
  {
    var k := m % 12;
    if k == 1 then (if IsLeap(m / 12) then 29 else 28)
    else if k == 3 || k == 5 || k == 8 || k == 10 then 30
    else 31
  }

  // The day number of the first of month m.
  function MonthStart(m: int): int
    decreases if m > EPOCH_MONTH then m - EPOCH_MONTH else EPOCH_MONTH - m
  {
    if m == EPOCH_MONTH then 0
    else if m > EPOCH_MONTH then MonthStart(m - 1) + MonthLength(m - 1)
    else MonthStart(m + 1) - MonthLength(m)
  }

  lemma MonthStep(m: int)
    ensures MonthStart(m + 1) == MonthStart(m) + MonthLength(m)
  {
  }

  predicate InMonth(day: int, m: int) { MonthStart(m) <= day < MonthStart(m + 1) }

  function SearchUp(day: int, m: int): (r: int)
    requires MonthStart(m) <= day
    ensures InMonth(day, r)
    decreases day - MonthStart(m)
  {
    MonthStep(m);
    if day < MonthStart(m + 1) then m else SearchUp(day, m + 1)
  }

  function SearchDown(day: int, m: int): (r: int)
    requires day < MonthStart(m + 1)
    ensures InMonth(day, r)
    decreases MonthStart(m + 1) - day
  {
    MonthStep(m);
    if MonthStart(m) <= day then m else SearchDown(day, m - 1)
  }

  // time.Time.Date's year and month.
  function MonthOf(day: int): (m: int)
    ensures InMonth(day, m)
  {
    if MonthStart(EPOCH_MONTH) <= day then SearchUp(day, EPOCH_MONTH) else SearchDown(day, EPOCH_MONTH)
  }

  lemma {:induction false} MonthsAscend(m: int, n: int)
    requires m <= n
    ensures MonthStart(m) <= MonthStart(n)
    decreases n - m
  {
    if m < n {
      MonthsAscend(m, n - 1);
      MonthStep(n - 1);
    }
  }

  lemma MonthUnique(day: int, m: int)
    requires InMonth(day, m)
    ensures MonthOf(day) == m
  {
    var n := MonthOf(day);
    if n < m { MonthsAscend(n + 1, m); }
    if m < n { MonthsAscend(m + 1, n); }
  }

  // time.Date with its normalisation, and AddDate for months.
  function Date(m: int, dayOfMonth: int): int { MonthStart(m) + dayOfMonth - 1 }

  function DayOfMonth(day: int): int { day - MonthStart(MonthOf(day)) + 1 }

  function AddMonths(day: int, n: int): int { Date(MonthOf(day) + n, DayOfMonth(day)) }

  datatype Reset = Daily | Weekly | Monthly

  function ResetDay(configured: int): int { if 1 <= configured <= 28 then configured else 1 }

  function StartDay(reset: Reset, configured: int, day: int): int {
    match reset
    case Daily => day
    case Weekly =>
      var weekday := (day + 4) % 7; // Sunday is 0
      day - (weekday + 6) % 7
    case Monthly =>
      var rd := ResetDay(configured);
      if DayOfMonth(day) >= rd then Date(MonthOf(day), rd) else AddMonths(Date(MonthOf(day), rd), -1)
  }

  function NextDay(reset: Reset, configured: int, day: int): int {
    var start := StartDay(reset, configured, day);
    match reset
    case Daily => start + 1
    case Weekly => start + 7
    case Monthly => AddMonths(start, 1)
  }

  function PeriodStart(reset: Reset, configured: int, now: int): int {
    StartDay(reset, configured, now / DAY) * DAY
  }

  function NextReset(reset: Reset, configured: int, now: int): int {
    NextDay(reset, configured, now / DAY) * DAY
  }

  // A reset day exists in every month, so month arithmetic never spills over.
  lemma DateIsInMonth(m: int, rd: int)
    requires 1 <= rd <= 28
    ensures MonthOf(Date(m, rd)) == m && DayOfMonth(Date(m, rd)) == rd
  {
    MonthStep(m);
    MonthUnique(Date(m, rd), m);
  }

  // The month whose reset day opens the period of a day.
  function PeriodMonth(rd: int, day: int): int {
    if DayOfMonth(day) >= rd then MonthOf(day) else MonthOf(day) - 1
  }

  lemma MonthlyPeriod(configured: int, day: int)
    ensures var (rd, m) := (ResetDay(configured), PeriodMonth(ResetDay(configured), day));
      && StartDay(Monthly, configured, day) == Date(m, rd)
      && NextDay(Monthly, configured, day) == Date(m + 1, rd)
      && Date(m, rd) <= day < Date(m + 1, rd)
  {
    var rd := ResetDay(configured);
    var m := MonthOf(day);
    DateIsInMonth(m, rd);
    DateIsInMonth(m - 1, rd);
    MonthStep(m - 1);
    MonthStep(m);
  }

  // A monthly period opens on the configured day, or on the first when that is not in 1..28.
  lemma OpensOnResetDay(configured: int, day: int)
    ensures DayOfMonth(StartDay(Monthly, configured, day)) == if 1 <= configured <= 28 then configured else 1
  {
    MonthlyPeriod(configured, day);
    DateIsInMonth(PeriodMonth(ResetDay(configured), day), ResetDay(configured));
  }

  lemma PeriodMonthUnique(rd: int, day: int, m: int)
    requires 1 <= rd <= 28 && Date(m, rd) <= day < Date(m + 1, rd)
    ensures PeriodMonth(rd, day) == m
  {
    MonthStep(m);
    MonthStep(m + 1);
    if day < MonthStart(m + 1) { MonthUnique(day, m); } else { MonthUnique(day, m + 1); }
  }

  lemma MonthsPartition(configured: int, day: int, other: int)
    ensures StartDay(Monthly, configured, day) <= day < NextDay(Monthly, configured, day)
    ensures StartDay(Monthly, configured, day) <= other < NextDay(Monthly, configured, day) ==>
      StartDay(Monthly, configured, other) == StartDay(Monthly, configured, day)
    ensures StartDay(Monthly, configured, NextDay(Monthly, configured, day)) == NextDay(Monthly, configured, day)
  {
    var rd := ResetDay(configured);
    MonthlyPeriod(configured, day);
    var m := PeriodMonth(rd, day);
    if Date(m, rd) <= other < Date(m + 1, rd) {
      MonthlyPeriod(configured, other);
      PeriodMonthUnique(rd, other, m);
    }
    DateIsInMonth(m + 1, rd);
  }

  // Days less than a week apart with the same Monday at or before them.
  lemma MondayUnique(day: int, monday: int)
    requires (monday - 4) % 7 == 0 && monday <= day < monday + 7
    ensures monday == day - ((day + 4) % 7 + 6) % 7
  {
  }

  lemma WeekStart(configured: int, day: int)
    ensures var monday := StartDay(Weekly, configured, day);
      (monday - 4) % 7 == 0 && monday <= day < monday + 7 == NextDay(Weekly, configured, day)
  {
  }

  lemma WeeksPartition(configured: int, day: int, other: int)
    ensures StartDay(Weekly, configured, day) <= day < NextDay(Weekly, configured, day)
    ensures StartDay(Weekly, configured, day) <= other < NextDay(Weekly, configured, day) ==>
      StartDay(Weekly, configured, other) == StartDay(Weekly, configured, day)
    ensures StartDay(Weekly, configured, NextDay(Weekly, configured, day)) == NextDay(Weekly, configured, day)
  {
    WeekStart(configured, day);
    var monday := StartDay(Weekly, configured, day);
    if monday <= other < monday + 7 { MondayUnique(other, monday); }
    MondayUnique(monday + 7, monday + 7);
  }

  lemma DaysPartition(reset: Reset, configured: int, day: int, other: int)
    ensures StartDay(reset, configured, day) <= day < NextDay(reset, configured, day)
    ensures StartDay(reset, configured, day) <= other < NextDay(reset, configured, day) ==>
      StartDay(reset, configured, other) == StartDay(reset, configured, day)
    ensures StartDay(reset, configured, NextDay(reset, configured, day)) == NextDay(reset, configured, day)
  {
    match reset
    case Daily =>
    case Weekly => WeeksPartition(configured, day, other);
    case Monthly => MonthsPartition(configured, day, other);
  }

  // A weekly period runs from Monday (1970-01-05 was one) to Monday, a daily one from midnight to midnight.
  lemma WeeksRunFromMonday(configured: int, day: int)
    ensures var monday := StartDay(Weekly, configured, day);
      (monday - 4) % 7 == 0 && monday <= day < monday + 7 == NextDay(Weekly, configured, day)
    ensures StartDay(Daily, configured, day) == day && NextDay(Daily, configured, day) == day + 1
  {
    WeekStart(configured, day);
  }

  // A daily period is 24 hours long, a weekly one seven days.
  lemma PeriodLengths(configured: int, now: int)
    ensures var hour := 60 * 60 * 1_000_000_000;
      && NextReset(Daily, configured, now) - PeriodStart(Daily, configured, now) == 24 * hour
      && NextReset(Weekly, configured, now) - PeriodStart(Weekly, configured, now) == 7 * 24 * hour
  {
    WeekStart(configured, now / DAY);
  }

  // The periods partition time: every moment lies in its period, all moments of a period
  // agree on its start, and the next reset starts the next period.
  lemma PeriodsPartitionTime(reset: Reset, configured: int, now: int, other: int)
    ensures PeriodStart(reset, configured, now) <= now < NextReset(reset, configured, now)
    ensures PeriodStart(reset, configured, now) <= other < NextReset(reset, configured, now) ==>
      PeriodStart(reset, configured, other) == PeriodStart(reset, configured, now)
    ensures PeriodStart(reset, configured, NextReset(reset, configured, now)) == NextReset(reset, configured, now)
  {
    DaysPartition(reset, configured, now / DAY, other / DAY);
    assert NextReset(reset, configured, now) / DAY == NextDay(reset, configured, now / DAY);
  }

  // Days before the k-th month of a year (counting from 0).
  function DaysBefore(k: nat, leap: bool): int
    requires k <= 12
  {
    var days := [0, 31, 59, 90, 120, 151, 181, 212, 243, 273, 304, 334, 365][k];
    if k >= 2 && leap then days + 1 else days
  }

  // The months add up to the calendar: a year has 365 days, or 366 when it is a leap year.
  lemma {:induction false} MonthsOfYear(y: int, k: nat)
    requires k <= 12
    ensures MonthStart(12 * y + k) == MonthStart(12 * y) + DaysBefore(k, IsLeap(y))
  {
    if k > 0 {
      MonthsOfYear(y, k - 1);
      MonthStep(12 * y + k - 1);
      assert (12 * y + k - 1) / 12 == y && (12 * y + k - 1) % 12 == k - 1;
    }
  }

  // A year has 366 days when it is divisible by 4 and not by 100, or by 400.
  lemma YearLength(y: int)
    ensures MonthStart(12 * y + 12) - MonthStart(12 * y) ==
      if (y % 4 == 0 && y % 100 != 0) || y % 400 == 0 then 366 else 365
  {
    MonthsOfYear(y, 12);
    assert DaysBefore(12, IsLeap(y)) == if IsLeap(y) then 366 else 365;
  }

  lemma EpochOpens1970()
    ensures MonthStart(12 * 1970) == 0
  {
  }
}
