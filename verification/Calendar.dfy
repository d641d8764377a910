// Datetime arithmetic on the proleptic Gregorian calendar, as timedelta does it.

module Calendar {
  import opened Text
  import opened Timestamp

  const DAY := 86400000000

  /** Days in all years before y. */
  function DaysBeforeYear(y: int): int {
    365 * (y - 1) + (y - 1) / 4 - (y - 1) / 100 + (y - 1) / 400
  }

  function YearLength(y: int): int { if IsLeap(y) then 366 else 365 }

  /** Days of year y before month m; m == 13 gives the whole year. */
  function DaysBeforeMonth(y: int, m: int): (n: int)
    requires 1 <= m <= 13
    ensures n >= 0
  {
    if m == 1 then 0 else DaysBeforeMonth(y, m - 1) + DaysInMonth(y, m - 1)
  }

  /** date.toordinal(). */
  function Ordinal(y: int, m: int, d: int): int
    requires 1 <= m <= 12
  {
    DaysBeforeYear(y) + DaysBeforeMonth(y, m) + d
  }

  /** Microseconds since the day before 0001-01-01. */
  function Micros(t: DateTime): int
    requires Valid(t)
  {
    Ordinal(t.year, t.month, t.day) * DAY
    + ((t.hour * 60 + t.minute) * 60 + t.second) * 1000000 + t.micro
  }

  lemma YearStep(y: int)
    ensures DaysBeforeYear(y + 1) == DaysBeforeYear(y) + YearLength(y)
  {
    assert y / 4 == (y - 1) / 4 + if y % 4 == 0 then 1 else 0;
    assert y / 100 == (y - 1) / 100 + if y % 100 == 0 then 1 else 0;
    assert y / 400 == (y - 1) / 400 + if y % 400 == 0 then 1 else 0;
    assert y % 400 == 0 ==> y % 100 == 0;
    assert y % 100 == 0 ==> y % 4 == 0;
  }

  /** The lengths of the months, and which years are leap years: every fourth, but of the hundreds every fourth only. */
  lemma MonthLengths(y: int)
    ensures forall m | m in {1, 3, 5, 7, 8, 10, 12} :: DaysInMonth(y, m) == 31
    ensures forall m | m in {4, 6, 9, 11} :: DaysInMonth(y, m) == 30
    ensures DaysInMonth(y, 2) == if y % 4 != 0 then 28 else if y % 100 != 0 then 29 else if y % 400 != 0 then 28 else 29
  {
  }

  /** The day of this number, counted from 0001-01-01 as day 1, is that date. */
  predicate IsDay(n: int, y: int, m: int, d: int) { ValidDate(y, m, d) && Ordinal(y, m, d) == n }

  lemma EraStart()
    ensures IsDay(1, 1, 1, 1)
  {
  }

  lemma CenturyStart()
    ensures IsDay(693596, 1900, 1, 1)
  {
    assert DaysBeforeYear(1900) == 693595;
    assert DaysBeforeMonth(1900, 1) == 0;
  }

  lemma EpochStart()
    ensures IsDay(719163, 1970, 1, 1)
  {
    assert DaysBeforeYear(1970) == 719162;
    assert DaysBeforeMonth(1970, 1) == 0;
  }

  lemma LeapDays()
    ensures IsDay(730179, 2000, 2, 29) && IsDay(730180, 2000, 3, 1)
  {
    MonthDays(2000);
  }

  lemma LaterDays()
    ensures IsDay(739037, 2024, 5, 31) && IsDay(739038, 2024, 6, 1) && IsDay(739251, 2024, 12, 31)
  {
    MonthDays(2024);
  }

  lemma LastDay()
    ensures IsDay(3652059, 9999, 12, 31)
  {
    MonthDays(9999);
  }

  /** Day counts that anyone can look up, before and behind leap days and centuries. */
  lemma KnownDays()
    ensures IsDay(1, 1, 1, 1) && IsDay(693596, 1900, 1, 1) && IsDay(719163, 1970, 1, 1)
    ensures IsDay(730179, 2000, 2, 29) && IsDay(730180, 2000, 3, 1)
    ensures IsDay(739037, 2024, 5, 31) && IsDay(739038, 2024, 6, 1) && IsDay(739251, 2024, 12, 31)
    ensures IsDay(3652059, 9999, 12, 31)
  {
    EraStart();
    CenturyStart();
    EpochStart();
    LeapDays();
    LaterDays();
    LastDay();
  }

  lemma MonthDays(y: int)
    ensures
      var leap := if IsLeap(y) then 1 else 0;
      && DaysBeforeMonth(y, 2) == 31 && DaysBeforeMonth(y, 3) == 59 + leap && DaysBeforeMonth(y, 4) == 90 + leap
      && DaysBeforeMonth(y, 5) == 120 + leap && DaysBeforeMonth(y, 6) == 151 + leap
      && DaysBeforeMonth(y, 7) == 181 + leap && DaysBeforeMonth(y, 8) == 212 + leap
      && DaysBeforeMonth(y, 9) == 243 + leap && DaysBeforeMonth(y, 10) == 273 + leap
      && DaysBeforeMonth(y, 11) == 304 + leap && DaysBeforeMonth(y, 12) == 334 + leap
  {
  }

  lemma MonthsFillYear(y: int)
    ensures DaysBeforeMonth(y, 13) == YearLength(y)
  {
    MonthDays(y);
  }

  /** The year, from y on, that the n-th day falls in. */
  function YearOf(n: int, y: int): (r: int)
    requires DaysBeforeYear(y) < n
    ensures r >= y && DaysBeforeYear(r) < n <= DaysBeforeYear(r) + YearLength(r)
    decreases n - DaysBeforeYear(y)
  {
    YearStep(y);
    if n <= DaysBeforeYear(y + 1) then y else YearOf(n, y + 1)
  }

  /** The month, from m on, that the k-th day of year y falls in. */
  function MonthOf(y: int, k: int, m: int): (r: int)
    requires 1 <= m <= 12 && DaysBeforeMonth(y, m) < k <= DaysBeforeMonth(y, 13)
    ensures 1 <= r <= 12 && DaysBeforeMonth(y, r) < k <= DaysBeforeMonth(y, r) + DaysInMonth(y, r)
    decreases 13 - m
  {
    if k <= DaysBeforeMonth(y, m + 1) then m else MonthOf(y, k, m + 1)
  }

  /** The datetime of a microsecond count from 0001-01-01 on. */
  function FromMicros(n: int): (t: DateTime)
    requires n >= DAY
    ensures t.year >= 1
    ensures t.year <= 9999 ==> Valid(t) && Micros(t) == n
  {
    var day, rest := n / DAY, n % DAY;
    assert DaysBeforeYear(1) == 0;
    var y := YearOf(day, 1);
    MonthsFillYear(y);
    var m := MonthOf(y, day - DaysBeforeYear(y), 1);
    var sec := rest / 1000000;
    DateTime(y, m, day - DaysBeforeYear(y) - DaysBeforeMonth(y, m),
             sec / 3600, sec / 60 % 60, sec % 60, rest % 1000000)
  }

  lemma OrdinalPositive(y: int, m: int, d: int)
    requires ValidDate(y, m, d)
    ensures Ordinal(y, m, d) >= 1
  {
    assert DaysBeforeYear(y) >= 0;
  }

  /** dt + timedelta(milliseconds=ms) for ms >= 0; None is the OverflowError after year 9999. */
  function AddMs(t: DateTime, ms: int): (r: Option<DateTime>)
    requires Valid(t) && ms >= 0
    ensures r.Some? ==> Valid(r.value) && Micros(r.value) == Micros(t) + 1000 * ms
  {
    OrdinalPositive(t.year, t.month, t.day);
    var end := FromMicros(Micros(t) + 1000 * ms);
    if end.year <= 9999 then Some(end) else None
  }
}
