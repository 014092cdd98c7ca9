/** Wall-clock timestamps in the bot's single fixed zone (Asia/Singapore,
    taken at its present offset). A timestamp is its calendar
    components; two timestamps compare as the tuple
    (year, month, day, hour, minute). */
module Calendar {

  datatype Stamp = Stamp(year: int, month: int, day: int, hour: int, minute: int)

  /** A reading of the clock: a wall-clock minute plus the seconds and
      microseconds into it, counted in microseconds. Stored meeting times
      are whole minutes; "now" generally is not. */
  datatype Instant = Instant(at: Stamp, micros: nat)

  /** Gregorian leap years, as Python's `calendar.isleap`. */
  predicate IsLeapYear(y: int) {
    y % 4 == 0 && (y % 100 != 0 || y % 400 == 0)
  }

  function DaysInMonth(y: int, m: int): (d: int)
    requires 1 <= m <= 12
    ensures 28 <= d <= 31
    ensures d == 29 <==> (m == 2 && IsLeapYear(y))
    ensures d == 28 <==> (m == 2 && !IsLeapYear(y))
    ensures d == 30 <==> m in {4, 6, 9, 11}
  {
    if m == 2 then (if IsLeapYear(y) then 29 else 28)
    else if m == 4 || m == 6 || m == 9 || m == 11 then 30
    else 31
  }

  /** Days of year `y`. */
  function DaysInYear(y: int): int {
    if IsLeapYear(y) then 366 else 365
  }

  /** Python's `_days_before_year`: days from 0001-01-01 to January 1 of
      year `y`. */
  function DaysBeforeYear(y: int): int {
    var p := y - 1;
    365 * p + p / 4 - p / 100 + p / 400
  }

  /** Python's `_days_before_month`: days in year `y` before month `m`. */
  function DaysBeforeMonth(y: int, m: int): int
    requires 1 <= m <= 12
  {
    [0, 31, 59, 90, 120, 151, 181, 212, 243, 273, 304, 334][m - 1]
      + (if m > 2 && IsLeapYear(y) then 1 else 0)
  }

  /** Python's `date.toordinal()`: 0001-01-01 is day 1. An independent day
      count against which calendar arithmetic is checked. */
  function Ordinal(s: Stamp): int
    requires 1 <= s.month <= 12
  {
    DaysBeforeYear(s.year) + DaysBeforeMonth(s.year, s.month) + s.day
  }

  /** `date.max.toordinal()`, the ordinal of 9999-12-31. */
  const MaxOrdinal := 3652059

  /** Euclidean division is determined by its quotient and remainder. */
  lemma DivUnique(n: int, k: int, q: int, r: int)
    requires k > 0 && 0 <= r < k && n == k * q + r
    ensures n / k == q && n % k == r
  {
    var q0, r0 := n / k, n % k;
    assert k * q0 + r0 == k * q + r;
    if q > q0 {
      MulAtLeast(k, q - q0);
    } else if q < q0 {
      MulAtLeast(k, q0 - q);
    }
  }

  lemma {:induction false} MulAtLeast(k: int, d: int)
    requires k > 0 && d >= 1
    ensures k * d >= k
    decreases d
  {
    if d > 1 {
      MulAtLeast(k, d - 1);
      assert k * d == k * (d - 1) + k;
    }
  }

  /** `(p + 1) / k` counts one more multiple of `k` than `p / k` exactly
      when `k` divides `p + 1`. */
  lemma DivStep(p: int, k: int)
    requires k > 0
    ensures (p + 1) / k == p / k + (if (p + 1) % k == 0 then 1 else 0)
  {
    var q, r := p / k, p % k;
    if r == k - 1 {
      DivUnique(p + 1, k, q + 1, 0);
    } else {
      DivUnique(p + 1, k, q, r + 1);
    }
  }

  /** Consecutive years are `DaysInYear` apart. */
  lemma YearStep(y: int)
    ensures DaysBeforeYear(y + 1) == DaysBeforeYear(y) + DaysInYear(y)
  {
    var p := y - 1;
    DivStep(p, 4);
    DivStep(p, 100);
    DivStep(p, 400);
    if y % 100 == 0 {
      assert y == 4 * (25 * (y / 100));
    }
    if y % 400 == 0 {
      assert y == 100 * (4 * (y / 400));
    }
  }

  lemma {:induction false} DaysBeforeYearMonotone(a: int, b: int)
    requires a <= b
    ensures DaysBeforeYear(a) <= DaysBeforeYear(b)
    decreases b - a
  {
    if a < b {
      YearStep(a);
      DaysBeforeYearMonotone(a + 1, b);
    }
  }

  /** The days of a year after the start of month `m`, its own included,
      are the year's. */
  lemma MonthsFitYear(y: int, m: int)
    requires 1 <= m <= 12
    ensures DaysBeforeMonth(y, m) + DaysInMonth(y, m) <= DaysInYear(y)
    ensures m < 12 ==> DaysBeforeMonth(y, m + 1) == DaysBeforeMonth(y, m) + DaysInMonth(y, m)
    ensures m == 12 ==> DaysBeforeMonth(y, m) + DaysInMonth(y, m) == DaysInYear(y)
  {
  }

  /** Every valid timestamp falls on a day of Python's ordinal range. */
  lemma ValidOrdinals(s: Stamp)
    requires Valid(s)
    ensures 1 <= Ordinal(s) <= MaxOrdinal
  {
    DaysBeforeYearMonotone(1, s.year);
    DaysBeforeYearMonotone(s.year + 1, 10000);
    YearStep(s.year);
    MonthsFitYear(s.year, s.month);
  }

  /** What Python's `datetime(year, month, day, hour, minute)` accepts:
      MINYEAR = 1, MAXYEAR = 9999, a day within its month, and a time of
      day; anything else raises `ValueError`. */
  predicate Valid(s: Stamp) {
    && 1 <= s.year <= 9999
    && 1 <= s.month <= 12
    && 1 <= s.day <= DaysInMonth(s.year, s.month)
    && 0 <= s.hour < 24
    && 0 <= s.minute < 60
  }

  predicate SameDate(a: Stamp, b: Stamp) {
    a.year == b.year && a.month == b.month && a.day == b.day
  }

  /** `a` is strictly earlier than `b`. */
  predicate Before(a: Stamp, b: Stamp) {
    || a.year < b.year
    || (a.year == b.year && a.month < b.month)
    || (a.year == b.year && a.month == b.month && a.day < b.day)
    || (a.year == b.year && a.month == b.month && a.day == b.day && a.hour < b.hour)
    || (a.year == b.year && a.month == b.month && a.day == b.day && a.hour == b.hour && a.minute < b.minute)
  }

  lemma BeforeTransitive(a: Stamp, b: Stamp, c: Stamp)
    ensures Before(a, b) && Before(b, c) ==> Before(a, c)
  {
  }

  /** A whole-minute time `s` is at or after the reading `i`. */
  predicate AtOrAfter(s: Stamp, i: Instant) {
    Before(i.at, s) || (s == i.at && i.micros == 0)
  }

  /** A whole-minute time `s` is at or before the reading `i`. */
  predicate AtOrBefore(s: Stamp, i: Instant) {
    !Before(i.at, s)
  }

  /** The next calendar day at the same time of day. */
  function NextDay(s: Stamp): (r: Stamp)
    requires 1 <= s.month <= 12
    ensures Before(s, r) && 1 <= r.month <= 12
    ensures s.year <= r.year
    ensures r.hour == s.hour && r.minute == s.minute
    ensures Valid(s) && r.year <= 9999 ==> Valid(r)
    ensures 1 <= s.day <= DaysInMonth(s.year, s.month) ==>
              1 <= r.day <= DaysInMonth(r.year, r.month) && Ordinal(r) == Ordinal(s) + 1
  {
    MonthsFitYear(s.year, s.month);
    YearStep(s.year);
    if s.day < DaysInMonth(s.year, s.month) then s.(day := s.day + 1)
    else if s.month < 12 then s.(month := s.month + 1, day := 1)
    else s.(year := s.year + 1, month := 1, day := 1)
  }

  /** Wall-clock `s + timedelta(days=n)`: `n` calendar days later at the
      same time of day. */
  function AddDays(s: Stamp, n: nat): (r: Stamp)
    requires 1 <= s.month <= 12
    ensures n > 0 ==> Before(s, r)
    ensures 1 <= r.month <= 12
    ensures r.hour == s.hour && r.minute == s.minute
    ensures s.year <= r.year
    ensures Valid(s) && r.year <= 9999 ==> Valid(r)
    ensures 1 <= s.day <= DaysInMonth(s.year, s.month) ==>
              1 <= r.day <= DaysInMonth(r.year, r.month) && Ordinal(r) == Ordinal(s) + n
    decreases n
  {
    if n == 0 then s
    else
      var t := NextDay(s);
      var r := AddDays(t, n - 1);
      if n == 1 then r
      else BeforeTransitive(s, t, r); r
  }
}
