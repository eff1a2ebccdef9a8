/**
  UTC instants as chrono's `DateTime<Utc>` sees them: a proleptic Gregorian
  date plus the nanoseconds elapsed since midnight. Instants compare
  lexicographically (year, month, day, time of day), which for valid values
  is chronological order. The clock is never read here: every operation that
  needs "now" takes it as a parameter.
 */
module Time {
  import opened Common

  const NanosPerDay: int := 86_400_000_000_000

  /** The range of years chrono can represent (`NaiveDate::MIN` and `NaiveDate::MAX`). */
  const MinYear: int := -262_143
  const MaxYear: int := 262_142

  datatype DateTime = DateTime(year: int, month: int, day: int, nanos: int)

  /** Gregorian leap years; `%` is Euclidean, so the rule extends to year 0 and below. */
  predicate IsLeapYear(y: int) {
    y % 4 == 0 && (y % 100 != 0 || y % 400 == 0)
  }

  function DaysInMonth(y: int, m: int): (d: int)
    requires 1 <= m <= 12
    ensures 28 <= d <= 31
    ensures m == 2 <==> d < 30
    ensures d == 31 <==> m in {1, 3, 5, 7, 8, 10, 12}
  {
    if m == 2 then (if IsLeapYear(y) then 29 else 28)
    else if m == 4 || m == 6 || m == 9 || m == 11 then 30
    else 31
  }

  /** A calendar date that exists, at a time of day within that day. */
  predicate Valid(t: DateTime) {
    1 <= t.month <= 12 && 1 <= t.day <= DaysInMonth(t.year, t.month) && 0 <= t.nanos < NanosPerDay
  }

  predicate InYearRange(y: int) {
    MinYear <= y <= MaxYear
  }

  // ---------------------------------------------------------------------------
  // Order

  /** Day of month and time of day of `a` come no later than those of `b`. */
  predicate DayTimeLe(a: DateTime, b: DateTime) {
    a.day < b.day || (a.day == b.day && a.nanos <= b.nanos)
  }

  /** `a <= b` on `DateTime<Utc>`. */
  predicate Le(a: DateTime, b: DateTime) {
    a.year < b.year
    || (a.year == b.year && (a.month < b.month
    || (a.month == b.month && DayTimeLe(a, b))))
  }

  predicate Lt(a: DateTime, b: DateTime) {
    Le(a, b) && a != b
  }

  lemma LeTotalOrder(a: DateTime, b: DateTime, c: DateTime)
    ensures Le(a, a)
    ensures Le(a, b) || Le(b, a)
    ensures Le(a, b) && Le(b, a) ==> a == b
    ensures Le(a, b) && Le(b, c) ==> Le(a, c)
  {
  }

  // ---------------------------------------------------------------------------
  // Months as consecutive integers

  /** Months counted from January of year 0; consecutive months have consecutive indexes. */
  function MonthIndex(t: DateTime): int {
    12 * t.year + t.month - 1
  }

  function YearOfIndex(k: int): int { k / 12 }

  lemma YearOfIndexMonotone(a: int, b: int)
    requires a <= b
    ensures YearOfIndex(a) <= YearOfIndex(b)
  {
  }

  function MonthOfIndex(k: int): (m: int)
    ensures 1 <= m <= 12
  {
    k % 12 + 1
  }

  lemma IndexOfMonth(y: int, m: int)
    requires 1 <= m <= 12
    ensures YearOfIndex(12 * y + m - 1) == y && MonthOfIndex(12 * y + m - 1) == m
  {
    var k := 12 * y + m - 1;
    assert k == 12 * y + (m - 1) && 0 <= m - 1 < 12;
  }

  lemma IndexRoundTrip(k: int)
    ensures 12 * YearOfIndex(k) + MonthOfIndex(k) - 1 == k
  {
  }

  /**
    For valid instants, comparing by month index first and then by day and time
    of day is the same as comparing the instants.
   */
  lemma LeByMonthIndex(a: DateTime, b: DateTime)
    requires 1 <= a.month <= 12 && 1 <= b.month <= 12
    ensures Le(a, b) <==>
      MonthIndex(a) < MonthIndex(b) || (MonthIndex(a) == MonthIndex(b) && DayTimeLe(a, b))
  {
    if a.year < b.year {
      assert MonthIndex(a) < MonthIndex(b);
    } else if a.year > b.year {
      assert MonthIndex(a) > MonthIndex(b);
    }
  }

  // ---------------------------------------------------------------------------
  // Field replacement (`with_year`, `with_month`) and construction

  /** `with_year(y)`: None when the year is out of range or the day does not exist in it. */
  function WithYear(t: DateTime, y: int): (r: Option<DateTime>)
    requires Valid(t)
    ensures r.Some? <==> InYearRange(y) && t.day <= DaysInMonth(y, t.month)
    ensures r.Some? ==> Valid(r.value) && r.value == t.(year := y)
  {
    if InYearRange(y) && t.day <= DaysInMonth(y, t.month) then Some(t.(year := y)) else None
  }

  /** `with_month(m)`: None when `m` is not a month or the day does not exist in it. */
  function WithMonth(t: DateTime, m: int): (r: Option<DateTime>)
    requires Valid(t)
    ensures r.Some? <==> 1 <= m <= 12 && t.day <= DaysInMonth(t.year, m)
    ensures r.Some? ==> Valid(r.value) && r.value == t.(month := m)
  {
    if 1 <= m <= 12 && t.day <= DaysInMonth(t.year, m) then Some(t.(month := m)) else None
  }

  /** `Utc.with_ymd_and_hms(y, m, d, 0, 0, 0).single()`: midnight of that date, if it exists. */
  function MidnightOf(y: int, m: int, d: int): (r: Option<DateTime>)
    ensures r.Some? <==> InYearRange(y) && 1 <= m <= 12 && 1 <= d <= DaysInMonth(y, m)
    ensures r.Some? ==> Valid(r.value) && r.value == DateTime(y, m, d, 0)
  {
    if InYearRange(y) && 1 <= m <= 12 && 1 <= d <= DaysInMonth(y, m) then Some(DateTime(y, m, d, 0))
    else None
  }

  // ---------------------------------------------------------------------------
  // Subtracting whole days (`t - Duration::days(n)`)

  function PrevDay(t: DateTime): (r: DateTime)
    requires Valid(t)
    ensures Valid(r) && Lt(r, t) && r.nanos == t.nanos
  {
    if t.day > 1 then t.(day := t.day - 1)
    else if t.month > 1 then t.(month := t.month - 1, day := DaysInMonth(t.year, t.month - 1))
    else t.(year := t.year - 1, month := 12, day := 31)
  }

  /** The same time of day, `n` calendar days earlier. */
  function SubDays(t: DateTime, n: nat): (r: DateTime)
    requires Valid(t)
    ensures Valid(r) && Le(r, t) && r.nanos == t.nanos
    ensures n > 0 ==> Lt(r, t)
    decreases n
  {
    if n == 0 then t else
      var r := SubDays(PrevDay(t), n - 1);
      LeTotalOrder(r, PrevDay(t), t);
      r
  }

  /** Going back `a + b` days is going back `a`, then `b`. */
  lemma {:induction false} SubDaysAdd(t: DateTime, a: nat, b: nat)
    requires Valid(t)
    ensures SubDays(t, a + b) == SubDays(SubDays(t, a), b)
    decreases a
  {
    if a > 0 {
      SubDaysAdd(PrevDay(t), a - 1, b);
    }
  }

  /** Within a month, going back `n` days only lowers the day. */
  lemma {:induction false} SubDaysWithinMonth(t: DateTime, n: nat)
    requires Valid(t) && n < t.day
    ensures SubDays(t, n) == t.(day := t.day - n)
    decreases n
  {
    if n > 0 {
      SubDaysWithinMonth(PrevDay(t), n - 1);
    }
  }

  // ---------------------------------------------------------------------------
  // Formatting (`format("%Y")`, `%m`, `%d`, `%H%M%S`)

  /** `%Y`: four digits for years 0 to 9999, otherwise a sign and at least four digits. */
  function YearStr(y: int): (s: string)
    ensures |s| >= 4
  {
    if 0 <= y <= 9999 then PadTo(y, 4)
    else if y < 0 then "-" + PadTo(-y, 4)
    else "+" + PadTo(y, 4)
  }

  /** `format("%Y-%m-%d")`: the calendar day, used to group a user's actions. */
  function DateStr(t: DateTime): string
    requires Valid(t)
  {
    YearStr(t.year) + "-" + PadTo(t.month, 2) + "-" + PadTo(t.day, 2)
  }

  /** `format("%Y%m%d_%H%M%S")`. */
  function CompactStampStr(t: DateTime): string
    requires Valid(t)
  {
    var secs := t.nanos / 1_000_000_000;
    YearStr(t.year) + PadTo(t.month, 2) + PadTo(t.day, 2) + "_"
      + PadTo(secs / 3600, 2) + PadTo(secs / 60 % 60, 2) + PadTo(secs % 60, 2)
  }

  /** The fraction of a second as chrono writes it automatically: none, or 3, 6 or 9 digits. */
  function FracStr(f: nat): (s: string)
    requires f < 1_000_000_000
    ensures f == 0 <==> s == []
    ensures s != [] ==> s[0] == '.' && AllDigits(s[1..])
  {
    if f == 0 then ""
    else if f % 1_000_000 == 0 then "." + PadTo(f / 1_000_000, 3)
    else if f % 1000 == 0 then "." + PadTo(f / 1000, 6)
    else "." + PadTo(f, 9)
  }

  /** `to_rfc3339()` on a UTC instant, e.g. "2024-01-15T12:00:00+00:00". */
  function Rfc3339(t: DateTime): string
    requires Valid(t)
  {
    var secs := t.nanos / 1_000_000_000;
    DateStr(t) + "T" + PadTo(secs / 3600, 2) + ":" + PadTo(secs / 60 % 60, 2) + ":" + PadTo(secs % 60, 2)
      + FracStr(t.nanos % 1_000_000_000) + "+00:00"
  }
}
