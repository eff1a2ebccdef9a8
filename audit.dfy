/**
  The audit-log store. Actions are kept as JSON arrays in rows of monthly
  tables named `audit_logs_<year>_<month>`. For each user and day one row is
  open: a new action is appended to it until the row holds 50 actions or its
  JSON would exceed 1 MiB, and then a new row is started. Range queries read
  the monthly tables the range touches, and a retention rule drops tables
  whose month began more than 90 days ago.

  The whole database is a `Db` value: every operation takes the database and
  returns the new one. The clock, fresh row ids and the length of the JSON
  text of an action list are parameters.
 */
module Audit {
  import opened Common
  import opened Time
  import opened Models
  import opened Store
  import opened Errors
  import Sorting

  const MaxActionsPerRow: int := 50
  const MaxRowJsonBytes: int := 1_048_576
  const RetentionDays: nat := 90

  // ---------------------------------------------------------------------------
  // Table names

  /** `format!("audit_logs_{}_{:02}", year, month)`. */
  function TableName(year: int, month: nat): string {
    "audit_logs_" + IntStr(year) + "_" + PadTo(month, 2)
  }

  /** The table that holds the month of `t`. */
  function TableOf(t: DateTime): string
    requires 1 <= t.month <= 12
  {
    TableName(t.year, t.month)
  }

  /** The table of the month with index `k` (see `Time.MonthIndex`). */
  function TableOfIndex(k: int): string {
    TableName(YearOfIndex(k), MonthOfIndex(k))
  }

  /** `parse_table_date`: split on '_', read parts 2 and 3 as year and month, midnight on the 1st. */
  function ParseTableDate(name: string): (d: Option<DateTime>)
    ensures d.Some? ==> Valid(d.value) && InYearRange(d.value.year) && d.value.day == 1 && d.value.nanos == 0
  {
    var parts := Split(name, '_');
    if |parts| >= 4 then
      match (ParseI32(parts[2]), ParseU32(parts[3]))
      case (Some(year), Some(month)) => MidnightOf(year, month, 1)
      case _ => None
    else None
  }

  lemma SplitNone(d: string)
    requires '_' !in d
    ensures Split(d, '_') == [d]
  {
  }

  lemma SplitFour(a: string, b: string, c: string, d: string)
    requires '_' !in a && '_' !in b && '_' !in c && '_' !in d
    ensures Split(a + "_" + b + "_" + c + "_" + d, '_') == [a, b, c, d]
  {
    var cd := c + ['_'] + d;
    var bcd := b + ['_'] + cd;
    var abcd := a + ['_'] + bcd;
    SplitNone(d);
    SplitAt(c, '_', d);
    assert Split(cd, '_') == [c, d];
    SplitAt(b, '_', cd);
    assert Split(bcd, '_') == [b, c, d];
    SplitAt(a, '_', bcd);
    assert Split(abcd, '_') == [a, b, c, d];
    ConcatSeven(a, b, c, d);
  }

  lemma ConcatSeven(a: string, b: string, c: string, d: string)
    ensures a + "_" + b + "_" + c + "_" + d == a + ['_'] + (b + ['_'] + (c + ['_'] + d))
  {
  }

  lemma NoSeparatorInDigits(s: string)
    requires AllDigits(s)
    ensures '_' !in s
  {
  }

  lemma SplitTableName(year: int, month: nat)
    ensures Split(TableName(year, month), '_') == ["audit", "logs", IntStr(year), PadTo(month, 2)]
  {
    var y, m := IntStr(year), PadTo(month, 2);
    NoSeparatorInDigits(m);
    SplitFour("audit", "logs", y, m);
    TablePrefix(y, m);
  }

  lemma TablePrefix(y: string, m: string)
    ensures "audit_logs_" + y + "_" + m == "audit" + "_" + "logs" + "_" + y + "_" + m
  {
    assert "audit_logs_" == "audit" + "_" + "logs" + "_";
  }

  /** Parsing a table name gives back midnight on the first day of its month. */
  lemma {:induction false} ParseTableNameRoundTrip(year: int, month: nat)
    requires InYearRange(year) && 1 <= month <= 12
    ensures ParseTableDate(TableName(year, month)) == Some(DateTime(year, month, 1, 0))
  {
    SplitTableName(year, month);
    ParseI32OfIntStr(year);
    ParseU32OfPadTo(month, 2);
  }

  /** Distinct months have distinct tables. */
  lemma TableNameInjective(y1: int, m1: nat, y2: int, m2: nat)
    requires InYearRange(y1) && 1 <= m1 <= 12 && InYearRange(y2) && 1 <= m2 <= 12
    ensures TableName(y1, m1) == TableName(y2, m2) <==> y1 == y2 && m1 == m2
  {
    ParseTableNameRoundTrip(y1, m1);
    ParseTableNameRoundTrip(y2, m2);
  }

  lemma TableOfIndexInjective(k1: int, k2: int)
    requires InYearRange(YearOfIndex(k1)) && InYearRange(YearOfIndex(k2))
    ensures TableOfIndex(k1) == TableOfIndex(k2) <==> k1 == k2
  {
    TableNameInjective(YearOfIndex(k1), MonthOfIndex(k1), YearOfIndex(k2), MonthOfIndex(k2));
    IndexRoundTrip(k1);
    IndexRoundTrip(k2);
  }

  lemma TableOfIsTableOfIndex(t: DateTime)
    requires 1 <= t.month <= 12
    ensures TableOf(t) == TableOfIndex(MonthIndex(t))
  {
    IndexOfMonth(t.year, t.month);
  }

  // ---------------------------------------------------------------------------
  // The month walk of `get_table_names_for_range`, in closed form

  /**
    The instant `j` calendar months after `t` with the same day and time of
    day; it need not exist (the 31st of a 30-day month).
   */
  function ShiftMonths(t: DateTime, j: int): DateTime {
    DateTime(YearOfIndex(MonthIndex(t) + j), MonthOfIndex(MonthIndex(t) + j), t.day, t.nanos)
  }

  /** Stepping from month `j` to month `j + 1` after `t` succeeds: the day exists there. */
  predicate StepOk(t: DateTime, j: int) {
    var n := ShiftMonths(t, j + 1);
    InYearRange(n.year) && t.day <= DaysInMonth(n.year, n.month)
  }

  /**
    How many times the loop runs: once for every month from start's month on
    whose shifted instant is not after `end`.
   */
  function WalkCount(start: DateTime, end: DateTime): nat {
    var d := MonthIndex(end) - MonthIndex(start);
    if d < 0 then 0 else d + (if DayTimeLe(start, end) then 1 else 0)
  }

  /** The loop runs without panicking: every step it takes lands on an existing day. */
  predicate PanicFree(start: DateTime, end: DateTime) {
    forall j :: 0 <= j < WalkCount(start, end) ==> StepOk(start, j)
  }

  /** The tables of `n` consecutive months, the first with index `base`. */
  function TablesFrom(base: int, n: nat): (names: seq<string>)
    ensures |names| == n
    ensures forall i :: 0 <= i < n ==> names[i] == TableOfIndex(base + i)
  {
    seq(n, i => TableOfIndex(base + i))
  }

  /** The tables of the first `n` months from start's. */
  function MonthTables(start: DateTime, n: nat): (names: seq<string>)
    ensures |names| == n
  {
    TablesFrom(MonthIndex(start), n)
  }

  /** A month's table is among `n` consecutive months' tables exactly when the month is among them. */
  lemma InTablesFrom(base: int, n: nat, k: int)
    requires InYearRange(YearOfIndex(base)) && InYearRange(YearOfIndex(base + n))
    requires InYearRange(YearOfIndex(k))
    ensures TableOfIndex(k) in TablesFrom(base, n) <==> base <= k < base + n
  {
    var names := TablesFrom(base, n);
    if base <= k < base + n {
      assert names[k - base] == TableOfIndex(k);
    } else {
      OtherMonthsDiffer(base, n, k);
      forall i | 0 <= i < n ensures names[i] != TableOfIndex(k) {
        assert names[i] == TableOfIndex(base + i);
      }
    }
  }

  /** A month outside the `n` months from `base` has a table name none of theirs equals. */
  lemma OtherMonthsDiffer(base: int, n: nat, k: int)
    requires InYearRange(YearOfIndex(base)) && InYearRange(YearOfIndex(base + n))
    requires InYearRange(YearOfIndex(k)) && !(base <= k < base + n)
    ensures forall j :: base <= j < base + n ==> TableOfIndex(j) != TableOfIndex(k)
  {
    forall j | base <= j < base + n ensures TableOfIndex(j) != TableOfIndex(k) {
      YearOfIndexMonotone(base, j);
      YearOfIndexMonotone(j, base + n);
      TableOfIndexInjective(j, k);
    }
  }

  /** Shifting `j` months stays before `end` exactly while `j` is below WalkCount. */
  lemma ShiftLeEnd(start: DateTime, end: DateTime, j: nat)
    requires Valid(start) && Valid(end)
    ensures Le(ShiftMonths(start, j), end) <==> j < WalkCount(start, end)
  {
    var s := ShiftMonths(start, j);
    IndexRoundTrip(MonthIndex(start) + j);
    assert MonthIndex(s) == MonthIndex(start) + j;
    LeByMonthIndex(s, end);
  }

  /** One step of the loop moves to the next shifted month, or fails as StepOk says. */
  lemma NextMonthIsShift(start: DateTime, j: nat)
    requires Valid(start) && Valid(ShiftMonths(start, j)) && InYearRange(ShiftMonths(start, j).year)
    ensures NextMonth(ShiftMonths(start, j)).Some? <==> StepOk(start, j)
    ensures NextMonth(ShiftMonths(start, j)).Some? ==>
      NextMonth(ShiftMonths(start, j)).value == ShiftMonths(start, j + 1)
  {
    var c := ShiftMonths(start, j);
    var k := MonthIndex(start) + j;
    IndexRoundTrip(k);
    assert MonthIndex(c) == k;
    if c.month == 12 {
      assert 12 * (c.year + 1) + 1 - 1 == k + 1;
      IndexOfMonth(c.year + 1, 1);
    } else {
      assert 12 * c.year + (c.month + 1) - 1 == k + 1;
      IndexOfMonth(c.year, c.month + 1);
    }
  }

  /** chrono's month step: `with_month(month + 1)`, or in December `with_year(year + 1)` then `with_month(1)`. */
  function NextMonth(t: DateTime): (r: Option<DateTime>)
    requires Valid(t)
    ensures r.Some? ==> Valid(r.value)
  {
    if t.month == 12 then
      match WithYear(t, t.year + 1)
      case None => None
      case Some(u) => WithMonth(u, 1)
    else WithMonth(t, t.month + 1)
  }

  /**
    `get_table_names_for_range`: starting at `start`, record the table of
    `current` and advance it one calendar month, keeping its day and time, for
    as long as `current <= end`. Result None means the advance panicked.
   */
  method GetTableNamesForRange(start: DateTime, end: DateTime) returns (r: Option<seq<string>>)
    requires Valid(start) && Valid(end) && InYearRange(start.year) && InYearRange(end.year)
    ensures r.Some? <==> PanicFree(start, end)
    ensures r.Some? ==> r.value == MonthTables(start, WalkCount(start, end))
  {
    var names: seq<string> := [];
    var current := start;
    ghost var j: nat := 0;
    ShiftZero(start);
    while Le(current, end)
      invariant current == ShiftMonths(start, j) && Valid(current) && InYearRange(current.year)
      invariant j <= WalkCount(start, end)
      invariant names == MonthTables(start, j)
      invariant forall i :: 0 <= i < j ==> StepOk(start, i)
      decreases WalkCount(start, end) - j
    {
      ShiftLeEnd(start, end, j);
      var name := TableName(current.year, current.month);
      NextTableIsNew(start, end, j);
      if name !in names {
        names := names + [name];
      }
      NextMonthIsShift(start, j);
      var next := NextMonth(current);
      if next.None? {
        return None;
      }
      current := next.value;
      j := j + 1;
    }
    ShiftLeEnd(start, end, j);
    r := Some(names);
  }

  lemma ShiftZero(start: DateTime)
    requires Valid(start)
    ensures ShiftMonths(start, 0) == start
  {
    IndexOfMonth(start.year, start.month);
  }

  /** The table visited at step `j` is the next month's and has not been recorded before. */
  lemma NextTableIsNew(start: DateTime, end: DateTime, j: nat)
    requires Valid(start) && Valid(end) && InYearRange(start.year) && InYearRange(end.year)
    requires j < WalkCount(start, end)
    ensures TableName(ShiftMonths(start, j).year, ShiftMonths(start, j).month) !in MonthTables(start, j)
    ensures MonthTables(start, j) + [TableName(ShiftMonths(start, j).year, ShiftMonths(start, j).month)]
      == MonthTables(start, j + 1)
  {
    var k := MonthIndex(start) + j;
    assert TableName(ShiftMonths(start, j).year, ShiftMonths(start, j).month) == TableOfIndex(k);
    MonthTablesYears(start, end, 0);
    MonthTablesYears(start, end, j);
    InTablesFrom(MonthIndex(start), j, k);
  }

  /** Every month the walk visits lies in the representable year range. */
  lemma MonthTablesYears(start: DateTime, end: DateTime, i: nat)
    requires Valid(start) && Valid(end) && InYearRange(start.year) && InYearRange(end.year)
    requires i < WalkCount(start, end)
    ensures InYearRange(YearOfIndex(MonthIndex(start) + i))
  {
    var k := MonthIndex(start) + i;
    assert MonthIndex(start) <= k <= MonthIndex(end);
    IndexOfMonth(start.year, start.month);
    IndexOfMonth(end.year, end.month);
  }

  /** The range is empty when start is after end, and otherwise begins with start's month. */
  lemma WalkStartsAtStartMonth(start: DateTime, end: DateTime)
    requires Valid(start) && Valid(end)
    ensures Lt(end, start) ==> WalkCount(start, end) == 0 && MonthTables(start, 0) == []
    ensures Le(start, end) ==> WalkCount(start, end) >= 1 && MonthTables(start, WalkCount(start, end))[0] == TableOf(start)
  {
    ShiftZero(start);
    ShiftLeEnd(start, end, 0);
    TableOfIsTableOfIndex(start);
  }

  /** Midnight on the first day of the month with index `k`. */
  function FirstOfMonthIndex(k: int): DateTime {
    DateTime(YearOfIndex(k), MonthOfIndex(k), 1, 0)
  }

  lemma ParseTableOfIndex(k: int)
    requires InYearRange(YearOfIndex(k))
    ensures ParseTableDate(TableOfIndex(k)) == Some(FirstOfMonthIndex(k))
  {
    ParseTableNameRoundTrip(YearOfIndex(k), MonthOfIndex(k));
  }

  lemma FirstOfMonthIndexMonotone(a: int, b: int)
    requires a < b
    ensures Lt(FirstOfMonthIndex(a), FirstOfMonthIndex(b))
  {
    IndexRoundTrip(a);
    IndexRoundTrip(b);
    LeByMonthIndex(FirstOfMonthIndex(a), FirstOfMonthIndex(b));
  }

  /** The listed tables are pairwise distinct: none repeats an earlier one. */
  lemma WalkDistinct(start: DateTime, end: DateTime, k: nat)
    requires Valid(start) && Valid(end) && InYearRange(start.year) && InYearRange(end.year)
    requires k < WalkCount(start, end)
    ensures MonthTables(start, WalkCount(start, end))[k] !in MonthTables(start, WalkCount(start, end))[..k]
  {
    var base, names := MonthIndex(start), MonthTables(start, WalkCount(start, end));
    assert InYearRange(YearOfIndex(base)) && InYearRange(YearOfIndex(base + k)) by {
      MonthTablesYears(start, end, 0);
      MonthTablesYears(start, end, k);
    }
    InTablesFrom(base, k, base + k);
    assert names[k] == TableOfIndex(base + k);
    TablesFromPrefix(base, WalkCount(start, end), k);
  }

  lemma TablesFromPrefix(base: int, n: nat, k: nat)
    requires k <= n
    ensures TablesFrom(base, n)[..k] == TablesFrom(base, k)
  {
  }

  /**
    The end month is listed exactly when end's day and time of day are not
    earlier than start's: otherwise the walk steps past `end` before reaching
    end's month.
   */
  lemma WalkIncludesEndMonthIff(start: DateTime, end: DateTime)
    requires Valid(start) && Valid(end) && InYearRange(start.year) && InYearRange(end.year)
    requires Le(start, end)
    ensures TableOf(end) in MonthTables(start, WalkCount(start, end)) <==> DayTimeLe(start, end)
  {
    if DayTimeLe(start, end) {
      EndMonthListed(start, end);
    } else {
      EndMonthSkipped(start, end);
    }
  }

  lemma EndMonthListed(start: DateTime, end: DateTime)
    requires Valid(start) && Valid(end) && Le(start, end) && DayTimeLe(start, end)
    ensures TableOf(end) in MonthTables(start, WalkCount(start, end))
  {
    var base, k := MonthIndex(start), MonthIndex(end);
    LeByMonthIndex(start, end);
    assert base <= k;
    var n := WalkCount(start, end);
    assert n == k - base + 1;
    var names := TablesFrom(base, n);
    assert names[k - base] == TableOfIndex(k);
    TableOfIsTableOfIndex(end);
  }

  lemma EndMonthSkipped(start: DateTime, end: DateTime)
    requires Valid(start) && Valid(end) && InYearRange(start.year) && InYearRange(end.year)
    requires Le(start, end) && !DayTimeLe(start, end)
    ensures TableOf(end) !in MonthTables(start, WalkCount(start, end))
  {
    var base, k := MonthIndex(start), MonthIndex(end);
    var n := WalkCount(start, end);
    assert n == k - base by {
      LeByMonthIndex(start, end);
    }
    assert InYearRange(YearOfIndex(base)) && InYearRange(YearOfIndex(k)) by {
      IndexOfMonth(start.year, start.month);
      IndexOfMonth(end.year, end.month);
    }
    InTablesFrom(base, n, k);
    assert TableOf(end) == TableOfIndex(k) by {
      TableOfIsTableOfIndex(end);
    }
  }

  /** Starting on or before the 28th the walk never panics (short of the last representable year). */
  lemma WalkPanicFreeForEarlyDays(start: DateTime, end: DateTime)
    requires Valid(start) && Valid(end) && InYearRange(start.year) && end.year < MaxYear
    requires start.day <= 28
    ensures PanicFree(start, end)
  {
    forall j | 0 <= j < WalkCount(start, end) ensures StepOk(start, j) {
      var k := MonthIndex(start) + j + 1;
      IndexOfMonth(start.year, start.month);
      IndexOfMonth(end.year, end.month);
      assert k <= MonthIndex(end) + 1;
      assert YearOfIndex(k) <= end.year + 1;
    }
  }

  /** Start on Jan 15 at noon, end on Feb 10: only January's table is listed. */
  lemma WalkSkipsEndMonthExample()
    ensures var start, end := DateTime(2024, 1, 15, 43_200_000_000_000), DateTime(2024, 2, 10, 0);
      PanicFree(start, end) && MonthTables(start, WalkCount(start, end)) == [TableName(2024, 1)]
      && TableOf(end) !in MonthTables(start, WalkCount(start, end))
  {
    var start, end := DateTime(2024, 1, 15, 43_200_000_000_000), DateTime(2024, 2, 10, 0);
    assert WalkCount(start, end) == 1;
    WalkPanicFreeForEarlyDays(start, end);
    WalkIncludesEndMonthIff(start, end);
    IndexOfMonth(2024, 1);
  }

  /** Start on Mar 31, end on Apr 1: the first step asks for Apr 31 and panics. */
  lemma WalkPanicsExample()
    ensures !PanicFree(DateTime(2024, 3, 31, 0), DateTime(2024, 4, 1, 0))
  {
    var start, end := DateTime(2024, 3, 31, 0), DateTime(2024, 4, 1, 0);
    assert WalkCount(start, end) == 1;
    IndexOfMonth(2024, 4);
    assert !StepOk(start, 0);
  }

  /** Even a range of one instant panics when it lies on Jan 31: the loop still steps once. */
  lemma WalkPanicsOnSingleInstant()
    ensures !PanicFree(DateTime(2024, 1, 31, 0), DateTime(2024, 1, 31, 0))
  {
    var t := DateTime(2024, 1, 31, 0);
    assert WalkCount(t, t) == 1;
    IndexOfMonth(2024, 2);
    assert !StepOk(t, 0);
  }

  // ---------------------------------------------------------------------------
  // Corrected month range

  /** Every month from start's to end's, inclusive (empty when start's month is after end's). */
  function MonthSpan(start: DateTime, end: DateTime): (names: seq<string>)
    ensures MonthIndex(start) <= MonthIndex(end) ==> |names| == MonthIndex(end) - MonthIndex(start) + 1
  {
    var d := MonthIndex(end) - MonthIndex(start);
    MonthTables(start, if d < 0 then 0 else d + 1)
  }

  /** The corrected range lists the table of every instant between start and end. */
  lemma MonthSpanCovers(start: DateTime, end: DateTime, t: DateTime)
    requires Valid(start) && Valid(end) && 1 <= t.month <= 12
    requires Le(start, t) && Le(t, end)
    ensures TableOf(t) in MonthSpan(start, end)
  {
    LeByMonthIndex(start, t);
    LeByMonthIndex(t, end);
    TableOfIsTableOfIndex(t);
    var k := MonthIndex(t);
    assert MonthSpan(start, end)[k - MonthIndex(start)] == TableOfIndex(k);
  }
}
