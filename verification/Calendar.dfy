/** The build date counted from the epoch and the weekday formula of the calendar panel: two Gregorian
    computations that agree on every day. */
module Calendar {
  const SECS_PER_DAY: nat := 86400
  const U32: nat := 0x1_0000_0000

  predicate IsLeap(y: nat) {
    y % 4 == 0 && (y % 100 != 0 || y % 400 == 0)
  }

  function DaysInMonth(y: nat, m: nat): nat {
    match m
    case 2 => if IsLeap(y) then 29 else 28
    case 4 => 30
    case 6 => 30
    case 9 => 30
    case 11 => 30
    case _ => if 1 <= m <= 12 then 31 else 30
  }

  function DaysInYear(y: nat): nat {
    if IsLeap(y) then 366 else 365
  }

  /** The month lengths of the build script. */
  function MonthTable(leap: bool): (r: seq<nat>)
    ensures |r| == 12
  {
    if leap then [31, 29, 31, 30, 31, 30, 31, 31, 30, 31, 30, 31] else [31, 28, 31, 30, 31, 30, 31, 31, 30, 31, 30, 31]
  }

  // ----- counting days -----

  predicate ValidDate(y: nat, m: nat, d: nat) {
    1970 <= y && 1 <= m <= 12 && 1 <= d <= DaysInMonth(y, m)
  }

  /** Days from the first of January 1970 to the first of January of `y`. */
  function YearStart(y: nat): nat
    requires y >= 1970
  {
    if y == 1970 then 0 else YearStart(y - 1) + DaysInYear(y - 1)
  }

  /** Days of a year before month `m`. */
  function MonthStart(y: nat, m: nat): nat
    requires 1 <= m
  {
    if m == 1 then 0 else MonthStart(y, m - 1) + DaysInMonth(y, m - 1)
  }

  function DayNumber(y: nat, m: nat, d: nat): nat
    requires ValidDate(y, m, d)
  {
    YearStart(y) + MonthStart(y, m) + d - 1
  }

  /** The cumulative days of the twelve months. */
  function Cumulative(leap: bool, m: nat): nat
    requires 1 <= m <= 13
  {
    var extra := if leap && m > 2 then 1 else 0;
    [0, 31, 59, 90, 120, 151, 181, 212, 243, 273, 304, 334, 365][m - 1] + extra
  }

  lemma {:induction false} MonthStarts(y: nat, m: nat)
    requires 1 <= m <= 13
    ensures MonthStart(y, m) == Cumulative(IsLeap(y), m)
    decreases m
  {
    if m > 1 {
      MonthStarts(y, m - 1);
      CumulativeNext(y, m - 1);
    }
  }

  lemma CumulativeNext(y: nat, m: nat)
    requires 1 <= m <= 12
    ensures Cumulative(IsLeap(y), m + 1) == Cumulative(IsLeap(y), m) + DaysInMonth(y, m)
    ensures MonthTable(IsLeap(y))[m - 1] == DaysInMonth(y, m)
  {
    hide IsLeap;
  }

  /** The month lengths of the panel and of the build script are the same. */
  lemma TablesAgree(y: nat, m: nat)
    requires 1 <= m <= 12
    ensures MonthTable(IsLeap(y))[m - 1] == DaysInMonth(y, m) && MonthStart(y, 13) == DaysInYear(y)
  {
    CumulativeNext(y, m);
    MonthStarts(y, 13);
  }

  // ----- dates and day numbers are in bijection -----

  lemma {:induction false} YearStartsGrow(y: nat, z: nat)
    requires 1970 <= y < z
    ensures YearStart(y) + DaysInYear(y) <= YearStart(z)
    decreases z
  {
    hide IsLeap;
    if z > y + 1 { YearStartsGrow(y, z - 1); }
  }

  lemma {:induction false} MonthStartsGrow(y: nat, m: nat, n: nat)
    requires 1 <= m < n
    ensures MonthStart(y, m) + DaysInMonth(y, m) <= MonthStart(y, n)
    decreases n
  {
    hide IsLeap;
    if n > m + 1 { MonthStartsGrow(y, m, n - 1); }
  }

  /** A day number is inside its year. */
  lemma InYear(y: nat, m: nat, d: nat)
    requires ValidDate(y, m, d)
    ensures YearStart(y) <= DayNumber(y, m, d) < YearStart(y) + DaysInYear(y)
  {
    TablesAgree(y, m);
    MonthStartsGrow(y, m, 13);
  }

  /** Later dates have larger numbers; so no two dates share one. */
  lemma Ordered(y: nat, m: nat, d: nat, y1: nat, m1: nat, d1: nat)
    requires ValidDate(y, m, d) && ValidDate(y1, m1, d1)
    requires y < y1 || (y == y1 && (m < m1 || (m == m1 && d < d1)))
    ensures DayNumber(y, m, d) < DayNumber(y1, m1, d1)
  {
    hide IsLeap, DaysInMonth, YearStart, MonthStart;
    InYear(y, m, d);
    InYear(y1, m1, d1);
    if y < y1 { YearStartsGrow(y, y1); }
    else if m < m1 { MonthStartsGrow(y, m, m1); }
  }

  lemma Unique(y: nat, m: nat, d: nat, y1: nat, m1: nat, d1: nat)
    requires ValidDate(y, m, d) && ValidDate(y1, m1, d1) && DayNumber(y, m, d) == DayNumber(y1, m1, d1)
    ensures y == y1 && m == m1 && d == d1
  {
    hide IsLeap, DaysInMonth, YearStart, MonthStart, DayNumber, ValidDate;
    if y < y1 || (y == y1 && (m < m1 || (m == m1 && d < d1))) {
      Ordered(y, m, d, y1, m1, d1);
    } else if y1 < y || (y == y1 && (m1 < m || (m == m1 && d1 < d))) {
      Ordered(y1, m1, d1, y, m, d);
    }
  }

  /** `current_date`: the valid date whose number is the day count, which the code keeps in 32 bits. */
  method CurrentDate(secs: nat) returns (year: nat, month: nat, day: nat)
    ensures ValidDate(year, month, day) && DayNumber(year, month, day) == secs / SECS_PER_DAY % U32
  {
    var days: nat := secs / SECS_PER_DAY % U32;
    ghost var total := days;
    year := 1970;
    hide IsLeap;
    while true
      invariant year >= 1970 && YearStart(year) + days == total
      decreases days
    {
      var dy := if IsLeap(year) then 366 else 365;
      if days < dy { break; }
      days := days - dy;
      year := year + 1;
    }
    var months := MonthTable(IsLeap(year));
    month := 1;
    ghost var inYear := days;
    TablesAgree(year, 1);
    hide MonthTable;
    while month <= 12
      invariant 1 <= month <= 13 && MonthStart(year, month) + days == inYear
      decreases 13 - month
    {
      TablesAgree(year, month);
      if days < months[month - 1] { break; }
      days := days - months[month - 1];
      month := month + 1;
    }
    day := days + 1;
  }

  // ----- the weekday -----

  const T: seq<nat> := [0, 3, 2, 5, 0, 3, 5, 1, 4, 6, 2, 4]

  /** Leap days up to the end of year `y`. */
  function LeapDays(y: nat): int {
    y / 4 - y / 100 + y / 400
  }

  function DowSum(y: nat, m: nat, d: nat): int
    requires 1 <= y && 1 <= m <= 12
  {
    var y1 := if m < 3 then y - 1 else y;
    y1 + LeapDays(y1) + T[m - 1] + d
  }

  /** `dow`: 0 is Sunday. */
  function Dow(y: nat, m: nat, d: nat): (r: int)
    requires 1 <= y && 1 <= m <= 12
    ensures 0 <= r < 7
  {
    DowSum(y, m, d) % 7
  }

  lemma LeapDaysNext(y: nat)
    requires y >= 1
    ensures LeapDays(y) == LeapDays(y - 1) + if IsLeap(y) then 1 else 0
  {
    Quotient(y, 4);
    Quotient(y, 100);
    Quotient(y, 400);
    Multiples(y);
  }

  lemma Quotient(y: nat, n: nat)
    requires y >= 1 && n >= 2
    ensures y / n == (y - 1) / n + if y % n == 0 then 1 else 0
  {
    var q, r := y / n, y % n;
    assert y == n * q + r;
    if r == 0 {
      assert y - 1 == n * (q - 1) + (n - 1);
      QuotientIs(y - 1, n, q - 1, n - 1);
    } else {
      assert y - 1 == n * q + (r - 1);
      QuotientIs(y - 1, n, q, r - 1);
    }
  }

  lemma QuotientIs(x: int, n: nat, q: int, r: int)
    requires n > 0 && x == n * q + r && 0 <= r < n
    ensures x / n == q
  {
    var q1, r1 := x / n, x % n;
    assert n * q + r == n * q1 + r1;
    if q < q1 { Product(n, q + 1, q1); }
    if q1 < q { Product(n, q1 + 1, q); }
  }

  lemma Product(n: nat, a: int, b: int)
    requires a <= b
    ensures n * a <= n * b && n * a == n * (a - 1) + n
  {
  }

  lemma Multiples(y: nat)
    ensures y % 400 == 0 ==> y % 100 == 0
    ensures y % 100 == 0 ==> y % 4 == 0
  {
    if y % 400 == 0 { NoRemainder(y, 100, 4 * (y / 400)); }
    if y % 100 == 0 { NoRemainder(y, 4, 25 * (y / 100)); }
  }

  lemma NoRemainder(x: nat, n: nat, q: nat)
    requires n > 0 && x == n * q
    ensures x % n == 0
  {
    QuotientIs(x, n, q, 0);
  }

  lemma {:induction false} YearStartClosed(y: nat)
    requires y >= 1970
    ensures YearStart(y) == 365 * (y - 1970) + LeapDays(y - 1) - 477
    decreases y
  {
    if y > 1970 {
      YearStartClosed(y - 1);
      LeapDaysNext(y - 1);
    }
  }

  /** How the weekday sum and the day number differ: by a multiple of seven. */
  lemma SumAndNumber(y: nat, m: nat, d: nat) returns (q: int)
    requires ValidDate(y, m, d)
    ensures DayNumber(y, m, d) + 4 == DowSum(y, m, d) + 7 * q
  {
    YearStartClosed(y);
    LeapDaysNext(y);
    MonthStarts(y, m);
    hide IsLeap, LeapDays, YearStart, MonthStart;
    var c := Cumulative(IsLeap(y), m);
    if m < 3 {
      q := 52 * y - 102789 + (c - T[m - 1]) / 7;
    } else {
      var leap := if IsLeap(y) then 1 else 0;
      q := 52 * y - 102781 + (c - leap - 57 - T[m - 1]) / 7;
    }
  }

  /** The weekday formula agrees with counting days, over all leap-year rules: 1970 began on a Thursday. */
  lemma DowCounts(y: nat, m: nat, d: nat)
    requires ValidDate(y, m, d)
    ensures Dow(y, m, d) == (DayNumber(y, m, d) + 4) % 7
  {
    var q := SumAndNumber(y, m, d);
    SameRemainder(DayNumber(y, m, d) + 4, DowSum(y, m, d), q);
  }

  lemma SameRemainder(a: int, b: int, q: int)
    requires a == b + 7 * q
    ensures a % 7 == b % 7
  {
  }
}
