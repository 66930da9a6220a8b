/** The proleptic Gregorian calendar as day numbers, and its inverse. Day 1 is 0001-01-01. A day
    number and its date determine each other. */
module Calendar {

  predicate IsLeap(y: int) {
    y % 4 == 0 && (y % 100 != 0 || y % 400 == 0)
  }

  function DaysInMonth(y: int, m: int): int
    requires 1 <= m <= 12
  {
    if m == 2 then (if IsLeap(y) then 29 else 28)
    else if m == 4 || m == 6 || m == 9 || m == 11 then 30
    else 31
  }

  function DaysBeforeYear(y: int): int {
    365 * (y - 1) + (y - 1) / 4 - (y - 1) / 100 + (y - 1) / 400
  }

  function DaysBeforeMonth(y: int, m: int): int
    requires 1 <= m <= 12
    decreases m
  {
    if m == 1 then 0 else DaysBeforeMonth(y, m - 1) + DaysInMonth(y, m - 1)
  }

  datatype Date = Date(year: int, month: int, day: int)

  predicate ValidDate(d: Date) {
    && 1 <= d.year && 1 <= d.month <= 12
    && 1 <= d.day <= DaysInMonth(d.year, d.month)
  }

  function Ordinal(d: Date): int
    requires 1 <= d.month <= 12
  {
    DaysBeforeYear(d.year) + DaysBeforeMonth(d.year, d.month) + d.day
  }

  function DaysInYear(y: int): int {
    if IsLeap(y) then 366 else 365
  }

  lemma YearLength(y: int)
    ensures DaysBeforeYear(y + 1) == DaysBeforeYear(y) + DaysInYear(y)
    ensures DaysBeforeMonth(y, 12) + DaysInMonth(y, 12) == DaysInYear(y)
  {
    MonthTable(y);
    Multiples4(y);
    Multiples100(y);
    Multiples400(y);
  }

  lemma Multiples4(y: int)
    ensures y / 4 == (y - 1) / 4 + if y % 4 == 0 then 1 else 0
  {
  }

  lemma Multiples100(y: int)
    ensures y / 100 == (y - 1) / 100 + if y % 100 == 0 then 1 else 0
    ensures y % 100 == 0 ==> y % 4 == 0
  {
  }

  lemma Multiples400(y: int)
    ensures y / 400 == (y - 1) / 400 + if y % 400 == 0 then 1 else 0
    ensures y % 400 == 0 ==> y % 100 == 0
  {
  }

  lemma MonthTable(y: int)
    ensures DaysBeforeMonth(y, 12) == 334 + if IsLeap(y) then 1 else 0
  {
    assert DaysBeforeMonth(y, 3) == 59 + if IsLeap(y) then 1 else 0;
    assert DaysBeforeMonth(y, 6) == DaysBeforeMonth(y, 3) + 92;
    assert DaysBeforeMonth(y, 9) == DaysBeforeMonth(y, 6) + 92;
    assert DaysBeforeMonth(y, 12) == DaysBeforeMonth(y, 9) + 91;
  }

  /** The days before each month of a year. */
  lemma MonthStarts(y: int)
    ensures var leap := if y % 4 == 0 && (y % 100 != 0 || y % 400 == 0) then 1 else 0;
            && DaysBeforeMonth(y, 1) == 0 && DaysBeforeMonth(y, 2) == 31 && DaysBeforeMonth(y, 3) == 59 + leap
            && DaysBeforeMonth(y, 4) == 90 + leap && DaysBeforeMonth(y, 5) == 120 + leap
            && DaysBeforeMonth(y, 6) == 151 + leap && DaysBeforeMonth(y, 7) == 181 + leap
            && DaysBeforeMonth(y, 8) == 212 + leap && DaysBeforeMonth(y, 9) == 243 + leap
            && DaysBeforeMonth(y, 10) == 273 + leap && DaysBeforeMonth(y, 11) == 304 + leap
            && DaysBeforeMonth(y, 12) == 334 + leap
  {
    assert DaysBeforeMonth(y, 2) == 31;
    assert DaysBeforeMonth(y, 3) == 31 + DaysInMonth(y, 2);
    assert DaysBeforeMonth(y, 4) == DaysBeforeMonth(y, 3) + 31;
    assert DaysBeforeMonth(y, 5) == DaysBeforeMonth(y, 4) + 30;
    assert DaysBeforeMonth(y, 6) == DaysBeforeMonth(y, 5) + 31;
    assert DaysBeforeMonth(y, 7) == DaysBeforeMonth(y, 6) + 30;
    assert DaysBeforeMonth(y, 8) == DaysBeforeMonth(y, 7) + 31;
    assert DaysBeforeMonth(y, 9) == DaysBeforeMonth(y, 8) + 31;
    assert DaysBeforeMonth(y, 10) == DaysBeforeMonth(y, 9) + 30;
    assert DaysBeforeMonth(y, 11) == DaysBeforeMonth(y, 10) + 31;
  }

  // ---- The inverse ---------------------------------------------------------------------

  /** The year holding day `n`, by 400-, 100-, 4- and 1-year cycles. */
  function YearOf(n: int): int {
    var k := n - 1;
    var n400, k1 := k / 146097, k % 146097;
    var n100, k2 := k1 / 36524, k1 % 36524;
    var n4, k3 := k2 / 1461, k2 % 1461;
    var n1 := k3 / 365;
    var y := 400 * n400 + 100 * n100 + 4 * n4 + n1 + 1;
    if n1 == 4 || n100 == 4 then y - 1 else y
  }

  /** The month of year `y` holding its day `k` (counted from 0), searched downwards. */
  function MonthOf(y: int, k: int, from: int): (m: int)
    requires 1 <= from <= 12
    ensures 1 <= m <= from
    decreases from
  {
    if from == 1 || DaysBeforeMonth(y, from) <= k then from else MonthOf(y, k, from - 1)
  }

  function DateOf(n: int): Date {
    var y := YearOf(n);
    var k := n - 1 - DaysBeforeYear(y);
    var m := MonthOf(y, k, 12);
    Date(y, m, k - DaysBeforeMonth(y, m) + 1)
  }

  lemma CycleSum(a: int, b: int, c: int, d: int)
    requires 0 <= b < 4 && 0 <= c < 25 && 0 <= d < 4
    ensures DaysBeforeYear(400 * a + 100 * b + 4 * c + d + 1) == 146097 * a + 36524 * b + 1461 * c + 365 * d
  {
    var k := 400 * a + 100 * b + 4 * c + d;
    assert k == 4 * (100 * a + 25 * b + c) + d;
    assert k == 100 * (4 * a + b) + (4 * c + d);
    assert k == 400 * a + (100 * b + 4 * c + d);
    assert k / 4 == 100 * a + 25 * b + c;
    assert k / 100 == 4 * a + b;
    assert k / 400 == a;
  }

  /** The cycles of a day number; the last day of a long cycle is day 0 of one cycle too many. */
  lemma Cycles(n: int) returns (a: int, b: int, c: int, d: int, rest: int)
    ensures 0 <= b <= 4 && 0 <= c <= 24 && 0 <= d <= 4 && 0 <= rest < 365
    ensures n == 146097 * a + 36524 * b + 1461 * c + 365 * d + rest + 1
    ensures b == 4 ==> c == 0 && d == 0 && rest == 0
    ensures d == 4 ==> rest == 0 && !(c == 24 && b < 3)
    ensures YearOf(n) == 400 * a + 100 * b + 4 * c + d + 1 - if d == 4 || b == 4 then 1 else 0
  {
    var k1 := (n - 1) % 146097;
    var k2 := k1 % 36524;
    var k3 := k2 % 1461;
    a, b, c, d, rest := (n - 1) / 146097, k1 / 36524, k2 / 1461, k3 / 365, k3 % 365;
    assert c == 24 ==> k2 <= 36523;
  }

  lemma YearOfBounds(n: int)
    ensures DaysBeforeYear(YearOf(n)) < n <= DaysBeforeYear(YearOf(n) + 1)
  {
    hide YearOf, DaysBeforeYear;
    var a, b, c, d, rest := Cycles(n);
    if b == 4 {
      LastYear(a, 3, 24, 3);
    } else if d == 4 {
      LastYear(a, b, c, 3);
    } else {
      LastYear(a, b, c, d);
    }
  }

  lemma Residues(q4: int, r4: int, q100: int, r100: int, q400: int, r400: int, y: int)
    requires y == 4 * q4 + r4 == 100 * q100 + r100 == 400 * q400 + r400
    ensures y % 4 == r4 % 4 && y % 100 == r100 % 100 && y % 400 == r400 % 400
  {
    assert y % 4 == r4 % 4 by { Residue4(q4, r4); }
    assert y % 100 == r100 % 100 by { Residue100(q100, r100); }
    assert y % 400 == r400 % 400 by { Residue400(q400, r400); }
  }

  lemma Residue4(q: int, r: int)
    ensures (4 * q + r) % 4 == r % 4
  {
  }

  lemma Residue100(q: int, r: int)
    ensures (100 * q + r) % 100 == r % 100
  {
  }

  lemma Residue400(q: int, r: int)
    ensures (400 * q + r) % 400 == r % 400
  {
  }

  lemma LeapInCycle(a: int, b: int, c: int, d: int)
    requires 0 <= b < 4 && 0 <= c < 25 && 0 <= d < 4
    ensures IsLeap(400 * a + 100 * b + 4 * c + d + 1) <==> d == 3 && (c < 24 || b == 3)
  {
    var y := 400 * a + 100 * b + 4 * c + d + 1;
    Residues(100 * a + 25 * b + c, d + 1, 4 * a + b, 4 * c + d + 1, a, 100 * b + 4 * c + d + 1, y);
    var r := 4 * c + d + 1;
    assert r % 100 == 0 <==> r == 100;
    if r == 100 {
      assert y % 400 == (100 * b + 100) % 400;
    }
  }

  lemma LastYear(a: int, b: int, c: int, d: int)
    requires 0 <= b < 4 && 0 <= c < 25 && 0 <= d < 4
    ensures var y := 400 * a + 100 * b + 4 * c + d + 1;
            && DaysBeforeYear(y) == 146097 * a + 36524 * b + 1461 * c + 365 * d
            && DaysBeforeYear(y + 1) == DaysBeforeYear(y) + 365 + (if d == 3 && (c < 24 || b == 3) then 1 else 0)
  {
    CycleSum(a, b, c, d);
    LeapInCycle(a, b, c, d);
    YearLength(400 * a + 100 * b + 4 * c + d + 1);
  }

  lemma {:induction false} MonthOfBounds(y: int, k: int, from: int)
    requires 1 <= from <= 12 && 0 <= k < DaysBeforeMonth(y, from) + DaysInMonth(y, from)
    ensures var m := MonthOf(y, k, from);
            DaysBeforeMonth(y, m) <= k < DaysBeforeMonth(y, m) + DaysInMonth(y, m)
    decreases from
  {
    if from > 1 && DaysBeforeMonth(y, from) > k {
      MonthOfBounds(y, k, from - 1);
    }
  }

  lemma {:induction false} YearsAscend(y: int, z: int)
    requires y < z
    ensures DaysBeforeYear(y) + DaysInYear(y) <= DaysBeforeYear(z)
    decreases z - y
  {
    YearLength(y);
    if y + 1 < z {
      YearsAscend(y + 1, z);
    }
  }

  lemma {:induction false} MonthsAscend(y: int, m: int, k: int)
    requires 1 <= m < k <= 12
    ensures DaysBeforeMonth(y, m) + DaysInMonth(y, m) <= DaysBeforeMonth(y, k)
    decreases k - m
  {
    if m + 1 < k {
      MonthsAscend(y, m, k - 1);
    }
  }

  predicate Earlier(a: Date, b: Date) {
    || a.year < b.year
    || (a.year == b.year && (a.month < b.month || (a.month == b.month && a.day < b.day)))
  }

  /** Day numbers follow the calendar order. */
  lemma OrdinalAscends(a: Date, b: Date)
    requires ValidDate(a) && ValidDate(b) && Earlier(a, b)
    ensures Ordinal(a) < Ordinal(b)
  {
    if a.year < b.year {
      YearsAscend(a.year, b.year);
      WithinYear(a);
      WithinYear(b);
    } else if a.month < b.month {
      MonthsAscend(a.year, a.month, b.month);
    }
  }

  lemma WithinYear(d: Date)
    requires ValidDate(d)
    ensures DaysBeforeYear(d.year) < Ordinal(d) <= DaysBeforeYear(d.year) + DaysInYear(d.year)
  {
    YearLength(d.year);
    if d.month < 12 {
      MonthsAscend(d.year, d.month, 12);
    }
    if 1 < d.month {
      MonthsAscend(d.year, 1, d.month);
    }
  }

  /** The day-count inverse, in both directions and for every day from 0001-01-01 on. */
  lemma DateOfInverse(n: int)
    requires 1 <= n
    ensures ValidDate(DateOf(n)) && Ordinal(DateOf(n)) == n
  {
    var y := YearOf(n);
    YearOfBounds(n);
    YearLength(y);
    MonthOfBounds(y, n - 1 - DaysBeforeYear(y), 12);
    assert DaysBeforeYear(1) == 0;
    if y < 0 {
      YearsAscend(y + 1, 1);
    }
  }

  lemma OrdinalInverse(d: Date)
    requires ValidDate(d)
    ensures 1 <= Ordinal(d) && DateOf(Ordinal(d)) == d
  {
    WithinYear(d);
    if d.year > 1 { YearsAscend(1, d.year); }
    DateOfInverse(Ordinal(d));
    var e := DateOf(Ordinal(d));
    if Earlier(d, e) {
      OrdinalAscends(d, e);
    } else if Earlier(e, d) {
      OrdinalAscends(e, d);
    }
  }
}
