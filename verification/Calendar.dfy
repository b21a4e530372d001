/**
 The month arithmetic of the fetcher: civil dates of the proleptic Gregorian calendar,
 their day numbers, and the library's `AddDate`, which renormalises a date through them.
 */
module Calendar {
  datatype Month = Month(year: int, month: int)

  datatype Date = Date(year: int, month: int, day: int)

  predicate IsLeap(y: int) {
    y % 4 == 0 && (y % 100 != 0 || y % 400 == 0)
  }

  function DaysInMonth(y: int, m: int): int
    requires 1 <= m <= 12
  {
    if m == 2 then (if IsLeap(y) then 29 else 28)
    else if m == 4 || m == 6 || m == 9 || m == 11 then 30
    else 31
  }

  predicate IsDate(d: Date) {
    1 <= d.month <= 12 && 1 <= d.day <= DaysInMonth(d.year, d.month)
  }

  /** Days before year `y`, counted from the first day of year 1. */
  function DaysBeforeYear(y: int): int {
    365 * (y - 1) + (y - 1) / 4 - (y - 1) / 100 + (y - 1) / 400
  }

  function DaysBeforeMonth(y: int, m: int): int
    requires 1 <= m <= 13
  {
    if m == 1 then 0 else DaysBeforeMonth(y, m - 1) + DaysInMonth(y, m - 1)
  }

  /** The day number; `day` may lie outside its month, as it does inside `AddDate`. */
  function DayNumber(d: Date): int
    requires 1 <= d.month <= 12
  {
    DaysBeforeYear(d.year) + DaysBeforeMonth(d.year, d.month) + d.day - 1
  }

  function Quotient(a: int, b: int, most: int): int
    requires b > 0
  {
    if a / b > most then most else a / b
  }

  /** The year of a day number, by 400-, 100-, 4- and 1-year cycles. */
  function YearOf(n: int): int {
    var n400, r400 := n / 146097, n % 146097;
    var n100 := Quotient(r400, 36524, 3);
    var r100 := r400 - 36524 * n100;
    var n4, r4 := r100 / 1461, r100 % 1461;
    var n1 := Quotient(r4, 365, 3);
    400 * n400 + 100 * n100 + 4 * n4 + n1 + 1
  }

  /** The month of day `r` of year `y`, counting from `m`. */
  function MonthFrom(y: int, m: int, r: int): int
    requires 1 <= m <= 12
    decreases 12 - m
  {
    if m == 12 || r < DaysBeforeMonth(y, m + 1) then m else MonthFrom(y, m + 1, r)
  }

  /** The date of a day number. */
  function DateOf(n: int): Date
    ensures 1 <= DateOf(n).month <= 12
  {
    var y := YearOf(n);
    var r := n - DaysBeforeYear(y);
    var m := MonthFrom(y, 1, r);
    MonthBounds(y, 1, r);
    Date(y, m, r - DaysBeforeMonth(y, m) + 1)
  }

  lemma MonthBounds(y: int, m: int, r: int)
    requires 1 <= m <= 12
    ensures m <= MonthFrom(y, m, r) <= 12
    decreases 12 - m
  {
    if m < 12 {
      MonthBounds(y, m + 1, r);
    }
  }

  lemma Multiples(y: int)
    ensures y / 4 - (y - 1) / 4 == if y % 4 == 0 then 1 else 0
    ensures y / 100 - (y - 1) / 100 == if y % 100 == 0 then 1 else 0
    ensures y / 400 - (y - 1) / 400 == if y % 400 == 0 then 1 else 0
  {}

  lemma Divisors(y: int)
    ensures y % 400 == 0 ==> y % 100 == 0
    ensures y % 100 == 0 ==> y % 4 == 0
  {}

  lemma YearLength(y: int)
    ensures DaysBeforeYear(y + 1) - DaysBeforeYear(y) == if IsLeap(y) then 366 else 365
    ensures DaysBeforeMonth(y, 13) == if IsLeap(y) then 366 else 365
  {
    Multiples(y);
    Divisors(y);
    YearLengthMonths(y);
  }

  lemma YearLengthMonths(y: int)
    ensures DaysBeforeMonth(y, 13) == if IsLeap(y) then 366 else 365
  {
    assert DaysBeforeMonth(y, 2) == 31;
    assert DaysBeforeMonth(y, 3) == 31 + DaysInMonth(y, 2);
    assert DaysBeforeMonth(y, 4) == DaysBeforeMonth(y, 3) + 31;
    assert DaysBeforeMonth(y, 5) == DaysBeforeMonth(y, 4) + 30;
    assert DaysBeforeMonth(y, 6) == DaysBeforeMonth(y, 5) + 31;
    assert DaysBeforeMonth(y, 7) == DaysBeforeMonth(y, 6) + 30;
    assert DaysBeforeMonth(y, 8) == DaysBeforeMonth(y, 7) + 31;
    assert DaysBeforeMonth(y, 9) == DaysBeforeMonth(y, 8) + 31;
    assert DaysBeforeMonth(y, 10) == DaysBeforeMonth(y, 9) + 30;
    assert DaysBeforeMonth(y, 11) == DaysBeforeMonth(y, 10) + 31;
    assert DaysBeforeMonth(y, 12) == DaysBeforeMonth(y, 11) + 30;
  }

  lemma Split4(q: int, r: int)
    requires 0 <= r < 4
    ensures (4 * q + r) / 4 == q && (4 * q + r) % 4 == r
  {}

  lemma Split100(q: int, r: int)
    requires 0 <= r < 100
    ensures (100 * q + r) / 100 == q && (100 * q + r) % 100 == r
  {}

  lemma Split400(q: int, r: int)
    requires 0 <= r < 400
    ensures (400 * q + r) / 400 == q && (400 * q + r) % 400 == r
  {}

  lemma Split1461(q: int, r: int)
    requires 0 <= r < 1461
    ensures (1461 * q + r) / 1461 == q && (1461 * q + r) % 1461 == r
  {}

  lemma Split146097(q: int, r: int)
    requires 0 <= r < 146097
    ensures (146097 * q + r) / 146097 == q && (146097 * q + r) % 146097 == r
  {}

  /** The days before a year given by its cycles, and whether it is leap. */
  lemma YearByCycles(c: int, a: int, b: int, k: int)
    requires 0 <= a < 4 && 0 <= b < 25 && 0 <= k < 4
    ensures DaysBeforeYear(400 * c + 100 * a + 4 * b + k + 1) == 146097 * c + 36524 * a + 1461 * b + 365 * k
    ensures IsLeap(400 * c + 100 * a + 4 * b + k + 1) <==> k == 3 && (b == 24 ==> a == 3)
  {
    Split4(100 * c + 25 * a + b, k);
    Split100(4 * c + a, 4 * b + k);
    Split400(c, 100 * a + 4 * b + k);
    LeapByCycles(c, a, b, k);
  }

  lemma LeapByCycles(c: int, a: int, b: int, k: int)
    requires 0 <= a < 4 && 0 <= b < 25 && 0 <= k < 4
    ensures IsLeap(400 * c + 100 * a + 4 * b + k + 1) <==> k == 3 && (b == 24 ==> a == 3)
  {}

  /** A day inside year `y` is found in year `y`. */
  lemma YearFound(y: int, r: int)
    requires 0 <= r < DaysBeforeYear(y + 1) - DaysBeforeYear(y)
    ensures YearOf(DaysBeforeYear(y) + r) == y
  {
    var c, a, b, k := Cycles(y - 1);
    YearByCycles(c, a, b, k);
    YearLength(y);
    CyclesFound(c, a, b, k, r);
  }

  lemma Cycles(z: int) returns (c: int, a: int, b: int, k: int)
    ensures 0 <= a < 4 && 0 <= b < 25 && 0 <= k < 4
    ensures z == 400 * c + 100 * a + 4 * b + k
  {
    c := z / 400;
    var z400 := z % 400;
    a := z400 / 100;
    var z100 := z400 % 100;
    b, k := z100 / 4, z100 % 4;
  }

  lemma CyclesFound(c: int, a: int, b: int, k: int, r: int)
    requires 0 <= a < 4 && 0 <= b < 25 && 0 <= k < 4
    requires 0 <= r < 366
    requires r == 365 ==> k == 3 && (b == 24 ==> a == 3)
    ensures YearOf(146097 * c + 36524 * a + 1461 * b + 365 * k + r) == 400 * c + 100 * a + 4 * b + k + 1
  {
    var r4 := 365 * k + r;
    var r100 := 1461 * b + r4;
    var r400 := 36524 * a + r100;
    Split146097(c, r400);
    CenturyFound(a, r100);
    assert b < 24 ==> r4 < 1461;
    Split1461(b, r4);
    SingleYearFound(k, r);
  }

  lemma CenturyFound(a: int, r: int)
    requires 0 <= a < 4 && 0 <= r <= 36524 && (r == 36524 ==> a == 3)
    ensures Quotient(36524 * a + r, 36524, 3) == a
  {}

  lemma SingleYearFound(k: int, r: int)
    requires 0 <= k < 4 && 0 <= r <= 365 && (r == 365 ==> k == 3)
    ensures Quotient(365 * k + r, 365, 3) == k
  {}

  lemma MonthFound(y: int, m: int, r: int, from: int)
    requires 1 <= from <= m <= 12
    requires DaysBeforeMonth(y, m) <= r < DaysBeforeMonth(y, m + 1)
    ensures MonthFrom(y, from, r) == m
    decreases m - from
  {
    if from < m {
      MonthsGrow(y, from + 1, m);
      MonthFound(y, m, r, from + 1);
    }
  }

  lemma {:induction false} MonthsGrow(y: int, a: int, b: int)
    requires 1 <= a <= b <= 13
    ensures DaysBeforeMonth(y, a) <= DaysBeforeMonth(y, b)
    decreases b - a
  {
    if a < b {
      MonthsGrow(y, a, b - 1);
    }
  }

  /** Every date is recovered from its day number. */
  lemma DateRoundTrip(d: Date)
    requires IsDate(d)
    ensures DateOf(DayNumber(d)) == d
  {
    var r := DaysBeforeMonth(d.year, d.month) + d.day - 1;
    YearLength(d.year);
    MonthsGrow(d.year, 1, d.month);
    MonthsGrow(d.year, d.month + 1, 13);
    YearFound(d.year, r);
    MonthFound(d.year, d.month, r, 1);
  }

  // ---------------------------------------------------------------------------
  // The two months tried

  /** `AddDate(0, 0, days)`: the day is moved, then the date renormalised. */
  function AddDays(d: Date, days: int): Date
    requires 1 <= d.month <= 12
  {
    DateOf(DayNumber(d.(day := d.day + days)))
  }

  function MonthOf(d: Date): Month {
    Month(d.year, d.month)
  }

  function MonthBefore(m: Month): Month {
    if m.month == 1 then Month(m.year - 1, 12) else Month(m.year, m.month - 1)
  }

  /** Going back by the day of the month lands on the last day of the month before. */
  lemma BackByDayOfMonth(d: Date)
    requires IsDate(d)
    ensures var prior := AddDays(d, -d.day);
      && IsDate(prior)
      && MonthOf(prior) == MonthBefore(MonthOf(d))
      && prior.day == DaysInMonth(prior.year, prior.month)
  {
    var m := MonthBefore(MonthOf(d));
    var last := Date(m.year, m.month, DaysInMonth(m.year, m.month));
    YearLength(d.year - 1);
    assert DayNumber(last) == DayNumber(d.(day := 0));
    DateRoundTrip(last);
  }
}
