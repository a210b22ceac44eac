/** The proleptic Gregorian calendar behind `datetime`.  Day 0 is 0001-01-01. */
module Calendar {

  datatype Date = Date(year: nat, month: nat, day: nat)

  predicate IsLeap(y: nat) {
    y % 4 == 0 && (y % 100 != 0 || y % 400 == 0)
  }

  function DaysInMonth(y: nat, m: nat): nat {
    if m == 2 then (if IsLeap(y) then 29 else 28)
    else if m == 4 || m == 6 || m == 9 || m == 11 then 30
    else 31
  }

  predicate Valid(c: Date) {
    1 <= c.year && 1 <= c.month <= 12 && 1 <= c.day <= DaysInMonth(c.year, c.month)
  }

  function DaysBeforeYear(y: nat): nat
    requires 1 <= y
  {
    365 * (y - 1) + (y - 1) / 4 - (y - 1) / 100 + (y - 1) / 400
  }

  function DaysBeforeMonth(y: nat, m: nat): nat
    requires 1 <= m <= 13
  {
    if m == 1 then 0 else DaysBeforeMonth(y, m - 1) + DaysInMonth(y, m - 1)
  }

  function DayNumber(c: Date): nat
    requires Valid(c)
  {
    DaysBeforeYear(c.year) + DaysBeforeMonth(c.year, c.month) + c.day - 1
  }

  lemma YearLength(y: nat)
    requires 1 <= y
    ensures DaysBeforeYear(y + 1) == DaysBeforeYear(y) + (if IsLeap(y) then 366 else 365)
  {
    FourthYear(y);
    HundredthYear(y);
    FourHundredthYear(y);
    CenturiesAreMultiples(y);
    CyclesAreMultiples(y);
  }

  lemma FourthYear(y: nat)
    requires 1 <= y
    ensures y / 4 == (y - 1) / 4 + (if y % 4 == 0 then 1 else 0)
  {
  }

  lemma HundredthYear(y: nat)
    requires 1 <= y
    ensures y / 100 == (y - 1) / 100 + (if y % 100 == 0 then 1 else 0)
  {
  }

  lemma FourHundredthYear(y: nat)
    requires 1 <= y
    ensures y / 400 == (y - 1) / 400 + (if y % 400 == 0 then 1 else 0)
  {
  }

  lemma CenturiesAreMultiples(y: nat)
    ensures y % 100 == 0 ==> y % 4 == 0
  {
    if y % 100 == 0 {
      var q := 25 * (y / 100);
      assert y == 4 * q;
    }
  }

  lemma CyclesAreMultiples(y: nat)
    ensures y % 400 == 0 ==> y % 100 == 0
  {
    if y % 400 == 0 {
      var q := 4 * (y / 400);
      assert y == 100 * q;
    }
  }

  lemma TwelveMonths(y: nat)
    ensures DaysBeforeMonth(y, 13) == if IsLeap(y) then 366 else 365
  {
    assert DaysBeforeMonth(y, 2) == 31;
    assert DaysBeforeMonth(y, 3) == 31 + DaysInMonth(y, 2);
    assert DaysBeforeMonth(y, 5) == DaysBeforeMonth(y, 3) + 61;
    assert DaysBeforeMonth(y, 7) == DaysBeforeMonth(y, 5) + 61;
    assert DaysBeforeMonth(y, 9) == DaysBeforeMonth(y, 7) + 62;
    assert DaysBeforeMonth(y, 11) == DaysBeforeMonth(y, 9) + 61;
    assert DaysBeforeMonth(y, 13) == DaysBeforeMonth(y, 11) + 61;
  }

  lemma {:induction false} YearsIncrease(x: nat, y: nat)
    requires 1 <= x < y
    ensures DaysBeforeYear(x + 1) <= DaysBeforeYear(y)
    decreases y - x
  {
    if x + 1 < y {
      YearLength(x + 1);
      YearsIncrease(x + 1, y);
    }
  }

  lemma {:induction false} MonthsIncrease(y: nat, m: nat, n: nat)
    requires 1 <= m < n <= 13
    ensures DaysBeforeMonth(y, m + 1) <= DaysBeforeMonth(y, n)
    decreases n - m
  {
    if m + 1 < n {
      MonthsIncrease(y, m + 1, n);
    }
  }

  /** A date falls inside the span of its own month and its own year. */
  lemma DateBounds(c: Date)
    requires Valid(c)
    ensures var day := DayNumber(c) - DaysBeforeYear(c.year);
            DaysBeforeMonth(c.year, c.month) <= day < DaysBeforeMonth(c.year, c.month + 1)
    ensures DaysBeforeYear(c.year) <= DayNumber(c) < DaysBeforeYear(c.year + 1)
  {
    YearLength(c.year);
    TwelveMonths(c.year);
    if c.month < 12 {
      MonthsIncrease(c.year, c.month, 13);
    }
  }

  predicate Before(a: Date, b: Date) {
    a.year < b.year || (a.year == b.year && (a.month < b.month || (a.month == b.month && a.day < b.day)))
  }

  /** Day numbers follow the field-by-field order of dates, so no two dates share a number. */
  lemma DayNumberOrder(a: Date, b: Date)
    requires Valid(a) && Valid(b)
    ensures DayNumber(a) < DayNumber(b) <==> Before(a, b)
    ensures DayNumber(a) == DayNumber(b) <==> a == b
  {
    DateBounds(a);
    DateBounds(b);
    if a.year < b.year {
      YearsIncrease(a.year, b.year);
    } else if b.year < a.year {
      YearsIncrease(b.year, a.year);
    } else if a.month < b.month {
      MonthsIncrease(a.year, a.month, b.month);
    } else if b.month < a.month {
      MonthsIncrease(a.year, b.month, a.month);
    }
  }

  function YearFrom(n: nat, y: nat): (r: nat)
    requires 1 <= y && DaysBeforeYear(y) <= n
    ensures y <= r && DaysBeforeYear(r) <= n < DaysBeforeYear(r + 1)
    decreases n - DaysBeforeYear(y)
  {
    YearLength(y);
    if n < DaysBeforeYear(y + 1) then y else YearFrom(n, y + 1)
  }

  function MonthFrom(n: nat, y: nat, m: nat): (r: nat)
    requires 1 <= m <= 12 && DaysBeforeMonth(y, m) <= n < DaysBeforeMonth(y, 13)
    ensures m <= r <= 12 && DaysBeforeMonth(y, r) <= n < DaysBeforeMonth(y, r + 1)
    decreases 12 - m
  {
    if n < DaysBeforeMonth(y, m + 1) then m else MonthFrom(n, y, m + 1)
  }

  /** The date of a day number: a valid date whose day number it is. */
  function CivilOf(n: nat): (c: Date)
    ensures Valid(c) && DayNumber(c) == n
  {
    var y := YearFrom(n, 1);
    YearLength(y);
    TwelveMonths(y);
    var k := n - DaysBeforeYear(y);
    var m := MonthFrom(k, y, 1);
    Date(y, m, k - DaysBeforeMonth(y, m) + 1)
  }

  /** Dates and day numbers are in bijection (the other direction is the contract of `CivilOf`). */
  lemma CivilOfDayNumber(c: Date)
    requires Valid(c)
    ensures CivilOf(DayNumber(c)) == c
  {
    DayNumberOrder(CivilOf(DayNumber(c)), c);
  }

  /** The dates there are: the months' lengths, and a 29th of February in every fourth year but three in 400. */
  lemma RealDates(c: Date)
    ensures Valid(c) <==>
            && 1 <= c.year && 1 <= c.month <= 12 && 1 <= c.day
            && (c.month in {1, 3, 5, 7, 8, 10, 12} ==> c.day <= 31)
            && (c.month in {4, 6, 9, 11} ==> c.day <= 30)
            && (c.month == 2 ==> c.day <= 29)
            && (c.month == 2 && c.day == 29 ==> c.year % 400 == 0 || (c.year % 4 == 0 && c.year % 100 != 0))
  {
  }

  /** Two fixed points of the count, the first day of 1970 and a leap day. */
  lemma KnownDays()
    ensures DayNumber(Date(1970, 1, 1)) == 719_162 && DayNumber(Date(2000, 2, 29)) == 730_178
  {
    assert DaysBeforeMonth(2000, 2) == 31;
  }
}
