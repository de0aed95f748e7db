/** A naive proleptic Gregorian calendar: the leap rule, the month lengths, and
    days counted one year and one month at a time from 1970-01-01. It is the
    reference that the closed forms of the wall clock are proved against. */
module Calendar {

  datatype Date = Date(year: int, month: int, day: int) {
    predicate Valid() {
      1 <= month <= 12 && 1 <= day <= DaysInMonth(year, month)
    }

    predicate Before(that: Date) {
      year < that.year || (year == that.year && (month < that.month || (month == that.month && day < that.day)))
    }
  }

  predicate IsLeap(year: int) {
    year % 4 == 0 && (year % 100 != 0 || year % 400 == 0)
  }

  function DaysInYear(year: int): int {
    if IsLeap(year) then 366 else 365
  }

  function DaysInMonth(year: int, month: int): int
    requires 1 <= month <= 12
  {
    if month == 2 then (if IsLeap(year) then 29 else 28)
    else if month == 4 || month == 6 || month == 9 || month == 11 then 30
    else 31
  }

  /** Days from 1970-01-01 to the first of January of the year. */
  function DaysBeforeYear(year: int): int
    decreases if year < 1970 then 1970 - year else year - 1970
  {
    if year == 1970 then 0
    else if year > 1970 then DaysBeforeYear(year - 1) + DaysInYear(year - 1)
    else DaysBeforeYear(year + 1) - DaysInYear(year)
  }

  /** Days from the first of January to the first of the month. */
  function DaysBeforeMonth(year: int, month: int): int
    requires 1 <= month <= 12
  {
    if month == 1 then 0 else DaysBeforeMonth(year, month - 1) + DaysInMonth(year, month - 1)
  }

  /** The day's number, 1970-01-01 being day 0. */
  function DayNumber(d: Date): int
    requires d.Valid()
  {
    DaysBeforeYear(d.year) + DaysBeforeMonth(d.year, d.month) + d.day - 1
  }

  // ---- The counting calendar in closed form --------------------------------

  function LeapsThrough(year: int): int {
    year / 4 - year / 100 + year / 400
  }

  lemma LeapsThroughStep(year: int)
    ensures LeapsThrough(year) - LeapsThrough(year - 1) == (if IsLeap(year) then 1 else 0)
  {
    FloorStep(year);
    LeapMultiples(year);
  }

  lemma FloorStep(x: int)
    ensures x / 4 - (x - 1) / 4 == (if x % 4 == 0 then 1 else 0)
    ensures x / 100 - (x - 1) / 100 == (if x % 100 == 0 then 1 else 0)
    ensures x / 400 - (x - 1) / 400 == (if x % 400 == 0 then 1 else 0)
  {
  }

  lemma LeapMultiples(x: int)
    ensures x % 400 == 0 ==> x % 100 == 0
    ensures x % 100 == 0 ==> x % 4 == 0
  {
    Remainder100(4 * (x / 400), 0);
    Remainder4(25 * (x / 100), 0);
  }

  lemma Remainder4(q: int, r: int)
    requires 0 <= r < 4
    ensures (4 * q + r) % 4 == r && (4 * q + r) / 4 == q
  {
  }

  lemma Remainder100(q: int, r: int)
    requires 0 <= r < 100
    ensures (100 * q + r) % 100 == r && (100 * q + r) / 100 == q
  {
  }

  lemma Remainder400(q: int, r: int)
    requires 0 <= r < 400
    ensures (400 * q + r) % 400 == r && (400 * q + r) / 400 == q
  {
  }

  lemma {:induction false} DaysBeforeYearClosed(year: int)
    ensures DaysBeforeYear(year) == 365 * (year - 1970) + LeapsThrough(year - 1) - 477
    decreases if year < 1970 then 1970 - year else year - 1970
  {
    if year > 1970 {
      DaysBeforeYearClosed(year - 1);
      LeapsThroughStep(year - 1);
    } else if year < 1970 {
      DaysBeforeYearClosed(year + 1);
      LeapsThroughStep(year);
    }
  }

  /** The months of a year have 31, 28 or 29, 31, 30, ... days. */
  lemma DaysBeforeMonthTable(year: int, month: int)
    requires 1 <= month <= 12
    ensures DaysBeforeMonth(year, month)
         == [0, 31, 59, 90, 120, 151, 181, 212, 243, 273, 304, 334][month - 1]
            + (if month > 2 && IsLeap(year) then 1 else 0)
  {
    if month > 1 {
      DaysBeforeMonthTable(year, month - 1);
    }
  }

  // ---- Order ---------------------------------------------------------------

  lemma {:induction false} YearsAreOrdered(a: int, b: int)
    requires a < b
    ensures DaysBeforeYear(a) + DaysInYear(a) <= DaysBeforeYear(b)
    decreases b - a
  {
    DaysBeforeYearClosed(a);
    DaysBeforeYearClosed(a + 1);
    LeapsThroughStep(a);
    if a + 1 < b {
      YearsAreOrdered(a + 1, b);
    }
  }

  lemma DayOfYearBounds(d: Date)
    requires d.Valid()
    ensures 0 <= DaysBeforeMonth(d.year, d.month) + d.day - 1 < DaysInYear(d.year)
  {
    DaysBeforeMonthTable(d.year, d.month);
  }

  lemma EarlierDateSmallerNumber(a: Date, b: Date)
    requires a.Valid() && b.Valid() && a.Before(b)
    ensures DayNumber(a) < DayNumber(b)
  {
    DayOfYearBounds(a);
    DayOfYearBounds(b);
    if a.year < b.year {
      YearsAreOrdered(a.year, b.year);
    } else {
      DaysBeforeMonthTable(a.year, a.month);
      DaysBeforeMonthTable(b.year, b.month);
    }
  }

  /** Day numbers order dates and tell them apart. */
  lemma DayNumberOrder(a: Date, b: Date)
    requires a.Valid() && b.Valid()
    ensures a.Before(b) <==> DayNumber(a) < DayNumber(b)
    ensures a == b <==> DayNumber(a) == DayNumber(b)
  {
    if a.Before(b) {
      EarlierDateSmallerNumber(a, b);
    } else if b.Before(a) {
      EarlierDateSmallerNumber(b, a);
    }
  }
}
