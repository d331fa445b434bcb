/** The one calendar computation of the billing engine: the last day of a
    month, which the monthly payment entry takes from
    `new Date(year, month + 1, 0).getDate()` (day 0 of the following month
    is the last day of this one). JavaScript dates follow the proleptic
    Gregorian calendar. */
module Calendar {

  predicate IsLeapYear(y: int) {
    (y % 4 == 0 && y % 100 != 0) || y % 400 == 0
  }

  /** Days in the 0-based month `m` of year `y`. */
  function DaysInMonth(y: int, m: int): (d: int)
    requires 0 <= m < 12
    ensures 28 <= d <= 31
    ensures m == 1 ==> (d == 29 <==> IsLeapYear(y))
  {
    if m == 1 then (if IsLeapYear(y) then 29 else 28)
    else if m == 3 || m == 5 || m == 8 || m == 10 then 30
    else 31
  }

  /** The `Date` constructor reads a year argument between 0 and 99 as a
      year of the twentieth century. */
  function DateConstructorYear(year: int): (y: int)
    ensures 0 <= year <= 99 ==> y == 1900 + year
    ensures !(0 <= year <= 99) ==> y == year
  {
    if 0 <= year <= 99 then 1900 + year else year
  }

  /** `new Date(year, month + 1, 0).getDate()`: the constructor carries a
      month index outside 0..11 into the year, and day 0 of month index
      `month + 1` is the last day of month index `month`. */
  function LastDayOfMonth(year: int, month: int): (d: int)
    ensures 28 <= d <= 31
  {
    var y := DateConstructorYear(year) + month / 12;
    DaysInMonth(y, month % 12)
  }

  /** Number of days in a year. */
  function DaysInYear(y: int): int {
    if IsLeapYear(y) then 366 else 365
  }

  /** The months' lengths add up to the year's length. */
  lemma MonthsMakeYear(y: int)
    ensures DaysInMonth(y, 0) + DaysInMonth(y, 1) + DaysInMonth(y, 2) + DaysInMonth(y, 3)
          + DaysInMonth(y, 4) + DaysInMonth(y, 5) + DaysInMonth(y, 6) + DaysInMonth(y, 7)
          + DaysInMonth(y, 8) + DaysInMonth(y, 9) + DaysInMonth(y, 10) + DaysInMonth(y, 11)
          == DaysInYear(y)
  {
  }

  /** For a month index within the year (0..11) and a year of four
      digits, the last day is that month's length in that year. */
  lemma LastDayInYear(year: int, month: int)
    requires 0 <= month < 12 && !(0 <= year <= 99)
    ensures LastDayOfMonth(year, month) == DaysInMonth(year, month)
  {
  }

  /** A month index past December is a month of a following year:
      index 12 is January of the next year. */
  lemma LastDayCarries(year: int, month: int)
    requires !(0 <= year <= 99) && !(0 <= year + 1 <= 99)
    ensures LastDayOfMonth(year, month + 12) == LastDayOfMonth(year + 1, month)
  {
    assert (month + 12) / 12 == month / 12 + 1;
    assert (month + 12) % 12 == month % 12;
  }
}
