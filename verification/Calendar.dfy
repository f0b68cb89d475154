/**
 The proleptic Gregorian calendar and the `Date` arithmetic of ECMA-262, in local time with a
 fixed offset. A month is counted as 12 * year + month, with January as month 0.
 */
module Calendar {
  const MS_PER_DAY: int := 86400000

  predicate IsLeap(year: int) {
    year % 4 == 0 && (year % 100 != 0 || year % 400 == 0)
  }

  /** The month `month` of year `year`, as one count. */
  function MonthOf(year: int, month: int): int {
    12 * year + month
  }

  function DaysIn(month: int): (d: int)
    ensures 28 <= d <= 31
  {
    var m := month % 12;
    if m == 1 then (if IsLeap(month / 12) then 29 else 28)
    else if m in {3, 5, 8, 10} then 30
    else 31
  }

  /** The day number of the first of a month, counted from 1 January of year 0: the lengths of
      all months in between. */
  function MonthStart(month: int): int
    decreases if month >= 0 then month else -month
  {
    if month == 0 then 0
    else if month > 0 then MonthStart(month - 1) + DaysIn(month - 1)
    else MonthStart(month + 1) - DaysIn(month)
  }

  lemma MonthStartNext(month: int)
    ensures MonthStart(month + 1) == MonthStart(month) + DaysIn(month)
  {
    hide DaysIn;
  }

  lemma {:induction false} MonthStartIncreases(a: int, b: int)
    requires a < b
    ensures MonthStart(a) + 28 * (b - a) <= MonthStart(b)
    decreases b - a
  {
    hide MonthStart, DaysIn;
    MonthStartNext(b - 1);
    if a < b - 1 {
      MonthStartIncreases(a, b - 1);
    }
  }

  /** Month starts are ordered as the months are. */
  lemma MonthStartOrders(a: int, b: int)
    ensures MonthStart(a) < MonthStart(b) <==> a < b
    ensures MonthStart(a) == MonthStart(b) <==> a == b
  {
    hide MonthStart;
    if a < b { MonthStartIncreases(a, b); }
    if b < a { MonthStartIncreases(b, a); }
  }

  /** A local date and time: a month, a day of it from 1, and the milliseconds into the day. */
  datatype Date = Date(month: int, day: int, ms: int)

  predicate ValidDate(d: Date) {
    1 <= d.day <= DaysIn(d.month) && 0 <= d.ms < MS_PER_DAY
  }

  function DayNumber(d: Date): int {
    MonthStart(d.month) + d.day - 1
  }

  /** Local milliseconds since the start of year 0. */
  function Millis(d: Date): int {
    DayNumber(d) * MS_PER_DAY + d.ms
  }

  function FirstOf(month: int): Date {
    Date(month, 1, 0)
  }

  /** The date for a day counted from a month's first, where a day past the month's end runs
      over into the following months (MakeDay, section 21.4.1 of ECMA-262). */
  function MakeDate(month: int, day: int, ms: int): (d: Date)
    requires day >= 1 && 0 <= ms < MS_PER_DAY
    ensures ValidDate(d) && DayNumber(d) == MonthStart(month) + day - 1 && d.ms == ms
    decreases day
  {
    if day <= DaysIn(month) then Date(month, day, ms)
    else
      MonthStartNext(month);
      MakeDate(month + 1, day - DaysIn(month), ms)
  }

  /** `setMonth` keeps the day of the month (section 21.4.4.25 of ECMA-262). */
  function SetMonth(d: Date, month: int): (r: Date)
    requires ValidDate(d)
    ensures ValidDate(r)
  {
    MakeDate(month, d.day, d.ms)
  }

  function SetDay(d: Date, day: int): (r: Date)
    requires ValidDate(d) && day >= 1
    ensures ValidDate(r)
  {
    MakeDate(d.month, day, d.ms)
  }

  function SetMidnight(d: Date): Date {
    d.(ms := 0)
  }

  lemma DateOrder(a: Date, b: Date)
    requires ValidDate(a) && ValidDate(b)
    ensures a.month < b.month ==> DayNumber(a) < DayNumber(b) && Millis(a) < Millis(b)
    ensures Millis(a) <= Millis(b) ==> a.month <= b.month
  {
    hide MonthStart, DaysIn;
    if a.month < b.month {
      MonthStartNext(a.month);
      MonthStartOrders(a.month + 1, b.month);
    }
    if b.month < a.month {
      MonthStartNext(b.month);
      MonthStartOrders(b.month + 1, a.month);
    }
  }

  // ---------------------------------------------------------------- the closed form

  /** Days from 1 January of year 0 to 1 January of `year`. */
  function YearStart(year: int): int {
    365 * year + (year + 3) / 4 - (year + 99) / 100 + (year + 399) / 400
  }

  /** Days from 1 January to the first of month `m` of a common year. */
  function CommonDaysBefore(m: int): int
    requires 0 <= m < 12
  {
    [0, 31, 59, 90, 120, 151, 181, 212, 243, 273, 304, 334][m]
  }

  /** The day number of the first of a month, without counting. */
  function ClosedForm(month: int): int {
    var year, m := month / 12, month % 12;
    YearStart(year) + CommonDaysBefore(m) + (if m > 1 && IsLeap(year) then 1 else 0)
  }

  lemma FourthYear(year: int)
    ensures (year + 4) / 4 == (year + 3) / 4 + (if year % 4 == 0 then 1 else 0)
  {
  }

  lemma HundredthYear(year: int)
    ensures (year + 100) / 100 == (year + 99) / 100 + (if year % 100 == 0 then 1 else 0)
  {
  }

  lemma FourHundredthYear(year: int)
    ensures (year + 400) / 400 == (year + 399) / 400 + (if year % 400 == 0 then 1 else 0)
  {
  }

  lemma MultipleOfHundred(k: int)
    ensures (100 * k) % 100 == 0
  {
  }

  lemma MultipleOfFour(k: int)
    ensures (4 * k) % 4 == 0
  {
  }

  lemma CenturiesAreFourths(year: int)
    ensures year % 400 == 0 ==> year % 100 == 0
    ensures year % 100 == 0 ==> year % 4 == 0
  {
    MultipleOfHundred(4 * (year / 400));
    MultipleOfFour(25 * (year / 100));
  }

  lemma YearStartNext(year: int)
    ensures YearStart(year + 1) == YearStart(year) + (if IsLeap(year) then 366 else 365)
  {
    FourthYear(year);
    HundredthYear(year);
    FourHundredthYear(year);
    CenturiesAreFourths(year);
  }

  lemma ClosedFormNext(month: int)
    ensures ClosedForm(month + 1) == ClosedForm(month) + DaysIn(month)
  {
    if month % 12 == 11 {
      assert (month + 1) % 12 == 0 && (month + 1) / 12 == month / 12 + 1;
      YearStartNext(month / 12);
    } else {
      assert (month + 1) % 12 == month % 12 + 1 && (month + 1) / 12 == month / 12;
    }
  }

  /** Counting month lengths gives the closed form of the standard (DayFromYear and
      DayWithinYear, section 21.4.1 of ECMA-262), for every month of every year. */
  lemma {:induction false} MonthStartIsClosedForm(month: int)
    ensures MonthStart(month) == ClosedForm(month)
    decreases if month >= 0 then month else -month
  {
    hide ClosedForm, DaysIn;
    if month == 0 {
      ClosedFormOfZero();
    } else if month > 0 {
      MonthStartIsClosedForm(month - 1);
      ClosedFormNext(month - 1);
    } else {
      MonthStartIsClosedForm(month + 1);
      ClosedFormNext(month);
    }
  }

  lemma ClosedFormOfZero()
    ensures ClosedForm(0) == 0
  {
  }
}
