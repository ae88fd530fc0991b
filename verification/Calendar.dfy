/** The Gregorian calendar from 2000 on, as the specification of the date library
    the program relies on: days are numbered from 2000-01-01, which is day 0. */
module Calendar {

  datatype Civil = Civil(year: int, month: int, day: int)

  predicate IsLeap(y: int) {
    y % 4 == 0 && (y % 100 != 0 || y % 400 == 0)
  }

  function DaysInYear(y: int): int {
    if IsLeap(y) then 366 else 365
  }

  function DaysInMonth(y: int, m: int): int {
    if m == 2 then (if IsLeap(y) then 29 else 28)
    else if m == 4 || m == 6 || m == 9 || m == 11 then 30
    else 31
  }

  predicate IsDate(c: Civil) {
    2000 <= c.year && 1 <= c.month <= 12 && 1 <= c.day <= DaysInMonth(c.year, c.month)
  }

  function DaysBeforeYear(y: int): (n: nat)
    decreases y
  {
    if y <= 2000 then 0 else DaysBeforeYear(y - 1) + DaysInYear(y - 1)
  }

  function DaysBeforeMonth(y: int, m: int): (n: nat)
    decreases m
  {
    if m <= 1 then 0 else DaysBeforeMonth(y, m - 1) + DaysInMonth(y, m - 1)
  }

  function DayNumber(c: Civil): int {
    DaysBeforeYear(c.year) + DaysBeforeMonth(c.year, c.month) + c.day - 1
  }

  /** The date that lies n days after the first day of year y. */
  function CivilFrom(y: int, n: nat): Civil
    decreases n
  {
    if n >= DaysInYear(y) then CivilFrom(y + 1, n - DaysInYear(y))
    else CivilIn(y, 1, n)
  }

  function CivilIn(y: int, m: int, n: nat): Civil
    decreases n
  {
    if n >= DaysInMonth(y, m) && m < 12 then CivilIn(y, m + 1, n - DaysInMonth(y, m))
    else Civil(y, m, n + 1)
  }

  function CivilOf(n: nat): Civil {
    CivilFrom(2000, n)
  }

  lemma TwelveMonths(y: int)
    ensures DaysBeforeMonth(y, 12) + DaysInMonth(y, 12) == DaysInYear(y)
  {
  }

  lemma {:induction false} CivilInCorrect(y: int, m: int, n: nat)
    requires 1 <= m <= 12 && 2000 <= y
    requires DaysBeforeMonth(y, m) + n < DaysInYear(y)
    ensures var c := CivilIn(y, m, n);
      IsDate(c) && c.year == y && DaysBeforeMonth(y, c.month) + c.day - 1 == DaysBeforeMonth(y, m) + n
    decreases 12 - m
  {
    hide DaysInYear, DaysInMonth;
    TwelveMonths(y);
    if n < DaysInMonth(y, m) || m == 12 {
    } else {
      CivilInCorrect(y, m + 1, n - DaysInMonth(y, m));
    }
  }

  lemma {:induction false} CivilFromCorrect(y: int, n: nat)
    requires 2000 <= y
    ensures IsDate(CivilFrom(y, n)) && DayNumber(CivilFrom(y, n)) == DaysBeforeYear(y) + n
    decreases n
  {
    if n >= DaysInYear(y) {
      CivilFromCorrect(y + 1, n - DaysInYear(y));
    } else {
      CivilInCorrect(y, 1, n);
    }
  }

  // ------------------------------------------------------------------------ order

  /** Chronological order of dates, field by field. */
  predicate Before(a: Civil, b: Civil) {
    a.year < b.year || (a.year == b.year && (a.month < b.month || (a.month == b.month && a.day < b.day)))
  }

  lemma {:induction false} MonthsGrow(y: int, m: int, m': int)
    requires 1 <= m < m'
    ensures DaysBeforeMonth(y, m) + DaysInMonth(y, m) <= DaysBeforeMonth(y, m')
    decreases m'
  {
    if m + 1 == m' {
    } else {
      MonthsGrow(y, m, m' - 1);
    }
  }

  lemma {:induction false} YearsGrow(y: int, y': int)
    requires 2000 <= y < y'
    ensures DaysBeforeYear(y) + DaysInYear(y) <= DaysBeforeYear(y')
    decreases y'
  {
    if y + 1 == y' {
    } else {
      YearsGrow(y, y' - 1);
    }
  }

  lemma InsideYear(c: Civil)
    requires IsDate(c)
    ensures 0 <= DaysBeforeMonth(c.year, c.month) + c.day - 1 < DaysInYear(c.year)
  {
    TwelveMonths(c.year);
    if c.month < 12 {
      MonthsGrow(c.year, c.month, 12);
    }
  }

  lemma DayNumberMonotone(a: Civil, b: Civil)
    requires IsDate(a) && IsDate(b) && Before(a, b)
    ensures DayNumber(a) < DayNumber(b)
  {
    if a.year < b.year {
      YearsGrow(a.year, b.year);
      InsideYear(a);
    } else if a.month < b.month {
      MonthsGrow(a.year, a.month, b.month);
    }
  }

  /** Day numbers and dates are in bijection, and both orders agree. */
  lemma CalendarBijection(n: nat, c: Civil)
    requires IsDate(c)
    ensures IsDate(CivilOf(n)) && DayNumber(CivilOf(n)) == n
    ensures DayNumber(c) >= 0 && CivilOf(DayNumber(c)) == c
    ensures Before(CivilOf(n), c) <==> n < DayNumber(c)
  {
    CivilFromCorrect(2000, n);
    InsideYear(c);
    CivilFromCorrect(2000, DayNumber(c));
    Trichotomy(c, CivilOf(DayNumber(c)));
    Trichotomy(c, CivilOf(n));
  }

  lemma Trichotomy(a: Civil, b: Civil)
    requires IsDate(a) && IsDate(b)
    ensures Before(a, b) ==> DayNumber(a) < DayNumber(b)
    ensures Before(b, a) ==> DayNumber(b) < DayNumber(a)
    ensures a == b || Before(a, b) || Before(b, a)
  {
    if Before(a, b) {
      DayNumberMonotone(a, b);
    } else if Before(b, a) {
      DayNumberMonotone(b, a);
    }
  }

  // ------------------------------------------------------------- without counting years

  lemma {:induction false} YearsInClosedForm(y: int)
    requires y >= 2000
    ensures DaysBeforeYear(y) == 365 * (y - 2000) + (y - 1) / 4 - (y - 1) / 100 + (y - 1) / 400 - 484
    decreases y
  {
    hide IsLeap;
    if y == 2000 {
    } else {
      YearsInClosedForm(y - 1);
      LeapStep(y - 1);
    }
  }

  /** Leap years are those where the three quotients together move. */
  lemma LeapStep(y: int)
    ensures (y / 4 - (y - 1) / 4) - (y / 100 - (y - 1) / 100) + (y / 400 - (y - 1) / 400) == if IsLeap(y) then 1 else 0
  {
    QuotientStep(y, 4);
    QuotientStep(y, 100);
    QuotientStep(y, 400);
  }

  lemma QuotientStep(y: int, n: int)
    requires n == 4 || n == 100 || n == 400
    ensures y / n - (y - 1) / n == if y % n == 0 then 1 else 0
  {
  }

  lemma MonthsInClosedForm(y: int, m: int)
    requires 1 <= m <= 12
    ensures DaysBeforeMonth(y, m) ==
      if m == 1 then 0 else if m == 2 then 31
      else (153 * (m - 3) + 2) / 5 + (if IsLeap(y) then 60 else 59)
  {
    hide IsLeap;
    if m > 1 {
      MonthsInClosedForm(y, m - 1);
    }
  }

  /** The number of a day in closed form, in years that begin in March: days since
      1970-01-01, of which 2000-01-01 is number 10957. */
  lemma DaysInClosedForm(c: Civil)
    requires IsDate(c)
    ensures var y, m := if c.month <= 2 then c.year - 1 else c.year, (c.month + 9) % 12;
      10957 + DayNumber(c) == 365 * y + y / 4 - y / 100 + y / 400 + (153 * m + 2) / 5 + c.day - 1 - 719468
  {
    hide DaysBeforeYear, DaysBeforeMonth, IsLeap;
    YearsInClosedForm(c.year);
    MonthsInClosedForm(c.year, c.month);
    if c.month <= 2 {
    } else {
      LeapStep(c.year);
      assert (c.month + 9) % 12 == c.month - 3;
    }
  }
}
