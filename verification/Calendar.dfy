/** Calendar dates from 0001-01-01 to 9999-12-31 and the two ways the rules move along them. */
module Calendar {
  import opened Basics

  datatype Date = Date(year: int, month: int, day: int)

  predicate Leap(year: int) {
    year % 4 == 0 && (year % 100 != 0 || year % 400 == 0)
  }

  function DaysInMonth(year: int, month: int): (n: int)
    ensures 28 <= n <= 31
  {
    if month == 2 then (if Leap(year) then 29 else 28)
    else if month == 4 || month == 6 || month == 9 || month == 11 then 30
    else 31
  }

  predicate IsDate(d: Date) {
    1 <= d.year <= 9999 && 1 <= d.month <= 12 && 1 <= d.day <= DaysInMonth(d.year, d.month)
  }

  type Day = d: Date | IsDate(d) witness Date(1, 1, 1)

  /** The date with these parts; None where the original raises ValueError. */
  function MakeDate(year: int, month: int, day: int): Option<Day> {
    if IsDate(Date(year, month, day)) then Some(Date(year, month, day)) else None
  }

  predicate Before(a: Date, b: Date) {
    a.year < b.year || (a.year == b.year && (a.month < b.month || (a.month == b.month && a.day < b.day)))
  }

  predicate AtMost(a: Date, b: Date) {
    a == b || Before(a, b)
  }

  // ----- day counts

  function DaysBeforeYear(year: int): int {
    365 * (year - 1) + (year - 1) / 4 - (year - 1) / 100 + (year - 1) / 400
  }

  function DaysBeforeMonth(year: int, month: int): int
    requires 1 <= month <= 13
    decreases month
  {
    if month == 1 then 0 else DaysBeforeMonth(year, month - 1) + DaysInMonth(year, month - 1)
  }

  /** Day 1 is 0001-01-01. */
  function Ordinal(d: Day): int {
    DaysBeforeYear(d.year) + DaysBeforeMonth(d.year, d.month) + d.day
  }

  lemma MonthsFillYear(year: int)
    ensures DaysBeforeMonth(year, 13) == (if Leap(year) then 366 else 365)
  {
    assert DaysBeforeMonth(year, 3) == 31 + DaysInMonth(year, 2);
    assert DaysBeforeMonth(year, 5) == DaysBeforeMonth(year, 3) + 61;
    assert DaysBeforeMonth(year, 7) == DaysBeforeMonth(year, 5) + 61;
    assert DaysBeforeMonth(year, 9) == DaysBeforeMonth(year, 7) + 62;
    assert DaysBeforeMonth(year, 11) == DaysBeforeMonth(year, 9) + 61;
    assert DaysBeforeMonth(year, 13) == DaysBeforeMonth(year, 11) + 61;
  }

  lemma YearLength(year: int)
    ensures DaysBeforeYear(year + 1) == DaysBeforeYear(year) + (if Leap(year) then 366 else 365)
    ensures DaysBeforeMonth(year, 13) == (if Leap(year) then 366 else 365)
  {
    MonthsFillYear(year);
    DaysBeforeNextYear(year);
  }

  lemma DaysBeforeNextYear(year: int)
    ensures DaysBeforeYear(year + 1) == DaysBeforeYear(year) + (if Leap(year) then 366 else 365)
  {
    LeapStep(year);
    MultiplesNest(year);
  }

  lemma MultiplesNest(year: int)
    ensures year % 400 == 0 ==> year % 100 == 0
    ensures year % 100 == 0 ==> year % 4 == 0
  {
  }

  lemma LeapStep(year: int)
    ensures year / 4 - (year - 1) / 4 == (if year % 4 == 0 then 1 else 0)
    ensures year / 100 - (year - 1) / 100 == (if year % 100 == 0 then 1 else 0)
    ensures year / 400 - (year - 1) / 400 == (if year % 400 == 0 then 1 else 0)
  {
  }

  lemma {:induction false} YearsAscend(a: int, b: int)
    requires a <= b
    ensures DaysBeforeYear(a) + 365 * (b - a) <= DaysBeforeYear(b)
    decreases b - a
  {
    if a < b {
      YearsAscend(a, b - 1);
      YearLength(b - 1);
    }
  }

  lemma {:induction false} MonthsAscend(year: int, a: int, b: int)
    requires 1 <= a <= b <= 13
    ensures DaysBeforeMonth(year, a) + 28 * (b - a) <= DaysBeforeMonth(year, b)
    ensures a < b ==> DaysBeforeMonth(year, a) + DaysInMonth(year, a) <= DaysBeforeMonth(year, b)
    decreases b - a
  {
    if a < b {
      MonthsAscend(year, a, b - 1);
    }
  }

  /** Earlier dates have smaller day numbers. */
  lemma BeforeMeansSmaller(a: Day, b: Day)
    requires Before(a, b)
    ensures Ordinal(a) < Ordinal(b)
  {
    MonthsAscend(a.year, a.month, 13);
    MonthsAscend(b.year, 1, b.month);
    if a.year < b.year {
      YearLength(a.year);
      YearsAscend(a.year + 1, b.year);
    } else if a.month < b.month {
      MonthsAscend(a.year, a.month, b.month);
    }
  }

  lemma OrdinalOrders(a: Day, b: Day)
    ensures Before(a, b) <==> Ordinal(a) < Ordinal(b)
    ensures a == b <==> Ordinal(a) == Ordinal(b)
  {
    if Before(a, b) {
      BeforeMeansSmaller(a, b);
    } else if Before(b, a) {
      BeforeMeansSmaller(b, a);
    }
  }

  const MAX_ORDINAL := 3652059

  function Next(d: Day): Option<Day> {
    if d.day < DaysInMonth(d.year, d.month) then Some(Date(d.year, d.month, d.day + 1))
    else if d.month < 12 then Some(Date(d.year, d.month + 1, 1))
    else MakeDate(d.year + 1, 1, 1)
  }

  function Previous(d: Day): Option<Day> {
    if d.day > 1 then Some(Date(d.year, d.month, d.day - 1))
    else if d.month > 1 then Some(Date(d.year, d.month - 1, DaysInMonth(d.year, d.month - 1)))
    else MakeDate(d.year - 1, 12, 31)
  }

  lemma OrdinalRange(d: Day)
    ensures 1 <= Ordinal(d) <= MAX_ORDINAL
  {
    YearsAscend(1, d.year);
    MonthsAscend(d.year, 1, d.month);
    MonthsAscend(d.year, d.month, 13);
    YearLength(d.year);
    YearsAscend(d.year + 1, 10000);
    assert DaysBeforeYear(10000) == MAX_ORDINAL;
  }

  lemma LastDayOfYear(d: Day)
    requires d.month == 12 && d.day == 31
    ensures Ordinal(d) == DaysBeforeYear(d.year + 1)
  {
    YearLength(d.year);
    assert DaysBeforeMonth(d.year, 13) == DaysBeforeMonth(d.year, 12) + 31;
  }

  lemma NextIsOneLater(d: Day)
    ensures Next(d).Some? <==> Ordinal(d) < MAX_ORDINAL
    ensures Next(d).Some? ==> Ordinal(Next(d).value) == Ordinal(d) + 1
  {
    if d.month == 12 && d.day == 31 {
      LastDayOfYear(d);
      YearsAscend(d.year + 1, 10000);
      assert DaysBeforeYear(10000) == MAX_ORDINAL;
      assert DaysBeforeMonth(d.year + 1, 1) == 0;
    } else {
      NextInYear(d);
      OrdinalRange(Next(d).value);
    }
  }

  lemma NextInYear(d: Day)
    requires !(d.month == 12 && d.day == 31)
    ensures Next(d).Some? && Ordinal(Next(d).value) == Ordinal(d) + 1
  {
    if d.day == DaysInMonth(d.year, d.month) {
      assert DaysBeforeMonth(d.year, d.month + 1) == DaysBeforeMonth(d.year, d.month) + d.day;
    }
  }

  lemma PreviousIsOneEarlier(d: Day)
    ensures Previous(d).Some? <==> Ordinal(d) > 1
    ensures Previous(d).Some? ==> Ordinal(Previous(d).value) == Ordinal(d) - 1
  {
    if Previous(d).Some? {
      var before := Previous(d).value;
      assert Next(before) == Some(d);
      NextIsOneLater(before);
      OrdinalRange(before);
    } else {
      assert d == Date(1, 1, 1);
      assert DaysBeforeMonth(1, 1) == 0;
    }
  }

  /** The date `n` days later, or earlier if `n` is negative; None where the original raises OverflowError. */
  function AddDays(d: Day, n: int): (r: Option<Day>)
    ensures r.Some? <==> 1 <= Ordinal(d) + n <= MAX_ORDINAL
    ensures r.Some? ==> Ordinal(r.value) == Ordinal(d) + n
    decreases if n < 0 then -n else n
  {
    if n == 0 then
      OrdinalRange(d);
      Some(d)
    else if n > 0 then
      NextIsOneLater(d);
      OrdinalRange(d);
      match Next(d)
      case None => None
      case Some(next) => AddDays(next, n - 1)
    else
      PreviousIsOneEarlier(d);
      OrdinalRange(d);
      match Previous(d)
      case None => None
      case Some(previous) => AddDays(previous, n + 1)
  }

  // ----- moving by years and by months

  /** The same day of the year `years` later; 29 February becomes 28 February where there is none. */
  function AddYears(d: Day, years: int): Option<Day> {
    match MakeDate(d.year + years, d.month, d.day)
    case Some(same) => Some(same)
    case None => MakeDate(d.year + years, d.month, 28)
  }

  /** The day of that month, or the month's last day if it is shorter. */
  function Clipped(year: int, month: int, day: int): Option<Day>
    requires 1 <= month <= 12 && 1 <= day
  {
    if 1 <= year <= 9999 then Some(Date(year, month, Min(day, DaysInMonth(year, month)))) else None
  }

  /** `months` later, as a date of the month reached. */
  function MonthsLater(start: Day, months: int): Option<Day> {
    var total := start.month - 1 + months;
    Clipped(start.year + total / 12, total % 12 + 1, start.day)
  }

  /** Lowers the day until the month has it; None where the original raises ValueError. */
  method AddMonths(start: Day, months: int) returns (r: Option<Day>)
    ensures r == MonthsLater(start, months)
  {
    var total := start.month - 1 + months;
    var year := start.year + total / 12;
    var month := total % 12 + 1;
    var day := start.day;
    while day > 1
      invariant 1 <= day <= start.day
      invariant 1 <= year <= 9999 ==> day >= Min(start.day, DaysInMonth(year, month))
    {
      var candidate := MakeDate(year, month, day);
      if candidate.Some? {
        return candidate;
      }
      day := day - 1;
    }
    return MakeDate(year, month, 1);
  }

  lemma AddYearsClips(d: Day, years: int)
    ensures AddYears(d, years) == Clipped(d.year + years, d.month, d.day)
  {
  }

  /** The two adders agree on whole years. */
  lemma MonthsAgreeWithYears(d: Day, years: int)
    ensures MonthsLater(d, 12 * years) == AddYears(d, years)
  {
    AddYearsClips(d, years);
    var total := d.month - 1 + 12 * years;
    assert total / 12 == years && total % 12 == d.month - 1;
  }

  /** A later start never gives an earlier end. */
  lemma MonthsLaterIsMonotone(a: Day, b: Day, months: int)
    requires AtMost(a, b) && MonthsLater(a, months).Some? && MonthsLater(b, months).Some?
    ensures AtMost(MonthsLater(a, months).value, MonthsLater(b, months).value)
  {
    var ta, tb := a.month - 1 + months, b.month - 1 + months;
    var ya, yb := a.year + ta / 12, b.year + tb / 12;
    assert 12 * ya + ta % 12 == 12 * a.year + ta && 12 * yb + tb % 12 == 12 * b.year + tb;
  }

  lemma AddYearsIsMonotone(a: Day, b: Day, years: int)
    requires AtMost(a, b) && AddYears(a, years).Some? && AddYears(b, years).Some?
    ensures AtMost(AddYears(a, years).value, AddYears(b, years).value)
  {
    AddYearsClips(a, years);
    AddYearsClips(b, years);
  }

  /** Strictly before the date `years` back, a start reaches its end strictly before. */
  lemma BeforeCutoffEndsBefore(start: Day, end: Day, years: int)
    requires AddYears(end, -years).Some? && Before(start, AddYears(end, -years).value)
    requires years >= 0
    ensures AddYears(start, years).Some? && Before(AddYears(start, years).value, end)
  {
    AddYearsClips(end, -years);
    AddYearsClips(start, years);
  }

  lemma FiveYearsFromNewYear(year: int)
    ensures DaysBeforeYear(year) + 1825 + (if Leap(year) then 1 else 0) <= DaysBeforeYear(year + 5)
  {
    YearLength(year);
    YearsAscend(year + 1, year + 5);
  }

  /** Five years hold at least 1825 days, whatever leap days and clipped 29 Februaries lie between. */
  lemma FiveYearsAtLeast(d: Day, years: int)
    requires years >= 0 && AddYears(d, years + 5).Some?
    ensures AddYears(d, years).Some?
    ensures Ordinal(AddYears(d, years).value) + 1825 <= Ordinal(AddYears(d, years + 5).value)
  {
    AddYearsClips(d, years);
    AddYearsClips(d, years + 5);
    var y := d.year + years;
    FiveYearsFromNewYear(y);
    if d.month > 2 {
      MonthsDifferByLeapDay(y, y + 5, d.month);
    } else {
      assert DaysBeforeMonth(y, d.month) == DaysBeforeMonth(y + 5, d.month);
    }
  }

  lemma {:induction false} MonthsDifferByLeapDay(y: int, z: int, month: int)
    requires 2 < month <= 12
    ensures DaysBeforeMonth(y, month) - DaysInMonth(y, 2) == DaysBeforeMonth(z, month) - DaysInMonth(z, 2)
    decreases month
  {
    if month == 3 {
      assert DaysBeforeMonth(y, 2) == 31 && DaysBeforeMonth(z, 2) == 31;
    } else {
      MonthsDifferByLeapDay(y, z, month - 1);
    }
  }
}
