/** The proleptic Gregorian calendar as `Date.UTC` and `Date` use it
    (section 21.4.1 of ECMA-262): civil dates against day numbers, day 0 being
    1970-01-01. Every "yyyy-mm-dd" text of the repository is such a civil date. */
module Calendar {
  import opened Division

  datatype Date = Date(year: int, month: int, day: int)

  predicate IsLeap(y: int) {
    y % 4 == 0 && (y % 100 != 0 || y % 400 == 0)
  }

  function MonthLength(leap: bool, m: int): int {
    if m == 2 then (if leap then 29 else 28)
    else if m in {4, 6, 9, 11} then 30
    else 31
  }

  function DaysInMonth(y: int, m: int): int { MonthLength(IsLeap(y), m) }

  predicate Valid(d: Date) {
    1 <= d.month <= 12 && 1 <= d.day <= DaysInMonth(d.year, d.month)
  }

  /** Day number of 1 January (DayFromYear in ECMA-262). */
  function DayFromYear(y: int): int {
    365 * (y - 1970) + (y - 1969) / 4 - (y - 1901) / 100 + (y - 1601) / 400
  }

  function DaysInYear(y: int): int { if IsLeap(y) then 366 else 365 }

  /** Days of a year before the first of month `m`. */
  function DaysBeforeMonth(leap: bool, m: int): int {
    if m <= 1 then 0
    else if m == 2 then 31
    else
      var l := if leap then 1 else 0;
      if m == 3 then 59 + l
      else if m == 4 then 90 + l
      else if m == 5 then 120 + l
      else if m == 6 then 151 + l
      else if m == 7 then 181 + l
      else if m == 8 then 212 + l
      else if m == 9 then 243 + l
      else if m == 10 then 273 + l
      else if m == 11 then 304 + l
      else 334 + l
  }

  function DayNumber(d: Date): int {
    DayFromYear(d.year) + DaysBeforeMonth(IsLeap(d.year), d.month) + d.day - 1
  }

  /** `Date.UTC(year, monthIndex, date)` in days (MakeDay in ECMA-262): the month
      index and the day of the month may overflow in either direction. */
  function MakeDay(year: int, monthIndex: int, date: int): int {
    DayNumber(Date(year + monthIndex / 12, monthIndex % 12 + 1, date))
  }

  lemma MakeDayOfDate(d: Date, days: int)
    requires Valid(d)
    ensures MakeDay(d.year, d.month - 1, d.day + days) == DayNumber(d) + days
  {
    assert (d.month - 1) / 12 == 0 && (d.month - 1) % 12 == d.month - 1;
  }

  lemma Leaps4(y: int)
    ensures (y - 1968) / 4 == (y - 1969) / 4 + (if y % 4 == 0 then 1 else 0)
  {
    QuotientFacts(y, 4);
    var q, r := y / 4, y % 4;
    QuotientIs(y - 1968, 4, q - 492, r);
    QuotientIs(y - 1969, 4, if r == 0 then q - 493 else q - 492, if r == 0 then 3 else r - 1);
  }

  lemma Leaps100(y: int)
    ensures (y - 1900) / 100 == (y - 1901) / 100 + (if y % 100 == 0 then 1 else 0)
  {
    QuotientFacts(y, 100);
    var q, r := y / 100, y % 100;
    QuotientIs(y - 1900, 100, q - 19, r);
    QuotientIs(y - 1901, 100, if r == 0 then q - 20 else q - 19, if r == 0 then 99 else r - 1);
  }

  lemma Leaps400(y: int)
    ensures (y - 1600) / 400 == (y - 1601) / 400 + (if y % 400 == 0 then 1 else 0)
  {
    QuotientFacts(y, 400);
    var q, r := y / 400, y % 400;
    QuotientIs(y - 1600, 400, q - 4, r);
    QuotientIs(y - 1601, 400, if r == 0 then q - 5 else q - 4, if r == 0 then 399 else r - 1);
  }

  lemma YearLength(y: int)
    ensures DayFromYear(y + 1) == DayFromYear(y) + DaysInYear(y)
  {
    Leaps4(y);
    Leaps100(y);
    Leaps400(y);
    RestOfRest(y, 4, 100);
    RestOfRest(y, 25, 4);
  }

  lemma {:induction false} YearsIncrease(y: int, z: int)
    requires y <= z
    ensures DayFromYear(z) - DayFromYear(y) >= 365 * (z - y)
    decreases z - y
  {
    if y == z {
    } else {
      YearsIncrease(y, z - 1);
      YearLength(z - 1);
    }
  }

  function SearchYear(n: int, y: int): (r: int)
    requires DayFromYear(y) <= n
    ensures DayFromYear(r) <= n < DayFromYear(r + 1)
    decreases n - DayFromYear(y)
  {
    YearLength(y);
    if n < DayFromYear(y + 1) then y else SearchYear(n, y + 1)
  }

  /** The year that contains day `n` (YearFromTime): the largest year that starts on or before it. */
  function YearOf(n: int): (y: int)
    ensures DayFromYear(y) <= n < DayFromYear(y + 1)
  {
    SearchYear(n, 1970 + (if n < 0 then n / 365 else n / 366))
  }

  lemma YearOfUnique(n: int, y: int)
    requires DayFromYear(y) <= n < DayFromYear(y + 1)
    ensures YearOf(n) == y
  {
    hide DayFromYear;
    var r := YearOf(n);
    if r < y { YearsIncrease(r + 1, y); }
    if y < r { YearsIncrease(y + 1, r); }
  }

  /** Month that holds day `k` (counted from 0) of a year. */
  function MonthOf(leap: bool, k: int): (m: int)
    requires 0 <= k < (if leap then 366 else 365)
    ensures 1 <= m <= 12
    ensures DaysBeforeMonth(leap, m) <= k < DaysBeforeMonth(leap, m) + MonthLength(leap, m)
  {
    if k < DaysBeforeMonth(leap, 2) then 1
    else if k < DaysBeforeMonth(leap, 3) then 2
    else if k < DaysBeforeMonth(leap, 4) then 3
    else if k < DaysBeforeMonth(leap, 5) then 4
    else if k < DaysBeforeMonth(leap, 6) then 5
    else if k < DaysBeforeMonth(leap, 7) then 6
    else if k < DaysBeforeMonth(leap, 8) then 7
    else if k < DaysBeforeMonth(leap, 9) then 8
    else if k < DaysBeforeMonth(leap, 10) then 9
    else if k < DaysBeforeMonth(leap, 11) then 10
    else if k < DaysBeforeMonth(leap, 12) then 11
    else 12
  }

  lemma MonthOfUnique(leap: bool, m: int, k: int)
    requires 1 <= m <= 12
    requires DaysBeforeMonth(leap, m) <= k < DaysBeforeMonth(leap, m) + MonthLength(leap, m)
    ensures 0 <= k < (if leap then 366 else 365) && MonthOf(leap, k) == m
  {
  }

  /** The civil date of a day number: what `toISOString().slice(0, 10)` prints. */
  function DateOf(n: int): (d: Date)
    ensures Valid(d)
    ensures DayNumber(d) == n
  {
    var y := YearOf(n);
    YearLength(y);
    var k := n - DayFromYear(y);
    var m := MonthOf(IsLeap(y), k);
    Date(y, m, k - DaysBeforeMonth(IsLeap(y), m) + 1)
  }

  lemma InsideItsYear(d: Date)
    requires Valid(d)
    ensures DayFromYear(d.year) <= DayNumber(d) < DayFromYear(d.year + 1)
    ensures YearOf(DayNumber(d)) == d.year
  {
    YearLength(d.year);
    MonthOfUnique(IsLeap(d.year), d.month, DayNumber(d) - DayFromYear(d.year));
    YearOfUnique(DayNumber(d), d.year);
  }

  /** Civil dates and day numbers are in bijection. */
  lemma DateRoundTrip(d: Date)
    requires Valid(d)
    ensures DateOf(DayNumber(d)) == d
  {
    InsideItsYear(d);
    MonthOfUnique(IsLeap(d.year), d.month, DayNumber(d) - DayFromYear(d.year));
  }

  /** Different civil dates have different day numbers. */
  lemma SameDay(a: Date, b: Date)
    requires Valid(a) && Valid(b)
    ensures a == b <==> DayNumber(a) == DayNumber(b)
  {
    DateRoundTrip(a);
    DateRoundTrip(b);
  }

  /** 0 = Sunday ... 6 = Saturday (WeekDay in ECMA-262). */
  function Weekday(n: int): int { (n + 4) % 7 }

  /** `isoDayShift`: both copies of the repository write the same expression. */
  function DayShift(d: Date, days: int): (r: Date)
    ensures Valid(r)
  {
    DateOf(MakeDay(d.year, d.month - 1, d.day + days))
  }

  lemma DayShiftIs(d: Date, days: int)
    requires Valid(d)
    ensures DayShift(d, days) == DateOf(DayNumber(d) + days)
  {
    hide DateOf, DayNumber, MakeDay;
    MakeDayOfDate(d, days);
  }

  /** Shifting moves the day number by exactly `days`. */
  lemma DayShiftMoves(d: Date, days: int)
    requires Valid(d)
    ensures DayNumber(DayShift(d, days)) == DayNumber(d) + days
  {
    DayShiftIs(d, days);
  }

  /** Shifts add up, so a shift and its opposite cancel across months, leap days and years. */
  lemma DayShiftsAddUp(d: Date, days: int, more: int)
    requires Valid(d)
    ensures DayShift(DayShift(d, days), more) == DayShift(d, days + more)
  {
    hide *;
    var e := DayShift(d, days);
    DayShiftMoves(d, days);
    DayShiftIs(e, more);
    DayShiftIs(d, days + more);
  }

  lemma DayShiftUndone(d: Date, days: int)
    requires Valid(d)
    ensures DayShift(DayShift(d, days), -days) == d
  {
    hide *;
    DayShiftsAddUp(d, days, -days);
    DayShiftIs(d, 0);
    DateRoundTrip(d);
  }

  /** `isoWeekday`: 0 = Sunday ... 6 = Saturday of a civil date. */
  function IsoWeekday(d: Date): int { Weekday(DayNumber(d)) }

  /** `mondayOf` of the staff app. */
  function MondayOf(d: Date): Date {
    DayShift(d, -((IsoWeekday(d) + 6) % 7))
  }

  lemma MondayBefore(day: int, n: int)
    ensures n == day - ((Weekday(day) + 6) % 7) <==> (day - 7 < n <= day && Weekday(n) == 1)
  {
  }

  /** `mondayOf` is the only Monday among the day itself and the six before it. */
  lemma MondayOfIsTheWeeksMonday(d: Date, n: int)
    requires Valid(d)
    ensures n == DayNumber(MondayOf(d)) <==> (DayNumber(d) - 7 < n <= DayNumber(d) && Weekday(n) == 1)
  {
    hide DateOf, DayNumber, DayShift;
    DayShiftMoves(d, -((IsoWeekday(d) + 6) % 7));
    MondayBefore(DayNumber(d), n);
  }

  // ---- the calendar in figures ----

  /** The lengths of the months. */
  lemma MonthLengths(y: int, m: int)
    ensures m in {1, 3, 5, 7, 8, 10, 12} ==> DaysInMonth(y, m) == 31
    ensures m in {4, 6, 9, 11} ==> DaysInMonth(y, m) == 30
    ensures DaysInMonth(y, 2) == if y % 400 == 0 || (y % 4 == 0 && y % 100 != 0) then 29 else 28
  {
    RestOfRest(y, 4, 100);
    RestOfRest(y, 25, 4);
  }

  /** The next date on the calendar. */
  function FollowingDay(d: Date): Date {
    if d.day < DaysInMonth(d.year, d.month) then Date(d.year, d.month, d.day + 1)
    else if d.month < 12 then Date(d.year, d.month + 1, 1)
    else Date(d.year + 1, 1, 1)
  }

  lemma FirstYear()
    ensures DayFromYear(1970) == 0
  {
  }

  /** Day numbers count the dates of the calendar one by one from 1970-01-01 on. */
  lemma DaysFollow(d: Date)
    requires Valid(d)
    ensures DayNumber(Date(1970, 1, 1)) == 0
    ensures Valid(FollowingDay(d)) && DayNumber(FollowingDay(d)) == DayNumber(d) + 1
  {
    YearLength(d.year);
    hide DayFromYear;
    assert DayFromYear(1970) == 0 by { FirstYear(); }
  }

  lemma NextWeekday(n: int)
    ensures Weekday(0) == 4 && Weekday(n + 1) == (Weekday(n) + 1) % 7
  {
    QuotientFacts(n + 4, 7);
    var q, r := (n + 4) / 7, (n + 4) % 7;
    QuotientIs(n + 5, 7, if r == 6 then q + 1 else q, if r == 6 then 0 else r + 1);
  }

  /** 1970-01-01 was a Thursday, and the days of the week follow each other. */
  lemma WeekdaysFollow(d: Date, n: int)
    requires Valid(d)
    ensures Weekday(0) == 4 && Weekday(n + 1) == (Weekday(n) + 1) % 7
    ensures IsoWeekday(Date(1970, 1, 1)) == 4 && IsoWeekday(FollowingDay(d)) == (IsoWeekday(d) + 1) % 7
  {
    DaysFollow(d);
    NextWeekday(n);
    NextWeekday(DayNumber(d));
    hide DayNumber, FollowingDay;
  }
}
