/** Europe/Berlin against UTC. Instants are milliseconds since 1970-01-01T00:00Z.
    Summer time runs from 01:00 UTC on the last Sunday of March to 01:00 UTC on
    the last Sunday of October (Articles 2 and 3 of Directive 2000/84/EC). */
module BerlinTime {
  import opened Calendar
  import opened Division
  import opened Durations

  const WINTER := HOUR
  const SUMMER := 2 * HOUR

  /** What `berlinParts` reads off an instant. */
  datatype Parts = Parts(date: Date, hour: int, minute: int)

  predicate ValidTime(hour: int, minute: int) {
    0 <= hour < 24 && 0 <= minute < 60
  }

  function SundayOnOrBefore(n: int): int { n - Weekday(n) }

  /** Last Sunday of March, respectively October, as a day number. */
  function MarchSunday(y: int): int { SundayOnOrBefore(DayNumber(Date(y, 3, 31))) }

  function OctoberSunday(y: int): int { SundayOnOrBefore(DayNumber(Date(y, 10, 31))) }

  function MarchSwitch(y: int): int { MarchSunday(y) * DAY + HOUR }

  function OctoberSwitch(y: int): int { OctoberSunday(y) * DAY + HOUR }

  predicate IsSummer(y: int, t: int) { MarchSwitch(y) <= t < OctoberSwitch(y) }

  function Offset(t: int): int {
    if IsSummer(YearOf(t / DAY), t) then SUMMER else WINTER
  }

  /** The Berlin wall clock at instant `t`, written as if it were UTC. */
  function Local(t: int): int { t + Offset(t) }

  function LocalDay(t: int): int { Local(t) / DAY }

  function BerlinParts(t: int): Parts {
    var w := Local(t);
    Parts(DateOf(w / DAY), w % DAY / HOUR, w % HOUR / MINUTE)
  }

  function BerlinDateOf(t: int): Date { BerlinParts(t).date }

  function Wall(d: Date, hour: int, minute: int): int {
    DayNumber(d) * DAY + hour * HOUR + minute * MINUTE
  }

  /** `new Date("<date>T<hour>:<minute>:00<offset>")` */
  function AtOffset(d: Date, hour: int, minute: int, offset: int): int {
    Wall(d, hour, minute) - offset
  }

  /** Tries +01:00, then +02:00; a wall time that neither reproduces is read at +01:00. */
  function BerlinDateTimeToUtc(d: Date, hour: int, minute: int): int {
    var winter := AtOffset(d, hour, minute, WINTER);
    var summer := AtOffset(d, hour, minute, SUMMER);
    if BerlinParts(winter) == Parts(d, hour, minute) then winter
    else if BerlinParts(summer) == Parts(d, hour, minute) then summer
    else winter
  }

  predicate BerlinLocalTimeExists(d: Date, hour: int, minute: int) {
    BerlinParts(BerlinDateTimeToUtc(d, hour, minute)) == Parts(d, hour, minute)
  }

  function BerlinStartOfDay(d: Date): int { BerlinDateTimeToUtc(d, 0, 0) }

  predicate IsLastSundayOf(d: Date, month: int) {
    Valid(d) && d.month == month && IsoWeekday(d) == 0 && d.day + 7 > 31
  }

  // ---- where the switches lie in the year ----

  lemma SwitchDays(y: int)
    ensures DayFromYear(y) + 83 <= MarchSunday(y) <= DayFromYear(y) + 90
    ensures DayFromYear(y) + 297 <= OctoberSunday(y) <= DayFromYear(y) + 304
    ensures DayFromYear(y) + 365 <= DayFromYear(y + 1)
  {
    YearLength(y);
    hide DayFromYear;
  }

  lemma YearBounds(t: int, y: int)
    requires YearOf(t / DAY) == y
    ensures DayFromYear(y) * DAY <= t < DayFromYear(y + 1) * DAY
  {
    hide DayFromYear;
  }

  /** Near year `y` only the two switches of `y` matter. */
  lemma SeasonNear(t: int, y: int)
    requires OctoberSwitch(y - 1) <= t < MarchSwitch(y + 1)
    ensures Offset(t) == if IsSummer(y, t) then SUMMER else WINTER
  {
    hide DayFromYear, YearOf, MarchSunday, OctoberSunday;
    var z := YearOf(t / DAY);
    YearBounds(t, z);
    SwitchDays(y - 1);
    SwitchDays(y);
    SwitchDays(y + 1);
    SwitchDays(z);
    if z < y - 1 { YearsIncrease(z + 1, y - 1); }
    if y + 1 < z { YearsIncrease(y + 1, z); }
  }

  /** A wall time is near the year it is written in, at either offset. */
  lemma WallNearItsYear(w: int, y: int)
    requires YearOf(w / DAY) == y
    ensures OctoberSwitch(y - 1) <= w - SUMMER && w - WINTER < MarchSwitch(y + 1)
    ensures MarchSwitch(y) < OctoberSwitch(y)
  {
    hide DayFromYear, YearOf, MarchSunday, OctoberSunday;
    YearBounds(w, y);
    SwitchDays(y - 1);
    SwitchDays(y);
    SwitchDays(y + 1);
  }

  // ---- which instants show a wall time ----

  /** 02:00-02:59 on the last Sunday of March: skipped by the clock. */
  predicate InGap(w: int) {
    var switch := MarchSwitch(YearOf(w / DAY));
    switch + WINTER <= w < switch + SUMMER
  }

  /** 02:00-02:59 on the last Sunday of October: shown twice. */
  predicate InDoubledHour(w: int) {
    var switch := OctoberSwitch(YearOf(w / DAY));
    switch + WINTER <= w < switch + SUMMER
  }

  predicate SummerWall(w: int) {
    var y := YearOf(w / DAY);
    MarchSwitch(y) + SUMMER <= w < OctoberSwitch(y) + SUMMER
  }

  /** Which of the two candidate instants shows the wall time `w`. */
  lemma CandidatesShow(w: int)
    ensures Local(w - WINTER) == w <==> !InGap(w) && (SummerWall(w) ==> InDoubledHour(w))
    ensures Local(w - SUMMER) == w <==> SummerWall(w)
  {
    hide DayFromYear, YearOf, MarchSunday, OctoberSunday;
    var y := YearOf(w / DAY);
    WallNearItsYear(w, y);
    SeasonNear(w - WINTER, y);
    SeasonNear(w - SUMMER, y);
  }

  /** The instant `berlinDateTimeToUtc` picks, on wall clocks in milliseconds. */
  function Pick(w: int): int {
    if Local(w - WINTER) == w then w - WINTER
    else if Local(w - SUMMER) == w then w - SUMMER
    else w - WINTER
  }

  lemma CandidatesRead(w: int)
    ensures Local(w - WINTER) in {w, w + HOUR} && Local(w - SUMMER) in {w, w - HOUR}
  {
    hide IsSummer, YearOf;
  }

  /** Only the two candidates can show a wall time. */
  lemma OnlyTwoCandidates(w: int, t: int)
    ensures Local(t) == w ==> t == w - WINTER || t == w - SUMMER
  {
    hide IsSummer, YearOf;
  }

  lemma GapIsNotSummer(w: int)
    ensures InGap(w) ==> !SummerWall(w)
    ensures InDoubledHour(w) ==> SummerWall(w) && !InGap(w)
  {
    hide YearOf, MarchSunday, OctoberSunday;
    WallNearItsYear(w, YearOf(w / DAY));
    SwitchDays(YearOf(w / DAY));
  }

  /** Inside the gap no instant shows the wall time; in the doubled hour two do,
      and the second (CET) is picked; everywhere else exactly one does. */
  lemma PickIsTheLastShowing(w: int, t: int)
    ensures !InGap(w) <==> Local(Pick(w)) == w
    ensures Local(t) == w ==> !InGap(w) && (t == Pick(w) || (InDoubledHour(w) && t == Pick(w) - HOUR))
    ensures InDoubledHour(w) ==> Pick(w) == w - WINTER && Local(Pick(w) - HOUR) == w
  {
    CandidatesShow(w);
    GapIsNotSummer(w);
    CandidatesRead(w);
    OnlyTwoCandidates(w, t);
    hide InGap, InDoubledHour, SummerWall, Local;
  }

  // ---- the conversion on dates ----

  lemma DateOfIs(n: int, d: Date)
    requires Valid(d)
    ensures DateOf(n) == d <==> n == DayNumber(d)
  {
    DateRoundTrip(d);
  }

  /** Two times with the rest of a minute lie in the same minute exactly when all their digits agree. */
  lemma SameDigits(n: int, h: int, m: int, rest: int, day: int, hour: int, minute: int)
    requires 0 <= h < 24 && 0 <= m < 60 && 0 <= rest < MINUTE && ValidTime(hour, minute)
    ensures (n == day && h == hour && m == minute) <==>
      var start := day * DAY + hour * HOUR + minute * MINUTE;
      start <= n * DAY + h * HOUR + m * MINUTE + rest < start + MINUTE
  {
    var w := n * DAY + h * HOUR + m * MINUTE + rest;
    var over := w - (day * DAY + hour * HOUR + minute * MINUTE);
    if 0 <= over < MINUTE {
      SameQuotient(DAY, n, h * HOUR + m * MINUTE + rest, day, hour * HOUR + minute * MINUTE + over);
      SameQuotient(HOUR, h, m * MINUTE + rest, hour, minute * MINUTE + over);
      SameQuotient(MINUTE, m, rest, minute, over);
    }
  }

  lemma ClockDigits(w: int, n: int, hour: int, minute: int)
    requires ValidTime(hour, minute)
    ensures (w / DAY == n && w % DAY / HOUR == hour && w % HOUR / MINUTE == minute)
       <==> n * DAY + hour * HOUR + minute * MINUTE <= w < n * DAY + hour * HOUR + minute * MINUTE + MINUTE
  {
    RestOfRest(w, 24, HOUR);
    QuotientFacts(w, DAY);
    QuotientFacts(w % DAY, HOUR);
    QuotientFacts(w % HOUR, MINUTE);
    SameDigits(w / DAY, w % DAY / HOUR, w % HOUR / MINUTE, w % HOUR % MINUTE, n, hour, minute);
  }

  /** The parts of an instant are those of a wall time exactly while its minute runs. */
  lemma PartsMatch(t: int, d: Date, hour: int, minute: int)
    requires Valid(d) && ValidTime(hour, minute)
    ensures BerlinParts(t) == Parts(d, hour, minute)
       <==> Wall(d, hour, minute) <= Local(t) < Wall(d, hour, minute) + MINUTE
  {
    hide Local, DateOf, DayNumber;
    var w := Local(t);
    DateOfIs(w / DAY, d);
    ClockDigits(w, DayNumber(d), hour, minute);
  }

  /** The two-candidate search on dates is `Pick` on the wall clock. */
  lemma ConversionIsPick(d: Date, hour: int, minute: int)
    requires Valid(d) && ValidTime(hour, minute)
    ensures BerlinDateTimeToUtc(d, hour, minute) == Pick(Wall(d, hour, minute))
  {
    hide BerlinParts, Wall, IsSummer, YearOf;
    var w := Wall(d, hour, minute);
    hide Local;
    PartsMatch(w - WINTER, d, hour, minute);
    PartsMatch(w - SUMMER, d, hour, minute);
    CandidatesRead(w);
  }

  lemma DaysOfAMonth(y: int, m: int, d: Date)
    ensures d.year == y && d.month == m ==> DayNumber(d) == DayNumber(Date(y, m, 31)) - (31 - d.day)
  {
  }

  lemma WeekdayBack(n: int, k: int)
    ensures Weekday(n - k) == 0 <==> Weekday(n) == k % 7
  {
  }

  lemma SwitchDate(y: int, m: int, d: Date)
    requires Valid(d) && m in {3, 10}
    ensures DayNumber(d) == SundayOnOrBefore(DayNumber(Date(y, m, 31))) <==> d.year == y && IsLastSundayOf(d, m)
  {
    hide DayNumber;
    var last := Date(y, m, 31);
    var sunday := Date(y, m, 31 - Weekday(DayNumber(last)));
    DaysOfAMonth(y, m, d);
    DaysOfAMonth(y, m, sunday);
    SameDay(d, sunday);
    assert IsLastSundayOf(d, m) && d.year == y ==> Weekday(DayNumber(last)) == (31 - d.day) % 7 by {
      WeekdayBack(DayNumber(last), 31 - d.day);
    }
    WeekdayBack(DayNumber(last), 31 - sunday.day);
  }

  // ---- the clock in figures ----

  lemma LastSunday(day: int, n: int)
    ensures n == SundayOnOrBefore(day) <==> day - 7 < n <= day && Weekday(n) == 0
  {
    QuotientFacts(day + 4, 7);
    QuotientFacts(n + 4, 7);
    var back := Weekday(day);
    QuotientIs(day - back + 4, 7, (day + 4) / 7, 0);
  }

  /** The last Sundays of March and of October. */
  lemma LastSundays(y: int, n: int)
    ensures n == MarchSunday(y) <==>
      DayNumber(Date(y, 3, 31)) - 7 < n <= DayNumber(Date(y, 3, 31)) && Weekday(n) == 0
    ensures n == OctoberSunday(y) <==>
      DayNumber(Date(y, 10, 31)) - 7 < n <= DayNumber(Date(y, 10, 31)) && Weekday(n) == 0
  {
    hide DayNumber;
    LastSunday(DayNumber(Date(y, 3, 31)), n);
    LastSunday(DayNumber(Date(y, 10, 31)), n);
  }

  /** The Berlin clock is two hours ahead from 01:00 UTC on the last Sunday of March to 01:00 UTC on the last Sunday
      of October, and one hour ahead otherwise. */
  lemma BerlinIsAhead(t: int, march: int, october: int)
    requires var y := DateOf(t / 86_400_000).year;
      && DayNumber(Date(y, 3, 31)) - 7 < march <= DayNumber(Date(y, 3, 31)) && Weekday(march) == 0
      && DayNumber(Date(y, 10, 31)) - 7 < october <= DayNumber(Date(y, 10, 31)) && Weekday(october) == 0
    ensures Local(t) == t +
      if march * 86_400_000 + 3_600_000 <= t < october * 86_400_000 + 3_600_000 then 7_200_000 else 3_600_000
  {
    var d := DateOf(t / DAY);
    InsideItsYear(d);
    LastSundays(d.year, march);
    LastSundays(d.year, october);
    hide DayNumber, DateOf, YearOf, Weekday, MarchSunday, OctoberSunday;
  }

  /** The parts of an instant are its Berlin clock in days, hours and minutes. */
  lemma PartsInFigures(t: int, d: Date, hour: int, minute: int)
    requires Valid(d) && 0 <= hour < 24 && 0 <= minute < 60
    ensures BerlinParts(t) == Parts(d, hour, minute) <==>
      var start := DayNumber(d) * 86_400_000 + hour * 3_600_000 + minute * 60_000;
      start <= Local(t) < start + 60_000
    ensures LocalDay(t) == Local(t) / 86_400_000
  {
    PartsMatch(t, d, hour, minute);
    hide BerlinParts, DayNumber, Local;
  }
}
