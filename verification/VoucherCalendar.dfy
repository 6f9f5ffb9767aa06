/** Calendar arithmetic of the returning-customer voucher: days and months later
    at the same Berlin wall clock. This third conversion prefers the summer
    reading, so it takes the first pass of the repeated hour. */
module VoucherCalendar {
  import opened Calendar
  import opened BerlinTime
  import opened Division
  import opened Durations
  import opened BerlinClock

  const VOUCHER_VALIDITY_MONTHS := 12

  function NaiveUtc(d: Date, hour: int, minute: int, second: int): int {
    MakeDay(d.year, d.month - 1, d.day) * DAY + hour * HOUR + minute * MINUTE + second * SECOND
  }

  function SecondsOf(t: int): int { Local(t) % MINUTE / SECOND }

  /** Tries +02:00, then +01:00, comparing down to the minute. */
  function BerlinWallClockToInstant(d: Date, hour: int, minute: int, second: int): int {
    var naive := NaiveUtc(d, hour, minute, second);
    if BerlinParts(naive - SUMMER) == Parts(d, hour, minute) then naive - SUMMER
    else if BerlinParts(naive - WINTER) == Parts(d, hour, minute) then naive - WINTER
    else naive - 1 * HOUR
  }

  function AddBerlinCalendarDays(t: int, days: int): int {
    var p := BerlinParts(t);
    var shifted := DateOf(MakeDay(p.date.year, p.date.month - 1, p.date.day + days));
    BerlinWallClockToInstant(shifted, p.hour, p.minute, SecondsOf(t))
  }

  /** `new Date(Date.UTC(year, month, 0)).getUTCDate()`: day 0 of the next month. */
  function LastDayOf(year: int, month: int): int {
    DateOf(MakeDay(year, month, 0)).day
  }

  /** The civil date `months` later, its day capped to the length of the month. */
  function MonthsLater(d: Date, months: int): Date {
    var total := d.month - 1 + months;
    var year := d.year + total / 12;
    var month := (total % 12 + 12) % 12 + 1;
    var last := LastDayOf(year, month);
    Date(year, month, if d.day < last then d.day else last)
  }

  function AddBerlinCalendarMonths(t: int, months: int): int {
    var p := BerlinParts(t);
    BerlinWallClockToInstant(MonthsLater(p.date, months), p.hour, p.minute, SecondsOf(t))
  }

  function VoucherExpiresAt(activatedAt: int): int {
    AddBerlinCalendarMonths(activatedAt, VOUCHER_VALIDITY_MONTHS)
  }

  /** The search on wall clocks in milliseconds. */
  function PickFirst(w: int): int {
    if Local(w - SUMMER) == w then w - SUMMER else w - WINTER
  }

  /** `PickFirst` is the earliest instant that shows `w`, and shows one hour later in the gap. */
  lemma PickFirstIsTheEarliest(w: int, t: int)
    ensures Local(PickFirst(w)) == w + (if InGap(w) then HOUR else 0)
    ensures Local(t) == w ==> t == PickFirst(w) || (InDoubledHour(w) && t == PickFirst(w) + HOUR)
    ensures InDoubledHour(w) ==> PickFirst(w) == w - SUMMER && Local(w - WINTER) == w
  {
    CandidatesShow(w);
    GapIsNotSummer(w);
    CandidatesRead(w);
    OnlyTwoCandidates(w, t);
    hide InGap, InDoubledHour, SummerWall, Local;
  }

  lemma ConversionIsPickFirst(d: Date, hour: int, minute: int, second: int)
    requires Valid(d) && ValidTime(hour, minute) && 0 <= second < 60
    ensures BerlinWallClockToInstant(d, hour, minute, second)
         == PickFirst(DayNumber(d) * DAY + hour * HOUR + minute * MINUTE + second * SECOND)
  {
    hide BerlinParts, DayNumber, MakeDay, IsSummer, YearOf;
    MakeDayOfDate(d, 0);
    var w := NaiveUtc(d, hour, minute, second);
    hide Local;
    PartsMatch(w - SUMMER, d, hour, minute);
    PartsMatch(w - WINTER, d, hour, minute);
    CandidatesRead(w);
  }

  lemma MinuteBefore(w: int, rest: int)
    requires w % MINUTE == 0 && 0 <= rest < MINUTE
    ensures MinuteOf(w + rest - SUMMER) == w - SUMMER
  {
    QuotientFacts(w, MINUTE);
    QuotientIs(w + rest - SUMMER, MINUTE, w / MINUTE - 120, rest);
  }

  lemma SameOffsetSamePick(w: int, rest: int)
    requires Offset(w + rest - SUMMER) == Offset(w - SUMMER)
    ensures PickFirst(w + rest) == PickFirst(w) + rest
  {
    hide Offset;
  }

  lemma PickFirstInAMinute(w: int, rest: int)
    requires w % MINUTE == 0 && 0 <= rest < MINUTE
    ensures PickFirst(w + rest) == PickFirst(w) + rest
  {
    hide *;
    MinuteBefore(w, rest);
    OffsetOfMinute(w + rest - SUMMER);
    SameOffsetSamePick(w, rest);
  }

  lemma PickFirstAgainstPick(w: int)
    ensures Pick(w) == PickFirst(w) + (if InDoubledHour(w) then HOUR else 0)
  {
    CandidatesShow(w);
    GapIsNotSummer(w);
    hide InGap, InDoubledHour, SummerWall, Local;
  }

  lemma WallIs(d: Date, hour: int, minute: int)
    ensures Wall(d, hour, minute) == DayNumber(d) * DAY + hour * HOUR + minute * MINUTE
  {
  }

  /** The third conversion against the shared one: the same instant, seconds added, except in the repeated
      October hour, where it takes the first pass, one hour earlier. */
  lemma TakesTheFirstPass(d: Date, hour: int, minute: int, second: int)
    requires Valid(d) && ValidTime(hour, minute) && 0 <= second < 60
    ensures BerlinWallClockToInstant(d, hour, minute, second) ==
      BerlinDateTimeToUtc(d, hour, minute) - (if RepeatedHour(d, hour) then HOUR else 0) + second * SECOND
  {
    hide BerlinWallClockToInstant, BerlinDateTimeToUtc, PickFirst, Pick, InGap, InDoubledHour, IsLastSundayOf, Wall;
    var w := Wall(d, hour, minute);
    WallIsWholeMinute(d, hour, minute);
    ConversionIsPickFirst(d, hour, minute, second);
    ConversionIsPick(d, hour, minute);
    SpecialHours(d, hour, minute);
    PickFirstInAMinute(w, second * SECOND);
    PickFirstAgainstPick(w);
    assert w == DayNumber(d) * DAY + hour * HOUR + minute * MINUTE by { WallIs(d, hour, minute); }
  }

  /** The end of the skipped hour on the wall clock. */
  function Three(y: int): int { MarchSwitch(y) + SUMMER }

  lemma RestOfTheGap(w: int, x: int)
    requires InGap(w) && w <= x < Three(YearOf(w / DAY))
    ensures InGap(x)
  {
    hide YearOf, MarchSunday;
    var n := MarchSunday(YearOf(w / DAY));
    var start := n * DAY;
    assert start + 2 * HOUR <= w <= x < start + 3 * HOUR;
    QuotientIs(w, DAY, n, w - start);
    QuotientIs(x, DAY, n, x - start);
  }

  lemma ThreeIsShown(w: int)
    requires InGap(w)
    ensures Local(Three(YearOf(w / DAY)) - SUMMER) == Three(YearOf(w / DAY))
  {
    hide YearOf, MarchSunday, OctoberSunday, Local;
    var y := YearOf(w / DAY);
    var n := MarchSunday(y);
    var start := n * DAY;
    assert start + 2 * HOUR <= w < start + 3 * HOUR && Three(y) == start + 3 * HOUR;
    QuotientIs(w, DAY, n, w - start);
    QuotientIs(Three(y), DAY, n, 3 * HOUR);
    SwitchDays(y);
    CandidatesShow(Three(y));
  }

  /** From a skipped wall time on, the clock next shows 03:00. The conversion gives that time exactly for
      02:00:00; it moves every other skipped time past it. */
  lemma NextValidTimeOnlyFromTwo(w: int)
    requires InGap(w)
    ensures var three := Three(YearOf(w / DAY));
      && (forall t :: !(w <= Local(t) < three))
      && Local(three - SUMMER) == three
      && (Local(PickFirst(w)) == three <==> w == three - HOUR)
  {
    hide Local, YearOf, PickFirst, InGap, InDoubledHour, Three;
    ThreeIsShown(w);
    PickFirstIsTheEarliest(w, 0);
    forall t ensures !(w <= Local(t) < Three(YearOf(w / DAY))) {
      if w <= Local(t) < Three(YearOf(w / DAY)) {
        RestOfTheGap(w, Local(t));
        PickIsTheLastShowing(Local(t), t);
      }
    }
  }

  /** The wall clock of an instant down to the second. */
  function Clock(t: int): int { Local(t) - Local(t) % SECOND }

  lemma NestedMod(w: int)
    ensures w % DAY % HOUR == w % HOUR && w % HOUR % MINUTE == w % MINUTE && w % MINUTE % SECOND == w % SECOND
  {
    RestOfRest(w, 24, HOUR);
    RestOfRest(w, 60, MINUTE);
    RestOfRest(w, 60, SECOND);
  }

  lemma ClockSum(w: int)
    ensures w - w % SECOND == w / DAY * DAY + w % DAY / HOUR * HOUR + w % HOUR / MINUTE * MINUTE
      + w % MINUTE / SECOND * SECOND
    ensures 0 <= w % MINUTE / SECOND < 60
  {
    NestedMod(w);
  }

  lemma ClockOf(t: int)
    ensures var p := BerlinParts(t);
      && Valid(p.date) && ValidTime(p.hour, p.minute) && 0 <= SecondsOf(t) < 60
      && Clock(t) == DayNumber(p.date) * DAY + p.hour * HOUR + p.minute * MINUTE + SecondsOf(t) * SECOND
  {
    hide Local, DateOf, DayNumber, Valid;
    PartsOf(t);
    ClockSum(Local(t));
  }

  lemma AddDaysIsPickFirst(t: int, days: int)
    ensures AddBerlinCalendarDays(t, days) == PickFirst(Clock(t) + days * DAY)
  {
    hide BerlinParts, DateOf, DayNumber, MakeDay, BerlinWallClockToInstant, PickFirst, Clock, SecondsOf, Valid;
    var p := BerlinParts(t);
    ClockOf(t);
    MakeDayOfDate(p.date, days);
    var shifted := DateOf(DayNumber(p.date) + days);
    ConversionIsPickFirst(shifted, p.hour, p.minute, SecondsOf(t));
  }

  /** `days` calendar days later the Berlin clock shows the same time of day on the shifted date;
      only a target inside the skipped hour moves on by an hour. */
  lemma SameWallClockDaysLater(t: int, days: int)
    ensures var target := Clock(t) + days * DAY;
      Local(AddBerlinCalendarDays(t, days)) == target + (if InGap(target) then HOUR else 0)
  {
    hide AddBerlinCalendarDays, PickFirst, Clock, InGap, InDoubledHour, Local;
    AddDaysIsPickFirst(t, days);
    PickFirstIsTheEarliest(Clock(t) + days * DAY, 0);
  }

  /** Instants in the second pass of the repeated hour. */
  predicate SecondPass(t: int) { InDoubledHour(Local(t)) && t == Local(t) - WINTER }

  lemma ClockIsLocal(t: int)
    ensures Local(t) % SECOND == 0 ==> Clock(t) == Local(t)
  {
    hide Local;
  }

  lemma WholeSum(t: int, offset: int, days: int)
    requires t % SECOND == 0 && offset % SECOND == 0
    ensures (t + offset) % SECOND == 0
    ensures (t + offset + days * DAY) % SECOND == 0 && (t + offset + days * DAY + HOUR) % SECOND == 0
  {
    QuotientFacts(t, SECOND);
    QuotientFacts(offset, SECOND);
    var seconds := t / SECOND + offset / SECOND;
    QuotientIs(t + offset, SECOND, seconds, 0);
    QuotientIs(t + offset + days * DAY, SECOND, seconds + 86_400 * days, 0);
    QuotientIs(t + offset + days * DAY + HOUR, SECOND, seconds + 86_400 * days + 3600, 0);
  }

  lemma WholeSeconds(t: int, w: int, days: int)
    requires t % SECOND == 0 && w == Local(t)
    ensures w % SECOND == 0 && (w + days * DAY) % SECOND == 0 && (w + days * DAY + HOUR) % SECOND == 0
  {
    hide IsSummer, YearOf;
    var offset := Offset(t);
    assert offset % SECOND == 0;
    hide Offset;
    WholeSum(t, offset, days);
  }

  /** The instant that shows `w` is never the one picked for an hour later. */
  lemma OneHourLater(t: int)
    ensures PickFirst(Local(t) + HOUR) != t
  {
    hide IsSummer, YearOf;
  }

  /** Going `days` forth and back returns to a whole-second instant exactly when the target was
      not skipped by the clock and the start was not in the second pass of the repeated hour. */
  lemma DaysForthAndBack(t: int, days: int)
    requires t % SECOND == 0
    ensures AddBerlinCalendarDays(AddBerlinCalendarDays(t, days), -days) == t
       <==> !InGap(Local(t) + days * DAY) && !SecondPass(t)
  {
    hide AddBerlinCalendarDays, InGap, InDoubledHour, Local, Clock, PickFirst;
    var w := Local(t);
    var u := AddBerlinCalendarDays(t, days);
    var target := w + days * DAY;
    WholeSeconds(t, w, days);
    ClockIsLocal(t);
    AddDaysIsPickFirst(t, days);
    PickFirstIsTheEarliest(target, 0);
    ClockIsLocal(u);
    AddDaysIsPickFirst(u, -days);
    PickFirstIsTheEarliest(w, t);
    if InGap(target) {
      assert Clock(u) - days * DAY == w + HOUR;
      OneHourLater(t);
    }
  }

  lemma DayZero(year: int, month: int)
    requires 1 <= month <= 12
    ensures MakeDay(year, month, 0) == DayNumber(Date(year, month, DaysInMonth(year, month)))
  {
    YearLength(year);
    hide DayFromYear;
    if month == 12 {
      assert month / 12 == 1 && month % 12 == 0;
    } else {
      assert month / 12 == 0 && month % 12 == month;
    }
  }

  /** `daysInMonth` through day 0 of the following month is the length of the month. */
  lemma LastDayIsTheMonthsLength(year: int, month: int)
    requires 1 <= month <= 12
    ensures LastDayOf(year, month) == DaysInMonth(year, month)
  {
    var last := Date(year, month, DaysInMonth(year, month));
    assert DayNumber(last) == MakeDay(year, month, 0) by { DayZero(year, month); }
    DateRoundTrip(last);
  }

  /** `months` later: the month counted on, the day kept or capped to the month's last. */
  lemma MonthsLaterCountsOn(d: Date, months: int)
    requires Valid(d)
    ensures var r := MonthsLater(d, months);
      && Valid(r)
      && 12 * r.year + r.month == 12 * d.year + d.month + months
      && (r.day == d.day || (r.day < d.day && r.day == DaysInMonth(r.year, r.month)))
  {
    hide LastDayOf;
    var r := MonthsLater(d, months);
    LastDayIsTheMonthsLength(r.year, r.month);
  }

  /** `months` calendar months later the Berlin clock shows the same time of day on the counted-on date;
      only a target inside the skipped hour moves on by an hour. */
  lemma SameWallClockMonthsLater(t: int, months: int)
    ensures var e := MonthsLater(BerlinParts(t).date, months);
      var target := DayNumber(e) * DAY + Clock(t) % DAY;
      Valid(e) && Local(AddBerlinCalendarMonths(t, months)) == target + (if InGap(target) then HOUR else 0)
  {
    hide BerlinParts, DayNumber, BerlinWallClockToInstant, PickFirst, InGap, InDoubledHour, Clock, SecondsOf, Local,
      MonthsLater;
    var p := BerlinParts(t);
    var e := MonthsLater(p.date, months);
    ClockOf(t);
    MonthsLaterCountsOn(p.date, months);
    ConversionIsPickFirst(e, p.hour, p.minute, SecondsOf(t));
    PickFirstIsTheEarliest(DayNumber(e) * DAY + p.hour * HOUR + p.minute * MINUTE + SecondsOf(t) * SECOND, 0);
  }

  /** A voucher expires at the same Berlin wall clock one year later; 29 February is capped to
      the 28th, and a target inside the skipped hour moves on by an hour. */
  lemma VoucherLastsOneBerlinYear(t: int)
    ensures var p := BerlinParts(t).date;
      var e := Date(p.year + 1, p.month, if p.month == 2 && p.day == 29 then 28 else p.day);
      var target := DayNumber(e) * DAY + Clock(t) % DAY;
      Valid(e) && Local(VoucherExpiresAt(t)) == target + (if InGap(target) then HOUR else 0)
  {
    PartsOf(t);
    hide BerlinParts, DayNumber, AddBerlinCalendarMonths, InGap, Clock, Local, MonthsLater;
    SameWallClockMonthsLater(t, VOUCHER_VALIDITY_MONTHS);
    MonthsLaterCountsOn(BerlinParts(t).date, VOUCHER_VALIDITY_MONTHS);
  }
}
