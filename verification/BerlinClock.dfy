/** What `berlinDateTimeToUtc`, `berlinLocalTimeExists` and `berlinDateOf`
    promise, for every date, time of day and instant. */
module BerlinClock {
  import opened Calendar
  import opened BerlinTime
  import opened Division
  import opened Durations

  predicate SkippedHour(d: Date, hour: int) { hour == 2 && IsLastSundayOf(d, 3) }

  predicate RepeatedHour(d: Date, hour: int) { hour == 2 && IsLastSundayOf(d, 10) }

  lemma SpecialHours(d: Date, hour: int, minute: int)
    requires Valid(d) && ValidTime(hour, minute)
    ensures InGap(Wall(d, hour, minute)) <==> SkippedHour(d, hour)
    ensures InDoubledHour(Wall(d, hour, minute)) <==> RepeatedHour(d, hour)
  {
    hide DayNumber, DateOf, YearOf, DayFromYear, IsLastSundayOf, SundayOnOrBefore, Valid;
    var w := Wall(d, hour, minute);
    assert w / DAY == DayNumber(d);
    InsideItsYear(d);
    SwitchDate(d.year, 3, d);
    SwitchDate(d.year, 10, d);
  }

  lemma PickReadsNear(w: int)
    ensures Local(Pick(w)) in {w, w + HOUR}
  {
    CandidatesShow(w);
    GapIsNotSummer(w);
    hide IsSummer, InGap, InDoubledHour, SummerWall, YearOf;
  }

  /** A Berlin wall time fails to exist exactly from 02:00 to 02:59 on the last Sunday of March. */
  lemma ExistsExactlyOutsideTheGap(d: Date, hour: int, minute: int)
    requires Valid(d) && ValidTime(hour, minute)
    ensures BerlinLocalTimeExists(d, hour, minute) <==> !SkippedHour(d, hour)
  {
    hide BerlinParts, Pick, InGap, InDoubledHour, IsLastSundayOf;
    var w := Wall(d, hour, minute);
    ConversionIsPick(d, hour, minute);
    PickIsTheLastShowing(w, 0);
    PartsMatch(Pick(w), d, hour, minute);
    SpecialHours(d, hour, minute);
    PickReadsNear(w);
  }

  /** The whole minute an instant lies in. */
  function MinuteOf(t: int): int { t - t % MINUTE }

  lemma MinuteFacts(w: int, x: int)
    requires w % MINUTE == 0
    ensures w <= x <==> w <= MinuteOf(x)
    ensures w <= x < w + MINUTE <==> MinuteOf(x) == w
  {
    QuotientFacts(w, MINUTE);
    QuotientFacts(x, MINUTE);
  }

  lemma MinuteShift(t: int)
    ensures MinuteOf(t + HOUR) == MinuteOf(t) + HOUR
    ensures MinuteOf(t + 2 * HOUR) == MinuteOf(t) + 2 * HOUR
    ensures MinuteOf(t) / DAY == t / DAY
  {
    var q, r := t / MINUTE, t % MINUTE;
    QuotientFacts(t, MINUTE);
    QuotientIs(t + HOUR, MINUTE, q + 60, r);
    QuotientIs(t + 2 * HOUR, MINUTE, q + 120, r);
    QuotientFacts(t, DAY);
    RestOfRest(t, 1440, MINUTE);
    QuotientFacts(t % DAY, MINUTE);
    QuotientIs(t - r, DAY, t / DAY, t % DAY - r);
  }

  lemma SwitchMinute(n: int)
    ensures (n * DAY + HOUR) % MINUTE == 0 && (n * DAY) % MINUTE == 0
  {
    QuotientIs(n * DAY, MINUTE, 1440 * n, 0);
    QuotientIs(n * DAY + HOUR, MINUTE, 1440 * n + 60, 0);
  }

  /** The clock switches at whole minutes. */
  lemma SeasonOfMinute(t: int, y: int)
    ensures IsSummer(y, MinuteOf(t)) <==> IsSummer(y, t)
    ensures OctoberSwitch(y) - HOUR <= MinuteOf(t) < OctoberSwitch(y)
      <==> OctoberSwitch(y) - HOUR <= t < OctoberSwitch(y)
  {
    hide MarchSunday, OctoberSunday, MinuteOf;
    SwitchMinute(MarchSunday(y));
    SwitchMinute(OctoberSunday(y));
    MinuteFacts(MarchSwitch(y), t);
    MinuteFacts(OctoberSwitch(y), t);
    MinuteFacts(OctoberSunday(y) * DAY, t);
  }

  /** Instants in the first pass of the repeated hour. */
  predicate FirstPass(t: int) {
    var switch := OctoberSwitch(YearOf(t / DAY));
    switch - HOUR <= t < switch
  }

  lemma OffsetOfMinute(t: int)
    ensures Offset(MinuteOf(t)) == Offset(t)
    ensures FirstPass(MinuteOf(t)) == FirstPass(t)
  {
    MinuteShift(t);
    SeasonOfMinute(t, YearOf(t / DAY));
    hide IsSummer, MinuteOf, YearOf, OctoberSwitch;
  }

  /** A minute shows a wall time all the way through. */
  lemma MinuteStart(w: int, t: int)
    requires w % MINUTE == 0
    ensures w <= Local(t) < w + MINUTE <==> Local(MinuteOf(t)) == w
  {
    hide MinuteOf, IsSummer, YearOf, FirstPass;
    OffsetOfMinute(t);
    MinuteShift(t);
    MinuteFacts(w, Local(t));
  }

  lemma WallIsWholeMinute(d: Date, hour: int, minute: int)
    ensures Wall(d, hour, minute) % MINUTE == 0
  {
    assert Wall(d, hour, minute) == MINUTE * (1440 * DayNumber(d) + 60 * hour + minute);
  }

  /** `berlinDateTimeToUtc` returns the latest minute whose Berlin clock shows the asked time.
      Only in the repeated October hour does a second minute show it, one hour earlier. */
  lemma ResultIsTheLatestShowing(d: Date, hour: int, minute: int, t: int)
    requires Valid(d) && ValidTime(hour, minute) && !SkippedHour(d, hour)
    ensures var r := BerlinDateTimeToUtc(d, hour, minute);
      BerlinParts(t) == Parts(d, hour, minute)
      <==> MinuteOf(t) == r || (RepeatedHour(d, hour) && MinuteOf(t) == r - HOUR)
  {
    hide BerlinParts, InGap, InDoubledHour, IsLastSundayOf, BerlinDateTimeToUtc, Local, Wall, MinuteOf, Pick;
    var w := Wall(d, hour, minute);
    WallIsWholeMinute(d, hour, minute);
    ConversionIsPick(d, hour, minute);
    SpecialHours(d, hour, minute);
    PartsMatch(t, d, hour, minute);
    MinuteStart(w, t);
    PickIsTheLastShowing(w, MinuteOf(t));
  }

  lemma NothingShowsTheGap(d: Date, hour: int, minute: int, t: int)
    requires Valid(d) && ValidTime(hour, minute) && SkippedHour(d, hour)
    ensures BerlinParts(t) != Parts(d, hour, minute)
  {
    hide BerlinParts, InGap, InDoubledHour, IsLastSundayOf, Local, Wall, MinuteOf;
    var w := Wall(d, hour, minute);
    WallIsWholeMinute(d, hour, minute);
    SpecialHours(d, hour, minute);
    PartsMatch(t, d, hour, minute);
    MinuteStart(w, t);
    PickIsTheLastShowing(w, MinuteOf(t));
  }

  /** A wall time exists exactly when some instant shows it. */
  lemma ExistsMeansShown(d: Date, hour: int, minute: int)
    requires Valid(d) && ValidTime(hour, minute)
    ensures BerlinLocalTimeExists(d, hour, minute) <==> exists t :: BerlinParts(t) == Parts(d, hour, minute)
  {
    if !BerlinLocalTimeExists(d, hour, minute) {
      forall t ensures BerlinParts(t) != Parts(d, hour, minute) {
        ExistsExactlyOutsideTheGap(d, hour, minute);
        NothingShowsTheGap(d, hour, minute, t);
      }
    }
  }

  /** In the repeated October hour the second (winter time) pass is returned. */
  lemma RepeatedHourTakesTheSecondPass(d: Date, hour: int, minute: int)
    requires Valid(d) && ValidTime(hour, minute) && RepeatedHour(d, hour)
    ensures var r := BerlinDateTimeToUtc(d, hour, minute);
      Offset(r) == WINTER && Offset(r - HOUR) == SUMMER
      && BerlinParts(r - HOUR) == BerlinParts(r) == Parts(d, hour, minute)
  {
    hide BerlinParts, InGap, InDoubledHour, IsLastSundayOf, BerlinDateTimeToUtc, Offset, Wall;
    var w := Wall(d, hour, minute);
    ConversionIsPick(d, hour, minute);
    SpecialHours(d, hour, minute);
    PickIsTheLastShowing(w, 0);
    PartsMatch(Pick(w), d, hour, minute);
    PartsMatch(Pick(w) - HOUR, d, hour, minute);
  }

  /** In the skipped March hour the returned instant shows the wall time one hour later. */
  lemma SkippedHourMovesOneHourOn(d: Date, hour: int, minute: int)
    requires Valid(d) && ValidTime(hour, minute) && SkippedHour(d, hour)
    ensures BerlinParts(BerlinDateTimeToUtc(d, hour, minute)) == Parts(d, 3, minute)
  {
    hide BerlinParts, InGap, InDoubledHour, IsLastSundayOf, BerlinDateTimeToUtc, Local, DayNumber;
    var w := Wall(d, hour, minute);
    ConversionIsPick(d, hour, minute);
    SpecialHours(d, hour, minute);
    PickIsTheLastShowing(w, 0);
    PickReadsNear(w);
    PartsMatch(Pick(w), d, 3, minute);
  }

  lemma PickIncreases(w: int, x: int)
    requires w < x && !InGap(w) && !InGap(x)
    ensures Pick(w) < Pick(x)
  {
    hide DayFromYear, YearOf, MarchSunday, OctoberSunday, Local;
    var y, z := YearOf(w / DAY), YearOf(x / DAY);
    CandidatesShow(w);
    CandidatesShow(x);
    SwitchDays(y);
    SwitchDays(z);
    YearBounds(w, y);
    YearBounds(x, z);
    if y < z { YearsIncrease(y + 1, z); }
    if z < y { YearsIncrease(z + 1, y); }
  }

  /** On wall times that exist the conversion is strictly increasing. */
  lemma StrictlyIncreasing(d: Date, hour: int, minute: int, e: Date, h: int, m: int)
    requires Valid(d) && ValidTime(hour, minute) && Valid(e) && ValidTime(h, m)
    requires BerlinLocalTimeExists(d, hour, minute) && BerlinLocalTimeExists(e, h, m)
    ensures Wall(d, hour, minute) < Wall(e, h, m)
       <==> BerlinDateTimeToUtc(d, hour, minute) < BerlinDateTimeToUtc(e, h, m)
  {
    hide BerlinLocalTimeExists, BerlinDateTimeToUtc, InGap, InDoubledHour, Pick, Wall, IsLastSundayOf;
    ExistsExactlyOutsideTheGap(d, hour, minute);
    ExistsExactlyOutsideTheGap(e, h, m);
    SpecialHours(d, hour, minute);
    SpecialHours(e, h, m);
    ConversionIsPick(d, hour, minute);
    ConversionIsPick(e, h, m);
    var w, x := Wall(d, hour, minute), Wall(e, h, m);
    if w < x { PickIncreases(w, x); }
    if x < w { PickIncreases(x, w); }
  }

  lemma FirstPassIsEarly(t: int)
    ensures FirstPass(t) <==> InDoubledHour(Local(t)) && t == Local(t) - SUMMER
  {
    hide DayFromYear, YearOf, MarchSunday, OctoberSunday;
    var w := Local(t);
    var y, z := YearOf(t / DAY), YearOf(w / DAY);
    SwitchDays(y);
    SwitchDays(z);
    YearBounds(t, y);
    YearBounds(w, z);
    WallNearItsYear(w, z);
    SeasonNear(t, z);
    if y < z { YearsIncrease(y + 1, z); }
    if z < y { YearsIncrease(z + 1, y); }
  }

  lemma PartsOf(t: int)
    ensures var p := BerlinParts(t);
      Valid(p.date) && ValidTime(p.hour, p.minute)
  {
  }

  /** Reading an instant off the clock and converting back returns its minute,
      except in the first pass of the repeated hour, which moves one hour on. */
  lemma ReadThenConvert(t: int)
    ensures var p := BerlinParts(t);
      BerlinDateTimeToUtc(p.date, p.hour, p.minute) == MinuteOf(t) + (if FirstPass(t) then HOUR else 0)
  {
    var s := MinuteOf(t);
    OffsetOfMinute(t);
    PartsOf(t);
    hide BerlinParts, InGap, InDoubledHour, BerlinDateTimeToUtc, Wall, MinuteOf, FirstPass, Local, Pick;
    var p := BerlinParts(t);
    var w := Wall(p.date, p.hour, p.minute);
    WallIsWholeMinute(p.date, p.hour, p.minute);
    PartsMatch(t, p.date, p.hour, p.minute);
    MinuteStart(w, t);
    ConversionIsPick(p.date, p.hour, p.minute);
    PickIsTheLastShowing(w, s);
    FirstPassIsEarly(s);
  }

  /** The Berlin calendar day never goes backwards. */
  lemma BerlinDayNeverGoesBack(t: int, u: int)
    requires t <= u
    ensures LocalDay(t) <= LocalDay(u)
  {
    hide DayFromYear, YearOf, MarchSunday, OctoberSunday;
    if Local(u) < Local(t) {
      var y := YearOf(t / DAY);
      SwitchDays(y);
      SwitchDays(y - 1);
      SwitchDays(y + 1);
      YearBounds(t, y);
      SeasonNear(u, y);
      assert OctoberSunday(y) * DAY <= Local(t) < (OctoberSunday(y) + 1) * DAY;
      assert OctoberSunday(y) * DAY <= Local(u) < (OctoberSunday(y) + 1) * DAY;
    }
  }

  /** Midnight is not in an hour in which the clock goes back. */
  lemma NoneBeforeMidnight(n: int, s: int, t: int)
    requires Local(s) == n * DAY && n * DAY <= Local(t)
    ensures s <= t
  {
    hide DayFromYear, YearOf, MarchSunday, OctoberSunday;
    if t < s {
      var y := YearOf(t / DAY);
      YearBounds(t, y);
      SwitchDays(y - 1);
      SwitchDays(y);
      SwitchDays(y + 1);
      SeasonNear(s, y);
      assert s - HOUR <= t < OctoberSwitch(y) <= s;
      QuotientIs(s + HOUR, DAY, n, 0);
      QuotientIs(s + HOUR, DAY, OctoberSunday(y), s + HOUR - OctoberSunday(y) * DAY);
    }
  }

  /** The start of a day is the first instant of the Berlin calendar day, at midnight. */
  lemma StartOfDayIsTheFirstInstant(d: Date, t: int)
    requires Valid(d)
    ensures BerlinParts(BerlinStartOfDay(d)) == Parts(d, 0, 0)
    ensures LocalDay(t) == DayNumber(d) ==> BerlinStartOfDay(d) <= t
  {
    hide BerlinParts, BerlinDateTimeToUtc, DayNumber, Local, IsLastSundayOf, InGap, Pick;
    ExistsExactlyOutsideTheGap(d, 0, 0);
    ConversionIsPick(d, 0, 0);
    SpecialHours(d, 0, 0);
    var w := Wall(d, 0, 0);
    PickIsTheLastShowing(w, 0);
    assert w == DayNumber(d) * DAY;
    if LocalDay(t) == DayNumber(d) {
      QuotientFacts(Local(t), DAY);
      NoneBeforeMidnight(DayNumber(d), BerlinStartOfDay(d), t);
    }
  }
}
