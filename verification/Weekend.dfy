/** The weekend proposal: collect on Friday 18:00 before the event, return on
    Sunday 11:00 after it, but only when both enclose the event. */
module Weekend {
  import opened Calendar
  import opened BerlinTime
  import opened Division
  import opened Durations
  import opened BerlinClock

  const WEEKEND_PICKUP_HOUR := 18
  const WEEKEND_RETURN_HOUR := 11
  const FRIDAY := 5
  const SUNDAY := 0

  /** An event date text that does or does not have the form yyyy-mm-dd. */
  datatype EventDate = NoDate | On(date: Date)

  /** An optional ISO time: absent or empty, unparsable, or an instant. */
  datatype EventTime = Absent | Unparsable | Exactly(at: int)

  datatype Refusal = NoEventDate | InvalidTimes | PickupNotBefore | ReturnNotAfter | NegativeRange

  datatype Suggestion = Accepted(pickupAt: int, returnAt: int) | Refused(reason: Refusal)

  function FridayBefore(d: Date): Date {
    DayShift(d, -((IsoWeekday(d) - 5 + 7) % 7))
  }

  function SundayAfter(d: Date): Date {
    DayShift(d, (7 - IsoWeekday(d)) % 7)
  }

  function PickupAt(d: Date): int { BerlinDateTimeToUtc(FridayBefore(d), WEEKEND_PICKUP_HOUR, 0) }

  function ReturnAt(d: Date): int { BerlinDateTimeToUtc(SundayAfter(d), WEEKEND_RETURN_HOUR, 0) }

  function TimeOr(time: EventTime, fallback: int): EventTime {
    if time.Absent? then Exactly(fallback) else time
  }

  function WeekendStandardSuggestion(eventDate: EventDate, eventStart: EventTime, eventEnd: EventTime): Suggestion {
    match eventDate
    case NoDate => Refused(NoEventDate)
    case On(d) =>
      var pickup, return_ := PickupAt(d), ReturnAt(d);
      var start := TimeOr(eventStart, BerlinStartOfDay(d));
      var end := TimeOr(eventEnd, BerlinStartOfDay(DayShift(d, 1)));
      if start.Unparsable? || end.Unparsable? then Refused(InvalidTimes)
      else if !(pickup < start.at) then Refused(PickupNotBefore)
      else if !(return_ > end.at) then Refused(ReturnNotAfter)
      else if !(pickup < return_) then Refused(NegativeRange)
      else Accepted(pickup, return_)
  }

  lemma FridayArithmetic(n: int, f: int)
    ensures f == n - ((Weekday(n) - 5 + 7) % 7) <==> (n - 7 < f <= n && Weekday(f) == FRIDAY)
  {
    var q, r := (n + 4) / 7, Weekday(n);
    QuotientFacts(n + 4, 7);
    QuotientFacts(f + 4, 7);
    var back := if r >= 5 then r - 5 else r + 2;
    QuotientIs(r + 2, 7, if r >= 5 then 1 else 0, back);
    QuotientIs(n - back + 4, 7, if r >= 5 then q else q - 1, 5);
  }

  lemma SundayArithmetic(n: int, s: int)
    ensures s == n + (7 - Weekday(n)) % 7 <==> (n <= s < n + 7 && Weekday(s) == SUNDAY)
  {
    var q, r := (n + 4) / 7, Weekday(n);
    QuotientFacts(n + 4, 7);
    QuotientFacts(s + 4, 7);
    var ahead := if r == 0 then 0 else 7 - r;
    QuotientIs(7 - r, 7, if r == 0 then 1 else 0, ahead);
    QuotientIs(n + ahead + 4, 7, if r == 0 then q else q + 1, 0);
  }

  lemma SpanArithmetic(n: int)
    ensures (7 - Weekday(n)) % 7 + (Weekday(n) - 5 + 7) % 7 == if Weekday(n) in {5, 6, 0} then 2 else 9
  {
  }

  /** The proposal uses the last Friday on or before and the first Sunday on or after the
      event; they are 2 days apart from Friday to Sunday and 9 days apart otherwise. */
  lemma EnclosingWeekend(d: Date, n: int)
    requires Valid(d)
    ensures n == DayNumber(FridayBefore(d)) <==> (DayNumber(d) - 7 < n <= DayNumber(d) && Weekday(n) == FRIDAY)
    ensures n == DayNumber(SundayAfter(d)) <==> (DayNumber(d) <= n < DayNumber(d) + 7 && Weekday(n) == SUNDAY)
    ensures DayNumber(SundayAfter(d)) - DayNumber(FridayBefore(d)) == if IsoWeekday(d) in {5, 6, 0} then 2 else 9
  {
    hide DayShift, DayNumber;
    DayShiftMoves(d, -((IsoWeekday(d) - 5 + 7) % 7));
    DayShiftMoves(d, (7 - IsoWeekday(d)) % 7);
    FridayArithmetic(DayNumber(d), n);
    SundayArithmetic(DayNumber(d), n);
    SpanArithmetic(DayNumber(d));
  }

  /** Conversions keep the order of wall times that lie outside the skipped hour. */
  lemma InOrder(d: Date, hour: int, e: Date, h: int)
    requires Valid(d) && Valid(e) && ValidTime(hour, 0) && ValidTime(h, 0) && hour != 2 && h != 2
    ensures BerlinDateTimeToUtc(d, hour, 0) < BerlinDateTimeToUtc(e, h, 0)
       <==> DayNumber(d) < DayNumber(e) || (DayNumber(d) == DayNumber(e) && hour < h)
  {
    hide BerlinDateTimeToUtc, BerlinLocalTimeExists, DayNumber;
    ExistsExactlyOutsideTheGap(d, hour, 0);
    ExistsExactlyOutsideTheGap(e, h, 0);
    StrictlyIncreasing(d, hour, 0, e, h, 0);
  }

  lemma DayOfConversion(d: Date, hour: int)
    requires Valid(d) && ValidTime(hour, 0) && hour != 2
    ensures LocalDay(BerlinDateTimeToUtc(d, hour, 0)) == DayNumber(d)
  {
    hide BerlinDateTimeToUtc, DateOf, DayNumber, Local;
    ExistsExactlyOutsideTheGap(d, hour, 0);
    var t := BerlinDateTimeToUtc(d, hour, 0);
    DateOfIs(LocalDay(t), d);
  }

  lemma ValidEnds(d: Date)
    ensures Valid(FridayBefore(d)) && Valid(SundayAfter(d)) && Valid(DayShift(d, 1))
  {
    hide DateOf, Valid;
  }

  /** Pickup and return against the day of the event. */
  lemma Bounds(d: Date)
    requires Valid(d)
    ensures PickupAt(d) < ReturnAt(d)
    ensures PickupAt(d) < BerlinStartOfDay(d) <==> IsoWeekday(d) != FRIDAY
    ensures BerlinStartOfDay(DayShift(d, 1)) < ReturnAt(d) <==> IsoWeekday(d) != SUNDAY
    ensures LocalDay(PickupAt(d)) == DayNumber(FridayBefore(d))
    ensures LocalDay(ReturnAt(d)) == DayNumber(SundayAfter(d))
  {
    hide Valid, DayShift, BerlinDateTimeToUtc, DayNumber, FridayBefore, SundayAfter, LocalDay, Weekday;
    var f, s, next := FridayBefore(d), SundayAfter(d), DayShift(d, 1);
    ValidEnds(d);
    EnclosingWeekend(d, DayNumber(d));
    EnclosingWeekend(d, DayNumber(f));
    EnclosingWeekend(d, DayNumber(s));
    DayShiftMoves(d, 1);
    InOrder(f, 18, d, 0);
    InOrder(next, 0, s, 11);
    InOrder(f, 18, s, 11);
    DayOfConversion(f, 18);
    DayOfConversion(s, 11);
  }

  /** Pickup is before return whatever the event date, so the guard against a
      negative range never fires. */
  lemma NeverANegativeRange(eventDate: EventDate, eventStart: EventTime, eventEnd: EventTime)
    requires eventDate.On? ==> Valid(eventDate.date)
    ensures WeekendStandardSuggestion(eventDate, eventStart, eventEnd) != Refused(NegativeRange)
  {
    hide Valid, PickupAt, ReturnAt, BerlinStartOfDay, DayShift, LocalDay, DayNumber;
    if eventDate.On? { Bounds(eventDate.date); }
  }

  /** Without exact event times the proposal is accepted exactly when the event is neither
      on a Friday nor on a Sunday; on those days the matching bound is named as the reason. */
  lemma AcceptedUnlessFridayOrSunday(d: Date)
    requires Valid(d)
    ensures WeekendStandardSuggestion(On(d), Absent, Absent) ==
      if IsoWeekday(d) == FRIDAY then Refused(PickupNotBefore)
      else if IsoWeekday(d) == SUNDAY then Refused(ReturnNotAfter)
      else Accepted(PickupAt(d), ReturnAt(d))
  {
    hide Valid, PickupAt, ReturnAt, BerlinStartOfDay, DayShift, LocalDay, DayNumber, Weekday;
    Bounds(d);
  }

  /** An accepted proposal is the enclosing weekend and strictly encloses the event: its exact
      times, and its whole calendar day where a time is missing. */
  lemma AcceptedEnclosesTheEvent(eventDate: EventDate, eventStart: EventTime, eventEnd: EventTime)
    requires eventDate.On? ==> Valid(eventDate.date)
    ensures var r := WeekendStandardSuggestion(eventDate, eventStart, eventEnd);
      r.Accepted? ==>
        && eventDate.On?
        && r == Accepted(PickupAt(eventDate.date), ReturnAt(eventDate.date))
        && (eventStart.Exactly? ==> r.pickupAt < eventStart.at)
        && (eventEnd.Exactly? ==> eventEnd.at < r.returnAt)
        && (eventStart.Absent? ==> LocalDay(r.pickupAt) < DayNumber(eventDate.date))
        && (eventEnd.Absent? ==> DayNumber(eventDate.date) < LocalDay(r.returnAt))
  {
    hide Valid, PickupAt, ReturnAt, BerlinStartOfDay, DayShift, LocalDay, DayNumber, FridayBefore, SundayAfter;
    if eventDate.On? {
      var d := eventDate.date;
      Bounds(d);
      EnclosingWeekend(d, DayNumber(FridayBefore(d)));
      EnclosingWeekend(d, DayNumber(SundayAfter(d)));
    }
  }

  /** The proposal is Friday 18:00 and Sunday 11:00 on the Berlin clock. */
  lemma CollectAndReturn(d: Date)
    requires Valid(d)
    ensures BerlinParts(PickupAt(d)) == Parts(FridayBefore(d), 18, 0)
    ensures BerlinParts(ReturnAt(d)) == Parts(SundayAfter(d), 11, 0)
  {
    ValidEnds(d);
    ExistsExactlyOutsideTheGap(FridayBefore(d), 18, 0);
    ExistsExactlyOutsideTheGap(SundayAfter(d), 11, 0);
    hide BerlinParts, BerlinDateTimeToUtc, FridayBefore, SundayAfter, Valid;
  }

  /** The outcome for every event: which reason is given, or the proposal. Where a time is missing, only a Friday
      (5) or a Sunday (0) stands against it. */
  lemma OutcomeExactly(d: Date, eventStart: EventTime, eventEnd: EventTime)
    requires Valid(d)
    ensures WeekendStandardSuggestion(NoDate, eventStart, eventEnd) == Refused(NoEventDate)
    ensures WeekendStandardSuggestion(On(d), eventStart, eventEnd) ==
      if eventStart.Unparsable? || eventEnd.Unparsable? then Refused(InvalidTimes)
      else if (if eventStart.Exactly? then eventStart.at <= PickupAt(d) else IsoWeekday(d) == 5)
      then Refused(PickupNotBefore)
      else if (if eventEnd.Exactly? then eventEnd.at >= ReturnAt(d) else IsoWeekday(d) == 0)
      then Refused(ReturnNotAfter)
      else Accepted(PickupAt(d), ReturnAt(d))
  {
    hide Valid, PickupAt, ReturnAt, BerlinStartOfDay, DayShift, LocalDay, DayNumber, IsoWeekday;
    Bounds(d);
  }
}
