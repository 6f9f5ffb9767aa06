/** How long an offer stays open: 3 days when the event is at most 14 Berlin
    calendar days away, otherwise 7 days of 24 hours. */
module OfferValidity {
  import opened Calendar
  import opened BerlinTime
  import opened Durations
  import opened BerlinClock

  const OFFER_VALIDITY_NEAR_DAYS := 3
  const OFFER_VALIDITY_FAR_DAYS := 7
  const OFFER_VALIDITY_THRESHOLD_DAYS := 14

  /** `Math.round(x / 86_400_000)` on whole milliseconds. */
  function RoundToDays(x: int): int { (x + DAY / 2) / DAY }

  function DaysUntilEventBerlin(event: Date, sentAt: int): int {
    var sent := BerlinDateOf(sentAt);
    var eventUtc := MakeDay(event.year, event.month - 1, event.day) * DAY;
    var sentUtc := MakeDay(sent.year, sent.month - 1, sent.day) * DAY;
    RoundToDays(eventUtc - sentUtc)
  }

  function OfferValidityDays(event: Date, sentAt: int): int {
    if DaysUntilEventBerlin(event, sentAt) <= OFFER_VALIDITY_THRESHOLD_DAYS
    then OFFER_VALIDITY_NEAR_DAYS else OFFER_VALIDITY_FAR_DAYS
  }

  function OfferExpiresAt(event: Date, sentAt: int): int {
    sentAt + OfferValidityDays(event, sentAt) * DAY
  }

  /** The day count is the difference of two Berlin calendar days. */
  lemma CountsCalendarDays(event: Date, sentAt: int)
    requires Valid(event)
    ensures DaysUntilEventBerlin(event, sentAt) == DayNumber(event) - LocalDay(sentAt)
  {
    hide DayNumber, DateOf, MakeDay, Local;
    var sent := BerlinDateOf(sentAt);
    MakeDayOfDate(event, 0);
    MakeDayOfDate(sent, 0);
    assert DayNumber(sent) == LocalDay(sentAt);
  }

  /** The day count never grows as the sending instant advances. */
  lemma DaysNeverIncrease(event: Date, t: int, u: int)
    requires Valid(event) && t <= u
    ensures DaysUntilEventBerlin(event, u) <= DaysUntilEventBerlin(event, t)
  {
    hide LocalDay, DaysUntilEventBerlin, DayNumber;
    CountsCalendarDays(event, t);
    CountsCalendarDays(event, u);
    BerlinDayNeverGoesBack(t, u);
  }

  /** So the validity switches from 7 days to 3 at most once, and never back. */
  lemma ValiditySwitchesAtMostOnce(event: Date, t: int, u: int)
    requires Valid(event) && t <= u
    ensures OfferValidityDays(event, t) == OFFER_VALIDITY_NEAR_DAYS
        ==> OfferValidityDays(event, u) == OFFER_VALIDITY_NEAR_DAYS
  {
    hide DaysUntilEventBerlin;
    DaysNeverIncrease(event, t, u);
  }

  /** `days` times 24 hours later the Berlin calendar is `days` days on, one more when the
      clock went forward and it was already past 23:00, one less when it went back and it
      was not yet 01:00. */
  function CalendarDrift(t: int, u: int): int {
    if Offset(t) < Offset(u) && Local(t) % DAY >= DAY - HOUR then 1
    else if Offset(t) > Offset(u) && Local(t) % DAY < HOUR then -1
    else 0
  }

  lemma ShiftedDay(w: int, days: int, drift: int)
    requires drift in {-HOUR, 0, HOUR}
    ensures (w + days * DAY + drift) / DAY == w / DAY + days
      + (if drift == HOUR && w % DAY >= DAY - HOUR then 1 else if drift == -HOUR && w % DAY < HOUR then -1 else 0)
  {
    assert w == w / DAY * DAY + w % DAY;
  }

  lemma DaysLater(t: int, days: int)
    ensures LocalDay(t + days * DAY) == LocalDay(t) + days + CalendarDrift(t, t + days * DAY)
  {
    hide IsSummer, YearOf;
    ShiftedDay(Local(t), days, Offset(t + days * DAY) - Offset(t));
  }

  /** Days left to the event when the offer expires, across every clock change. */
  lemma DaysLeftAtExpiry(event: Date, sentAt: int)
    requires Valid(event)
    ensures var expires := OfferExpiresAt(event, sentAt);
      DaysUntilEventBerlin(event, expires) ==
        DaysUntilEventBerlin(event, sentAt) - OfferValidityDays(event, sentAt) - CalendarDrift(sentAt, expires)
  {
    hide DaysUntilEventBerlin, DayNumber, LocalDay, CalendarDrift, OfferValidityDays;
    CountsCalendarDays(event, sentAt);
    CountsCalendarDays(event, OfferExpiresAt(event, sentAt));
    DaysLater(sentAt, OfferValidityDays(event, sentAt));
  }

  /** An offer sent 15 or more days ahead expires at least 7 Berlin calendar days before the event. */
  lemma FarOfferLeavesAWeek(event: Date, sentAt: int)
    requires Valid(event)
    requires DaysUntilEventBerlin(event, sentAt) > OFFER_VALIDITY_THRESHOLD_DAYS
    ensures DaysUntilEventBerlin(event, OfferExpiresAt(event, sentAt)) >= 7
  {
    hide DaysUntilEventBerlin, OfferExpiresAt;
    DaysLeftAtExpiry(event, sentAt);
  }

  /** An offer expires after 3 times 24 hours when the event is at most 14 Berlin days away, else after 7 times. */
  lemma ValidityInFigures(event: Date, sentAt: int)
    requires Valid(event)
    ensures OfferExpiresAt(event, sentAt) - sentAt ==
      if DayNumber(event) - Local(sentAt) / 86_400_000 <= 14 then 3 * 86_400_000 else 7 * 86_400_000
  {
    hide DaysUntilEventBerlin, DayNumber, Local;
    CountsCalendarDays(event, sentAt);
  }
}
