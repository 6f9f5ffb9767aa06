# Rental rules of the slush machine portal: a verified model

The repository rents out slush machines. Its business rules live in code without input or output that the
server, the staff app and the public site share. This project states those rules in Dafny and proves what
they promise, for every input, every run and every clock change.

- **Calendar and Berlin time** (`Calendar`, `BerlinTime`, `BerlinClock`). Day numbers of the proleptic Gregorian
  calendar (section 21.4.1 of ECMA-262), and Europe/Berlin with summer time from 01:00 UTC on the last Sunday of
  March to 01:00 UTC on the last Sunday of October (Articles 2 and 3 of Directive 2000/84/EC). The conversion from
  wall time to instant tries both offsets as the code does; the skipped and the repeated hour are theorems.
- **Second and third conversions** (`StaffTime`, `VoucherCalendar`). The staff app compares formatted texts and must
  agree with the shared conversion; the voucher code prefers the other pass of the repeated hour.
- **Scheduling** (`Weekend`, `Substitution`, `Reminder`, `OfferValidity`). The weekend proposal, who is responsible
  during a substitution, reminders as a run of scans, and how long an offer stays open.
- **Pricing** (`Pricing`, `PricingRules`, `OfferContents`, `ResolveInput`). `PriceOffer` is the pass over the selections
  with its running sums; `Offer` says which outcome an input has; the rules are proved about `Offer`, and its terms and
  lines are spelled out on the input fields.
- **Finalisation** (`Handover`, `ReturnCheck`). The lists of blockers are built in the loops of the code; each blocker
  stands there exactly for its reason, and a list is empty exactly when a separately stated condition holds.
- **Cleaning list** (`Cleaning`, with `Sorting`). The comparator works on JavaScript numbers with infinities and NaN.
- **Money text** (`Money`, with `Digits`). Two printers and two parsers, character by character.
- **Configurator** (`Configurator`). Canonical syrup lists and the partition of validation issues.
- **Tours** (`TourEvaluation`, `Arrangements`, `TourPlanner`, `TourPromises`, `WayBack`). A tour driven in one order, the
  planner with pinned stops, and what a planned order promises.

`Options`, `Numbers`, `Seqs`, `Durations` and `Division` hold what several modules share. Instants are whole
milliseconds, money is whole cents, percentages are basis points. An ISO text stands for the date or instant it denotes.

Where the code and its documentation differ, the model follows the code:

- The pricing code calls its last check ("the total must not fall below 0") structurally impossible.
  `PricingRules.GuardReachableExactly` says for which catalogues that is so. The product routes of the API refuse negative
  prices (`centsSchema`, apps/api/src/routes/commerce.ts:38), so only direct callers of `priceOffer` can meet its condition.
- An offer limits the canisters, recognised by their slug; a handover applies the same limit to all purchase articles. An
  accepted offer with other purchase articles can therefore be refused at the handover (`Handover.OtherPurchasesAreRefused`);
  `Handover.CanisterBlockerExactly` says exactly when it is.
- The voucher code says that a wall time skipped in March becomes the next valid one, 03:00. It moves one hour on, so 02:30
  becomes 03:30; the two agree exactly for 02:00:00 (`VoucherCalendar.NextValidTimeOnlyFromTwo`).
- A substitution ended before it began still counts as overlapping a range around it, although it is never active
  (`Substitution.EmptiedRangeOverlaps`).
- A test title says that a tour without pins minimises the total completion time. Segments are compared without the way
  back to the depot, so with a depot this can fail (`WayBack.WayBackIsNotMinimised`);
  `WayBack.EarliestExactlyWithEqualWaysBack` says exactly when it holds.

## Model

| member | source | states |
|---|---|---|
| Calendar.MonthLengths | packages/domain/src/scheduling.ts:89-99 | the lengths of the months and the leap years, in figures |
| Calendar.DaysFollow | packages/domain/src/scheduling.ts:89-99 | 1970-01-01 is day 0, and each date of the calendar is numbered one above the date before it |
| Calendar.WeekdaysFollow | packages/domain/src/scheduling.ts:95-99 | 1970-01-01 was a Thursday (4), and the days of the week follow each other from 0 to 6 |
| Calendar.DateRoundTrip | packages/domain/src/scheduling.ts:89-99 | dates and day numbers are in bijection: the date of a date's day number is the date itself |
| Calendar.DayShiftMoves | packages/domain/src/scheduling.ts:89-93 | shifting a date by n days moves its day number by exactly n, across months, leap days and years |
| Calendar.DayShiftsAddUp | packages/domain/src/scheduling.ts:89-93 | two shifts in a row are one shift by their sum |
| Calendar.DayShiftUndone | apps/staff/lib/scheduling.ts:107-110 | a shift and its opposite cancel |
| Calendar.MondayOfIsTheWeeksMonday | apps/staff/lib/scheduling.ts:122-127 | the result is the one Monday among the day and the six before it |
| BerlinTime.LastSundays | packages/domain/src/scheduling.ts:73-77 | the switching days are the only Sundays among the last seven days of March and of October |
| BerlinTime.BerlinIsAhead | packages/domain/src/scheduling.ts:15-41 | Berlin is two hours ahead from 01:00 UTC on the last Sunday of March to 01:00 UTC on the last Sunday of October, else one |
| BerlinTime.PartsInFigures | packages/domain/src/scheduling.ts:15-41 | an instant has the parts d, h, m exactly while its Berlin clock runs through that minute |
| BerlinClock.StartOfDayIsTheFirstInstant | packages/domain/src/scheduling.ts:84-87 | the start of a day shows midnight and no instant of the day is earlier |
| BerlinClock.ExistsExactlyOutsideTheGap | packages/domain/src/scheduling.ts:73-82 | a wall time fails to exist exactly from 02:00 to 02:59 on the last Sunday of March |
| BerlinClock.ExistsMeansShown | packages/domain/src/scheduling.ts:73-82 | a wall time exists exactly when the Berlin clock shows it at some instant |
| BerlinClock.ResultIsTheLatestShowing | packages/domain/src/scheduling.ts:60-71 | the instants showing an existing wall time are the minute of the result and, in the repeated October hour only, the minute one hour earlier |
| BerlinClock.RepeatedHourTakesTheSecondPass | packages/domain/src/scheduling.ts:60-71 | in the repeated hour the result is the winter time pass, and the summer time pass shows the same time one hour before |
| BerlinClock.SkippedHourMovesOneHourOn | packages/domain/src/scheduling.ts:60-71 | a skipped wall time is read as the instant that shows it one hour later |
| BerlinClock.StrictlyIncreasing | packages/domain/src/scheduling.ts:60-71 | on existing wall times, earlier on the clock if and only if earlier in time |
| BerlinClock.ReadThenConvert | packages/domain/src/scheduling.ts:44-71 | reading the clock and converting back gives the same minute, one hour later exactly in the first pass of the repeated hour |
| BerlinClock.BerlinDayNeverGoesBack | packages/domain/src/scheduling.ts:43-48 | the Berlin calendar day never goes backwards as time advances |
| Weekend.EnclosingWeekend | packages/domain/src/scheduling.ts:124-129 | the proposal uses the last Friday on or before and the first Sunday on or after the event, 2 days apart from Friday to Sunday and 9 otherwise |
| Weekend.CollectAndReturn | packages/domain/src/scheduling.ts:112-132 | the proposal shows Friday 18:00 and Sunday 11:00 on the Berlin clock |
| Weekend.OutcomeExactly | packages/domain/src/scheduling.ts:120-164 | the outcome for every event and its times: each refusal exactly when its reason holds first, otherwise the proposal |
| Weekend.NeverANegativeRange | packages/domain/src/scheduling.ts:160-162 | the refusal for a negative range is never given, across every clock change |
| Weekend.AcceptedUnlessFridayOrSunday | packages/domain/src/scheduling.ts:120-164 | without exact times the proposal is accepted exactly when the event is neither on a Friday nor on a Sunday, and otherwise names the bound that fails |
| Weekend.AcceptedEnclosesTheEvent | packages/domain/src/scheduling.ts:120-164 | an accepted proposal is the enclosing weekend and lies strictly around the exact times, or around the whole event day where a time is missing |
| Substitution.AnswersInItsRange | packages/domain/src/scheduling.ts:205-221 | a substitution answers for its original user from its start until its end, or until it was ended early |
| Substitution.OverlapMeansCommonInstant | packages/domain/src/scheduling.ts:242-248 | two substitutions are active at a common instant exactly when the overlap rule holds and neither range is empty |
| Substitution.EmptiedRangeOverlaps | packages/domain/src/scheduling.ts:205-248 | the overlap rule alone is not enough: a range that is never active can overlap |
| Substitution.AtMostOneActive | packages/domain/src/scheduling.ts:217-221 | without overlaps at most one substitution of a person is active at any instant |
| Substitution.OrderDoesNotMatter | packages/domain/src/scheduling.ts:230-240 | without overlaps the responsible person is the same for every order of the list |
| Substitution.SingleHop | packages/domain/src/scheduling.ts:223-240 | the answer is the substitute of the first active entry on record while there is one, and the assigned person otherwise; there is no second hop |
| Reminder.FirstScanInTheWindow | packages/domain/src/scheduling.ts:294-309 | in any run of scans the one reminder fires at the first scan inside the window, and none fires exactly when no scan is inside |
| Reminder.OnlyForOpenAppointments | packages/domain/src/scheduling.ts:304-306 | no run fires for an appointment that is not scheduled, has no begin or was reminded of |
| Reminder.WindowInFigures | packages/domain/src/scheduling.ts:304-308 | for an open one the first scan from the lead in minutes before the begin until the begin fires |
| Reminder.ExactlyOneReminder | packages/domain/src/scheduling.ts:294-309 | with gaps of at most the lead, from before the begin until the begin or later, exactly one reminder fires, within the lead and before the begin |
| OfferValidity.CountsCalendarDays | packages/domain/src/pricing.ts:529-536 | the count is the event's day number less that of the Berlin day of sending |
| OfferValidity.ValidityInFigures | packages/domain/src/pricing.ts:509-546 | an offer expires after 3 times 24 hours when the event is at most 14 Berlin days away, else after 7 times |
| OfferValidity.DaysNeverIncrease | packages/domain/src/pricing.ts:529-536 | the count never grows as the sending instant advances |
| OfferValidity.ValiditySwitchesAtMostOnce | packages/domain/src/pricing.ts:538-541 | once the validity is 3 days it stays 3 days for every later sending instant |
| OfferValidity.DaysLater | packages/domain/src/pricing.ts:543-546 | n times 24 hours later is n Berlin days later, one more or less exactly when a clock change meets the hour before or after midnight |
| OfferValidity.DaysLeftAtExpiry | packages/domain/src/pricing.ts:538-546 | the exact number of Berlin days left when an offer expires |
| OfferValidity.FarOfferLeavesAWeek | packages/domain/src/pricing.ts:509-546 | an offer sent 15 or more days ahead expires at least 7 Berlin days before the event |
| VoucherCalendar.PickFirstIsTheEarliest | packages/domain/src/voucher.ts:78-108 | the chosen instant is the first that shows the wall time; in the skipped hour it shows one hour later |
| VoucherCalendar.ConversionIsPickFirst | packages/domain/src/voucher.ts:83-108 | the search over calendar parts, seconds included, is that choice |
| VoucherCalendar.TakesTheFirstPass | packages/domain/src/voucher.ts:78-108 | against the shared conversion: the same instant with the seconds added, one hour earlier exactly in the repeated hour |
| VoucherCalendar.NextValidTimeOnlyFromTwo | packages/domain/src/voucher.ts:78-108 | no clock shows a skipped time or any other before 03:00; the result shows 03:00 if and only if the skipped time is 02:00:00 |
| VoucherCalendar.SameWallClockDaysLater | packages/domain/src/voucher.ts:125-143 | n calendar days later the clock shows the same time of day, one hour later only in the skipped hour |
| VoucherCalendar.DaysForthAndBack | packages/domain/src/voucher.ts:133-143 | going n days forth and back returns to a whole-second instant exactly when the target is not skipped and the start not in the second pass |
| VoucherCalendar.LastDayIsTheMonthsLength | packages/domain/src/voucher.ts:74-76 | day 0 of the next month is the last day of the month |
| VoucherCalendar.MonthsLaterCountsOn | packages/domain/src/voucher.ts:110-123 | the month is counted on by exactly the given number and the day is kept, or capped to the month's last |
| VoucherCalendar.SameWallClockMonthsLater | packages/domain/src/voucher.ts:110-123 | any number of calendar months later the clock shows the same time of day on the counted-on date, one hour later only in the skipped hour |
| VoucherCalendar.VoucherLastsOneBerlinYear | packages/domain/src/voucher.ts:145-148 | a voucher expires at the same Berlin wall clock one year later, 29 February becoming the 28th |
| StaffTime.FieldShows | apps/staff/lib/scheduling.ts:171-176 | the field shows year, month, day, hour and minute of the Berlin clock in its fixed form, and no time as an empty text |
| StaffTime.FieldExactly | apps/staff/lib/scheduling.ts:178-183 | a text of the form is read as its Berlin time whatever stands behind it, and throws where its parts are no date and time |
| StaffTime.NoOtherFieldText | apps/staff/lib/scheduling.ts:178-181 | every text that is not of the form is no time |
| StaffTime.DateTextMatches | apps/staff/lib/scheduling.ts:159-161 | a formatted text starts with a day's yyyy-mm-dd exactly when it was printed for that day |
| StaffTime.ShowsMeansParts | apps/staff/lib/scheduling.ts:150-161 | the comparison of texts holds exactly when the Berlin clock shows that day, hour and minute |
| StaffTime.StaffCopyAgrees | apps/staff/lib/scheduling.ts:145-164 | the staff copy and the shared conversion give the same instant for every day of a four-digit year, hour and minute |
| StaffTime.ShowThenRead | apps/staff/lib/scheduling.ts:171-183 | showing an instant in the field and reading it back gives its minute, one hour later exactly in the first pass of the repeated hour |
| StaffTime.ReadThenShow | apps/staff/lib/scheduling.ts:171-183 | reading a field text and showing it is exact outside the skipped hour and shows 03 instead of 02 inside it |
| Pricing.SpecialsByKey | packages/domain/src/pricing.ts:222-226 | refuses exactly the lists with a bad amount, and otherwise fills a map that answers every key with the last entry for it |
| OfferContents.CountedQuantities | packages/domain/src/pricing.ts:278-408 | what counts as free litres, as canisters (by slug) and as booked containers |
| OfferContents.MachineSubtotalIs | packages/domain/src/pricing.ts:228-259 | the machine subtotal is the quantity times the last special price for the machine, or the list price |
| OfferContents.GivenExactly | packages/domain/src/pricing.ts:219-492 | an offer is given if and only if the order and price terms, spelled out on the input fields, hold and the total is not negative |
| OfferContents.LinesDescribeTheOrder | packages/domain/src/pricing.ts:244-435 | the lines are the machine, the free syrups, cups and straws, the extras and the delivery, each with key, kind, billing, quantity, unit, list price and product as chosen, in that order |
| OfferContents.DeliveryIsCharged | packages/domain/src/pricing.ts:410-435 | the delivery lines of an accepted offer sum to the agreed price when there is delivery and a price, and to 0 otherwise; such a price is whole and not negative |
| OfferContents.NoReductionUnasked | packages/domain/src/pricing.ts:437-484 | without a discount and without a voucher nothing is taken off |
| OfferContents.BudgetIsALiterPerContainer | packages/domain/src/pricing.ts:278-279 | the free budget is the containers of the machine type times its quantity |
| PricingRules.LastEntryWins | packages/domain/src/pricing.ts:222-242 | a key is answered by the last entry that carries it, and by none exactly when no entry does |
| Pricing.BookMachine | packages/domain/src/pricing.ts:244-276 | accepts exactly machines with containers in a positive whole number, with line, subtotal and containers |
| Pricing.CountFree | packages/domain/src/pricing.ts:279-288 | accepts exactly syrups in positive whole amounts, and sums their litres |
| Pricing.FreeLines | packages/domain/src/pricing.ts:295-312 | one line per free selection, in order |
| Pricing.PriceExtras | packages/domain/src/pricing.ts:357-399 | accepts exactly the valid extras, with their lines in order and the fixed, commission and canister sums |
| Pricing.TakeDiscount | packages/domain/src/pricing.ts:437-463 | accepts exactly the allowed discounts, with cents and effective basis points |
| Pricing.PriceOffer | packages/domain/src/pricing.ts:219-507 | the outcome of every input; accepted if and only if all checks pass, and when exactly the two coded errors are given |
| PricingRules.AcceptedOfferAddsUp | packages/domain/src/pricing.ts:244-507 | every line is price times quantity, each subtotal is the sum of the lines it names, the total is the subtotal less the one reduction and never negative |
| PricingRules.ChosenQuantitiesAreListed | packages/domain/src/pricing.ts:278-399 | under every article key the lines of an accepted offer hold exactly the quantity chosen: nothing lost, nothing invented |
| PricingRules.PacksOncePerRental | packages/domain/src/pricing.ts:314-355 | cups and straws are included exactly once per rental, however many machines are booked, and never without one |
| PricingRules.EveryPriceHasItsSource | packages/domain/src/pricing.ts:228-435 | every line of an accepted offer is priced by its list price if no special price is recorded for it, else by the last one with its author and time, by the manual delivery price, or is included for nothing |
| PricingRules.TotalNeverBelowZero | packages/domain/src/pricing.ts:487-492 | if what is charged has non-negative list prices, an offer that passes all other checks is accepted |
| PricingRules.NegativeListPriceReachesTheGuard | packages/domain/src/pricing.ts:487-492 | a concrete offer with a negative list price that only the last check refuses |
| PricingRules.GuardReachableExactly | packages/domain/src/pricing.ts:487-492 | some offer from a catalogue reaches the last check if and only if the catalogue holds a chargeable article with a negative list price |
| PricingRules.OrderOfSelections | packages/domain/src/pricing.ts:278-408 | reordering the selections keeps acceptance, error code and every total, and only permutes the lines |
| PricingRules.SplittingASelection | packages/domain/src/pricing.ts:278-408 | splitting a selection into two of the same product and role keeps acceptance, error code and every total |
| PricingRules.MachineSpecialMeansKey | packages/domain/src/pricing.ts:122-131 | the lines show a machine special price exactly when a machine is booked and an entry for the key "machine" exists |
| PricingRules.VoucherIsAFifthOfTheListPrice | packages/domain/src/pricing.ts:465-485 | an accepted voucher offer has list price times quantity as its base, and the voucher is a fifth of it to the nearest cent, halves up |
| PricingRules.VoucherIgnoresEverythingElse | packages/domain/src/pricing.ts:72-80 | two accepted voucher offers with the same machine have the same voucher amount, whatever else they hold |
| PricingRules.DivRoundIsNearest | packages/domain/src/pricing.ts:211-217 | the result is the nearest integer, halves up, and no other |
| PricingRules.PercentStaysWithinSubtotal | packages/domain/src/pricing.ts:446-462 | a percentage of at most 100 never exceeds the subtotal |
| PricingRules.FixedDiscountBasisPoints | packages/domain/src/pricing.ts:452-459 | basis points of a fixed discount lie in 1..10000, give back at least the amount and at most one rounding step more, exactly it up to 50 euro |
| PricingRules.DiscountTakenIsFaithful | packages/domain/src/pricing.ts:446-462 | every allowed discount, of either kind, has cents and basis points that stand for each other |
| PricingRules.AcceptedDiscount | packages/domain/src/pricing.ts:548-562 | in an accepted offer a fixed discount needs a reason exactly above a tenth of the machine subtotal and an approval exactly above a fifth |
| ResolveInput.ResolvePricingInput | packages/domain/src/pricing-input.ts:49-83 | succeeds exactly when every reference has a product, and replaces each by it in the order asked |
| ResolveInput.SameProductsSameOffer | packages/domain/src/pricing-input.ts:49-83 | two resolvers that answer with the same products give the same offer, line by line |
| ResolveInput.ReorderedRequest | packages/domain/src/pricing-input.ts:44-83 | a reordered request gives the same offer with permuted lines |
| Handover.HandoverBlockers | packages/domain/src/operations.ts:67-146 | the list of blockers in the order of the code, and that it is empty exactly for a finalised or ready handover |
| Handover.NothingOpenMeansReady | packages/domain/src/operations.ts:67-146 | no blocker is open if and only if every condition of the stated list holds, one machine per slot included |
| Handover.BlockersMean | packages/domain/src/operations.ts:67-146 | each blocker stands in the list if and only if its reason, spelled out on the input fields, holds |
| Handover.BlockersInOrder | packages/domain/src/operations.ts:67-146 | the sections of the list stand in the order of the checks |
| Handover.ReportedInTurn | packages/domain/src/operations.ts:78-139 | items, slots and stock are reported in their order, and a slot as preparation, problems, check, photo |
| Handover.RepeatsAreCounted | packages/domain/src/operations.ts:116-123 | set size and list length differ exactly when some machine is assigned twice |
| Handover.WriteNote | apps/api/src/handover/handover-service.ts:417-445 | the loop writes the delivery note of the offer lines row by row, numbered from 1 |
| Handover.NoteListsTheLines | apps/api/src/handover/handover-service.ts:418-425 | the note holds exactly the offer lines other than machine and delivery, each once and in order |
| Handover.NoteItemIs | apps/api/src/handover/handover-service.ts:419-440 | kind, unit and quantities of a row by its offer line, and which lines and purchases count |
| Handover.CanisterBlockerExactly | packages/domain/src/operations.ts:78-132 | an accepted offer issued as planned raises the canister blocker if and only if its charged purchase articles exceed twice the containers, and never an included-quantity blocker |
| Handover.OtherPurchasesAreRefused | packages/domain/src/operations.ts:124-132 | an accepted offer with three purchase articles that are no canisters, which the handover refuses |
| Handover.AcceptedOfferRaisesNoQuantityBlocker | packages/domain/src/operations.ts:78-132 | so with canisters as the only purchase article no accepted offer raises either blocker |
| Handover.NotePurchases | apps/api/src/handover/handover-service.ts:417-445 | the purchase quantity of the note is that of the offer lines, and every row is issued as planned |
| ReturnCheck.ReturnBlockers | packages/domain/src/operations.ts:176-214 | the list of blockers of a return in the order of the code, empty exactly for a finalised or ready one |
| ReturnCheck.NothingOpenMeansReady | packages/domain/src/operations.ts:176-214 | no blocker is open if and only if every machine is checked, every damage documented, somebody named and both have signed |
| ReturnCheck.BlockersMean | packages/domain/src/operations.ts:176-214 | each blocker of a return stands in the list if and only if its reason, spelled out on the input fields, holds |
| ReturnCheck.ReportedInTurn | packages/domain/src/operations.ts:176-214 | the order of the list: nothing issued, nobody named, machines with their damages in turn, signatures |
| Cleaning.OverdueInFigures | packages/domain/src/operations.ts:218-227 | overdue is a readable start more than 24 hours ago |
| Cleaning.ComparatorIsAStrictTotalOrder | packages/domain/src/operations.ts:238-246 | the comparator is irreflexive, asymmetric, total on different positions and transitive, despite infinities and NaN |
| Cleaning.CompareIsBySince | packages/domain/src/operations.ts:238-246 | at any instant it compares the cleaning starts alone, then the positions, and never yields NaN |
| Cleaning.IndependentOfNow | packages/domain/src/operations.ts:229-248 | the list does not depend on the instant: it is the stable sort by cleaning start |
| Cleaning.CleaningListIsAStableSort | packages/domain/src/operations.ts:229-248 | the list is an ordered permutation of its input, and equal starts keep their order |
| Cleaning.OverdueFirst | packages/domain/src/operations.ts:229-248 | no overdue machine stands behind one that is not |
| Cleaning.OldestFirst | packages/domain/src/operations.ts:229-248 | no machine stands before one with an earlier start, and none without a start before one with a start |
| Cleaning.AnyAlgorithmGivesThisList | packages/domain/src/operations.ts:244-247 | every ordered permutation of the entries is this list, so the engine's sorting algorithm does not matter |
| Digits.ReadInTens | apps/staff/lib/settlement.ts:33-34 | digit strings are read from the left in tens |
| Digits.NoLeadingZero | apps/web/lib/portal.ts:552-555 | numbers are printed without leading zeros |
| Money.GroupsOfThree | apps/web/lib/portal.ts:552-554 | digits are grouped in threes from the right |
| Money.PrintedAmount | apps/web/lib/portal.ts:548-557 | both prints of every amount: euros, comma, two cent digits, a minus sign in front of a negative one |
| Money.ParseInputOfEuro | apps/staff/lib/settlement.ts:20-37 | parsing the grouped print of any non-negative amount returns the amount |
| Money.ParseInputOfInput | apps/staff/lib/settlement.ts:39-43 | so does parsing the print for input fields |
| Money.ParseToCentsOfEuro | apps/staff/lib/commerce.ts:28-36 | the second parser returns the amount exactly up to seven euro digits, and nothing beyond |
| Money.NegativeAmountsAreRefused | apps/web/lib/portal.ts:548-557 | both parsers refuse the print of every negative amount |
| Money.ReadsEuros | apps/staff/lib/settlement.ts:20-37 | digits alone are whole euros, for the second parser at most seven |
| Money.ReadsEurosAndCents | apps/staff/lib/settlement.ts:20-37 | euros, a comma or a dot and one or two cent digits; a single one is tens of cents |
| Money.DotBeforeThreeDigits | apps/staff/lib/commerce.ts:28-36 | a dot before exactly three digits groups for this parser and is no amount for the other |
| Money.CharactersInFigures | apps/staff/lib/settlement.ts:25-31 | which characters are digits and which are white space |
| Money.SpacesDoNotMatter | apps/staff/lib/commerce.ts:29 | white space and the euro sign do not matter, wherever they stand |
| Money.NoForeignCharacters | apps/staff/lib/settlement.ts:31 | a text with any other character is refused by both parsers |
| Money.ParsersAgree | apps/staff/lib/commerce.ts:28-36 | wherever both parsers accept a text they return the same cents |
| Configurator.SyrupEntriesAreCanonical | apps/web/lib/configurator.ts:370-378 | strictly sorted by slug, exactly the positive whole entries, litres summing to the total |
| Configurator.DictionaryOrder | apps/web/lib/configurator.ts:376 | slugs are compared at the first character that differs, a beginning before the whole |
| Configurator.SyrupEntriesHold | apps/web/lib/configurator.ts:374-377 | an entry stands in the list exactly when the record holds its slug with its positive whole litres |
| Configurator.InsertionOrderDoesNotMatter | apps/web/lib/configurator.ts:370-378 | records with the same positive entries give the same list, whatever their insertion order |
| Configurator.LitersSum | apps/web/lib/configurator.ts:217-223 | the litres of the list sum to the total litres of the record |
| Configurator.SplitInquiryIssues | apps/web/lib/configurator.ts:545-566 | the field errors are the messages of the taken issues, the rest keeps its order, and both counts add up to all issues |
| Configurator.FirstForItsField | apps/web/lib/configurator.ts:555-560 | an issue becomes a field error exactly when it is the first for its field in the first issue's step |
| Configurator.RemainingIsTheRest | apps/web/lib/configurator.ts:540-566 | the rest lists each issue that is no field error once, at increasing positions |
| TourEvaluation.EvaluateOrder | packages/domain/src/tours.ts:172-242 | the loop computes the plan of driving the stops one after the other |
| TourEvaluation.Timeline | packages/domain/src/tours.ts:166-217 | the k-th visit in figures: the stop, reached by the matrix time from the one before, waited for until its begin, left after its buffer, with both legs from the matrix |
| TourEvaluation.ConflictsAreTheFailures | packages/domain/src/tours.ts:172-239 | the conflicts name exactly the stops without a matrix entry and those reached after the end of their window, or after their time where it has no end; feasible if and only if there is none |
| TourEvaluation.ConflictsInTurn | packages/domain/src/tours.ts:178-202 | the conflicts stand in the order of the stops, a missing connection before a missed deadline |
| TourEvaluation.OrderIsThatOfTheVisits | packages/domain/src/tours.ts:227-228 | the returned order lists the stops of the visits, one by one |
| TourEvaluation.StartAndEnd | packages/domain/src/tours.ts:216-237 | start, way back, end and duration of a plan from its last visit and the matrix |
| TourEvaluation.TotalDistanceAddsUp | packages/domain/src/tours.ts:214-228 | the total distance is the sum of all legs and the way back |
| TourEvaluation.LaterStartIsNoBetter | packages/domain/src/tours.ts:172-217 | leaving later never ends earlier and never has fewer conflicts, for any matrix |
| Arrangements.OrdersAreAllPermutations | packages/domain/src/tours.ts:254-264 | the generator yields exactly the permutations of its list |
| Arrangements.OneOrder | packages/domain/src/tours.ts:254-258 | a list of at most one element has itself as its only order |
| Arrangements.GeneratedInTurn | packages/domain/src/tours.ts:254-264 | in which order the generator yields: blocks by first element, in a block the orders of the rest |
| Arrangements.TurnedAt | packages/domain/src/tours.ts:346-350 | turning a part round mirrors it in its place and nothing else |
| TourPlanner.ScoreInFigures | packages/domain/src/tours.ts:244-252 | fewer conflicts are better, and with as many the earlier end |
| TourPlanner.NearnessInEntries | packages/domain/src/tours.ts:279-281 | nearer is the shorter matrix time; without an entry nothing is nearer |
| TourPlanner.NearestNeighbourOrder | packages/domain/src/tours.ts:266-291 | a permutation that always goes on to the first nearest of the stops still open |
| TourPlanner.BestOrder | packages/domain/src/tours.ts:323-333 | the first best order in the order of the generator: strictly better than every earlier one, beaten by none |
| TourPlanner.TurnParts | packages/domain/src/tours.ts:334-359 | the loop computes the passes, never gets worse, and ends where no turned part helps unless every one of the 50 passes found a better order |
| TourPlanner.PassInRows | packages/domain/src/tours.ts:343-359 | a pass tries the parts row by row and goes on from each better order |
| TourPlanner.PlanWithAnchors | packages/domain/src/tours.ts:293-365 | the plan evaluates an order in which anchors stay and every flexible segment is the first best of all orders or, beyond seven stops, the turned nearest neighbour order |
| TourPromises.PlannedOrderIsUnique | packages/domain/src/tours.ts:293-300 | that determines the order: the planner is deterministic |
| TourPromises.PinnedStopsStay | packages/domain/src/tours.ts:293-300 | a planned order is a permutation with every pinned stop at its place and the others within their segment |
| TourPromises.SegmentIsOptimal | packages/domain/src/tours.ts:293-333 | every flexible segment of at most seven stops, in a tour with any anchors and segments, is optimal up to and including its next anchor |
| TourPromises.SegmentIsOptimalInTheTour | packages/domain/src/tours.ts:293-333 | a rearrangement of it that raises no more conflicts up to that anchor does not improve the whole tour either |
| TourPromises.LastSegmentIsOptimal | packages/domain/src/tours.ts:293-333 | the last such segment, with at most one anchor behind it, is optimal for the whole tour before the way back |
| TourPromises.LongSegmentIsLocallyBest | packages/domain/src/tours.ts:334-359 | a longer segment of a plan is no worse than its nearest neighbour order, and no turned part of it helps unless all 50 passes improved |
| TourPromises.UnpinnedTourIsOptimal | packages/domain/src/tours.ts:301-365 | up to seven stops without pins: no order has fewer conflicts, and without a depot none as few and an earlier end |
| WayBack.WayBackIsNotMinimised | packages/domain/test/tours.test.ts:191-202 | a tour with a depot whose every planned order ends 8 seconds after another order without conflicts, on fastest ways without shortcuts |
| WayBack.EqualWaysBack | packages/domain/src/tours.ts:301-365 | with equally long ways back the planned order ends earliest, the way back included |
| WayBack.EarliestExactlyWithEqualWaysBack | packages/domain/test/tours.test.ts:191-202 | up to seven stops without pins, with or without appointments: the plan ends earliest on every network of fastest ways (none longer than a way round) if and only if all ways back take equally long |

## Left out

- Years: the Berlin rule of the directive is applied to every year, the zone's history before 1996 is not part of this model, nor are the two-digit years that `Date.UTC` reads as 19xx.
- Dates: a date text is a valid civil date; texts that are not dates appear only where the code tests for them (weekend proposal, cleaning start, staff input field).
- Numbers: whole numbers are unbounded; values beyond 2^53, where JavaScript loses digits, and list prices or container counts that are not whole are not modelled.
- Money.NegativeAmountsAreRefused: `euro` rounds fractions of a cent first; the model prints whole cents.
- Staff field errors: a field text that matches the pattern but is no time makes the formatter throw; the model has that as one outcome without the exception's text.
- StaffTime.StaffCopyAgrees: stated for the years 1000 to 9999; for others the shared conversion throws, because its pattern asks for four digits.
- StaffTime.ShowThenRead: stated for the years 1000 to 9999, which the formatter prints with the four digits the field pattern asks for.
- StaffTime.ReadThenShow: stated for the same years; a smaller year is written with leading zeros that the formatter does not print.
- Pricing texts: line descriptions, product snapshots, error messages, the always empty notes and prices shown for comparison only.
- Pricing shape: the single body of `priceOffer` is split into one method per section.
- Resolvers: the asynchronous product lookups are functions that may fail; their transactions are not modelled.
- Blocker wording: blockers are tagged values with the data of the message.
- Sorting engine: the array sort is an insertion sort; `Cleaning.AnyAlgorithmGivesThisList` shows that this makes no difference.
- Configurator.SyrupEntriesAreCanonical: keys are compared by character, which equals the order by UTF-16 code unit for texts without surrogate pairs.
- TourEvaluation.EvaluateOrder: durations and distances are whole seconds and metres; conflict messages, labels and the provider's name are left out.
- TourPromises.LongSegmentIsLocallyBest: when all 50 passes improved, nothing more is said, because the search is cut off there.
- WayBack.EarliestExactlyWithEqualWaysBack: a stop at the depot's own matrix point is left out; the callers number the stops behind the depot (apps/api/src/tours/planning-service.ts:233-236).
- Berlin midnight of the offer list in the staff app: it compares a locale-formatted hour text, which the time model does not determine.
- Settlement totals, cancellation, voucher redemption states, tour stop states and navigation links: case tables without further interplay.
- Services, database, job queue, offline synchronisation, user interface, PDF drawing and GPS distance: input and output, or floating point trigonometry.
