/** The staff app's own conversion, which compares formatted texts, and the two
    halves of its date-time input field. An ISO time text stands for its instant. */
module StaffTime {
  import opened Calendar
  import opened BerlinTime
  import opened Durations
  import opened BerlinClock
  import opened Digits
  import opened Options

  /** `yyyy` as `Intl` prints it. */
  function YearText(y: int): string {
    if y < 0 then "-" + Decimal(-y) else Decimal(y)
  }

  function DateText(d: Date): string
    requires Valid(d)
  {
    YearText(d.year) + "-" + Pad2(d.month) + "-" + Pad2(d.day)
  }

  function ClockText(hour: nat, minute: nat): string {
    Pad2(hour) + ":" + Pad2(minute)
  }

  /** The `en-CA` text of an instant in Europe/Berlin: "yyyy-mm-dd, hh:mm". */
  function CheckText(t: int): string {
    var p := BerlinParts(t);
    PartsOf(t);
    DateText(p.date) + ", " + ClockText(p.hour, p.minute)
  }

  predicate StartsWith(s: string, head: string) { |head| <= |s| && s[..|head|] == head }

  predicate EndsWith(s: string, tail: string) { |tail| <= |s| && s[|s| - |tail|..] == tail }

  predicate Shows(t: int, dayIso: string, hour: nat, minute: nat) {
    StartsWith(CheckText(t), dayIso) && EndsWith(CheckText(t), ClockText(hour, minute))
  }

  /** `berlinWallTimeToIso` for the day text of `d`. */
  function BerlinWallTimeToIso(d: Date, hour: nat, minute: nat): int
    requires Valid(d)
  {
    var winter := AtOffset(d, hour, minute, WINTER);
    var summer := AtOffset(d, hour, minute, SUMMER);
    if Shows(winter, DateText(d), hour, minute) then winter
    else if Shows(summer, DateText(d), hour, minute) then summer
    else winter
  }

  /** The years whose dates the app writes as yyyy-mm-dd. */
  predicate FourDigitYear(d: Date) { 1000 <= d.year <= 9999 }

  // ---- texts determine dates and times ----

  lemma Pad2Injective(a: nat, b: nat)
    requires a < 100 && b < 100 && Pad2(a) == Pad2(b)
    ensures a == b
  {
    Pad2ReadsBack(a);
    Pad2ReadsBack(b);
  }

  lemma ClockTextMatches(text: string, h: nat, m: nat, hour: nat, minute: nat)
    requires h < 100 && m < 100 && hour < 100 && minute < 100
    ensures EndsWith(text + ClockText(h, m), ClockText(hour, minute)) <==> h == hour && m == minute
  {
    Pad2ReadsBack(h);
    Pad2ReadsBack(m);
    Pad2ReadsBack(hour);
    Pad2ReadsBack(minute);
    hide Pad2, Value;
    var a, b := ClockText(h, m), ClockText(hour, minute);
    assert |a| == |b| == 5;
    assert (text + a)[|text + a| - 5..] == a;
    if a == b {
      assert a[..2] == Pad2(h) && a[3..] == Pad2(m) && b[..2] == Pad2(hour) && b[3..] == Pad2(minute);
    }
  }

  /** Digit runs before a dash are compared as a whole. */
  lemma DashSplits(a: string, x: string, b: string, y: string)
    requires AllDigits(a) && AllDigits(b)
    requires StartsWith(b + ("-" + y), a + ("-" + x))
    ensures a == b && StartsWith(y, x)
  {
    var s, t := a + ("-" + x), b + ("-" + y);
    assert forall i :: 0 <= i < |s| ==> t[..|s|][i] == s[i];
    assert s[|a|] == '-' && t[|b|] == '-';
    assert |a| == |b|;
    assert a == s[..|a|] == t[..|b|] == b;
    assert x == s[|a| + 1..] == t[|a| + 1..|s|] == y[..|x|];
  }

  lemma StartsWithPadded(a: nat, b: nat, tail: string)
    requires a < 100 && b < 100
    ensures StartsWith(Pad2(b) + tail, Pad2(a)) <==> a == b
  {
    Pad2ReadsBack(a);
    Pad2ReadsBack(b);
    hide Pad2, Value;
    assert (Pad2(b) + tail)[..2] == Pad2(b);
  }

  lemma YearTextMatches(a: int, x: string, b: int, y: string)
    requires a >= 0
    requires StartsWith(YearText(b) + ("-" + y), YearText(a) + ("-" + x))
    ensures a == b && StartsWith(y, x)
  {
    DecimalReadsBack(a);
    var s := YearText(a) + ("-" + x);
    assert IsDigit(s[0]);
    assert (YearText(b) + ("-" + y))[..|s|][0] == s[0];
    if b >= 0 {
      DecimalReadsBack(b);
      hide Decimal, Value;
      DashSplits(Decimal(a), x, Decimal(b), y);
    }
  }

  lemma DateTextParts(d: Date, tail: string)
    requires Valid(d)
    ensures DateText(d) + tail == YearText(d.year) + ("-" + (Pad2(d.month) + ("-" + (Pad2(d.day) + tail))))
  {
    hide YearText, Pad2;
  }

  lemma MonthDayBounds(d: Date)
    requires Valid(d)
    ensures 1 <= d.month < 100 && 1 <= d.day < 100
  {
  }

  /** A text starts with a day's yyyy-mm-dd exactly when it was printed for that day. */
  lemma DateTextMatches(d: Date, e: Date, tail: string)
    requires Valid(d) && Valid(e) && d.year >= 0
    ensures StartsWith(DateText(e) + tail, DateText(d)) <==> d == e
  {
    DateTextParts(d, "");
    DateTextParts(e, tail);
    hide DateText, YearText, Pad2, Valid;
    assert DateText(d) + "" == DateText(d);
    if StartsWith(DateText(e) + tail, DateText(d)) {
      YearTextMatches(d.year, Pad2(d.month) + ("-" + (Pad2(d.day) + "")),
        e.year, Pad2(e.month) + ("-" + (Pad2(e.day) + tail)));
      DashSplits(Pad2(d.month), Pad2(d.day) + "", Pad2(e.month), Pad2(e.day) + tail);
      assert Pad2(d.day) + "" == Pad2(d.day);
      MonthDayBounds(d);
      MonthDayBounds(e);
      Pad2Injective(d.month, e.month);
      StartsWithPadded(d.day, e.day, tail);
    }
  }

  /** The text comparison holds exactly when the clock parts are the asked ones. */
  lemma ShowsMeansParts(t: int, d: Date, hour: nat, minute: nat)
    requires Valid(d) && d.year >= 0 && hour < 100 && minute < 100
    ensures Shows(t, DateText(d), hour, minute) <==> BerlinParts(t) == Parts(d, hour, minute)
  {
    var p := BerlinParts(t);
    PartsOf(t);
    hide DateText, ClockText, Pad2, BerlinParts, Valid;
    var text := DateText(p.date) + ", ";
    var clock := ClockText(p.hour, p.minute);
    assert CheckText(t) == DateText(p.date) + (", " + clock);
    DateTextMatches(d, p.date, ", " + clock);
    ClockTextMatches(text, p.hour, p.minute, hour, minute);
  }

  /** The staff copy and the shared conversion agree on every day, hour and minute. */
  lemma StaffCopyAgrees(d: Date, hour: nat, minute: nat)
    requires Valid(d) && FourDigitYear(d) && hour < 100 && minute < 100
    ensures BerlinWallTimeToIso(d, hour, minute) == BerlinDateTimeToUtc(d, hour, minute)
  {
    hide Shows, BerlinParts, AtOffset, DateText;
    ShowsMeansParts(AtOffset(d, hour, minute, WINTER), d, hour, minute);
    ShowsMeansParts(AtOffset(d, hour, minute, SUMMER), d, hour, minute);
  }

  // ---- the date-time input field ----

  /** `toBerlinInput` */
  function ToBerlinInput(t: Option<int>): string {
    if t.None? then ""
    else
      var p := BerlinParts(t.value);
      PartsOf(t.value);
      DateText(p.date) + "T" + ClockText(p.hour, p.minute)
  }

  /** The regular expression `^(\d{4}-\d{2}-\d{2})T(\d{2}):(\d{2})`, anchored at the start only. */
  predicate LooksLikeInput(s: string) {
    && |s| >= 16
    && OnlyDigits(s[..4]) && s[4] == '-' && OnlyDigits(s[5..7]) && s[7] == '-' && OnlyDigits(s[8..10])
    && s[10] == 'T' && OnlyDigits(s[11..13]) && s[13] == ':' && OnlyDigits(s[14..16])
  }

  /** `null`, an instant, or the RangeError of formatting an invalid date. */
  datatype FieldResult = Nothing | At(instant: int) | Throws

  /** A time of day the ISO form allows: 24:00 is the end of the day. */
  predicate IsoTime(hour: int, minute: int) {
    ValidTime(hour, minute) || (hour == 24 && minute == 0)
  }

  /** `fromBerlinInput` */
  function FromBerlinInput(s: string): FieldResult {
    if s == "" || !LooksLikeInput(s) then Nothing
    else
      var d := Date(Value(s[..4]), Value(s[5..7]), Value(s[8..10]));
      var hour, minute := Value(s[11..13]), Value(s[14..16]);
      if Valid(d) && IsoTime(hour, minute) then At(BerlinWallTimeToIso(d, hour, minute)) else Throws
  }

  function Field(y: string, m: string, d: string, h: string, mi: string): string {
    y + "-" + m + "-" + d + "T" + (h + ":" + mi)
  }

  lemma FieldSlices(y: string, m: string, d: string, h: string, mi: string)
    requires |y| == 4 && |m| == |d| == |h| == |mi| == 2
    ensures var s := Field(y, m, d, h, mi);
      && |s| == 16 && s[4] == '-' && s[7] == '-' && s[10] == 'T' && s[13] == ':'
      && s[..4] == y && s[5..7] == m && s[8..10] == d && s[11..13] == h && s[14..16] == mi
  {
  }

  lemma FieldReads(y: string, m: string, d: string, h: string, mi: string)
    requires |y| == 4 && |m| == |d| == |h| == |mi| == 2
    requires AllDigits(y) && AllDigits(m) && AllDigits(d) && AllDigits(h) && AllDigits(mi)
    requires Valid(Date(Value(y), Value(m), Value(d))) && ValidTime(Value(h), Value(mi))
    ensures FromBerlinInput(Field(y, m, d, h, mi))
         == At(BerlinWallTimeToIso(Date(Value(y), Value(m), Value(d)), Value(h), Value(mi)))
  {
    hide Field, Value, OnlyDigits, BerlinWallTimeToIso, Valid;
    FieldSlices(y, m, d, h, mi);
  }

  lemma SlicedField(s: string, y: string, m: string, d: string, h: string, mi: string)
    requires |s| >= 16 && s[4] == '-' && s[7] == '-' && s[10] == 'T' && s[13] == ':'
    requires s[..4] == y && s[5..7] == m && s[8..10] == d && s[11..13] == h && s[14..16] == mi
    requires AllDigits(y) && AllDigits(m) && AllDigits(d) && AllDigits(h) && AllDigits(mi)
    ensures var date, hour, minute := Date(Value(y), Value(m), Value(d)), Value(h), Value(mi);
      FromBerlinInput(s) ==
        if Valid(date) && ((0 <= hour < 24 && 0 <= minute < 60) || (hour == 24 && minute == 0))
        then At(BerlinWallTimeToIso(date, hour, minute)) else Throws
  {
    hide Value, OnlyDigits, BerlinWallTimeToIso, Valid;
    assert LooksLikeInput(s);
    hide LooksLikeInput;
  }

  lemma BehindTheField(f: string, rest: string)
    requires |f| == 16
    ensures var s := f + rest;
      && |s| >= 16 && s[4] == f[4] && s[7] == f[7] && s[10] == f[10] && s[13] == f[13]
      && s[..4] == f[..4] && s[5..7] == f[5..7] && s[8..10] == f[8..10]
      && s[11..13] == f[11..13] && s[14..16] == f[14..16]
  {
  }

  lemma FieldIs(y: string, m: string, d: string, h: string, mi: string)
    ensures Field(y, m, d, h, mi) == y + "-" + m + "-" + d + "T" + (h + ":" + mi)
  {
  }

  /** What the field makes of a text of the right form, whatever stands behind it: the instant, or a throw where
      the parts are no date and time; 24:00 is a time. */
  lemma FieldExactly(y: string, m: string, d: string, h: string, mi: string, rest: string)
    requires |y| == 4 && |m| == |d| == |h| == |mi| == 2
    requires AllDigits(y) && AllDigits(m) && AllDigits(d) && AllDigits(h) && AllDigits(mi)
    ensures var date, hour, minute := Date(Value(y), Value(m), Value(d)), Value(h), Value(mi);
      FromBerlinInput(y + "-" + m + "-" + d + "T" + (h + ":" + mi) + rest) ==
        if Valid(date) && ((0 <= hour < 24 && 0 <= minute < 60) || (hour == 24 && minute == 0))
        then At(BerlinWallTimeToIso(date, hour, minute)) else Throws
  {
    var f := Field(y, m, d, h, mi);
    FieldSlices(y, m, d, h, mi);
    hide Field, FromBerlinInput, Value, BerlinWallTimeToIso, Valid;
    BehindTheField(f, rest);
    SlicedField(f + rest, y, m, d, h, mi);
    FieldIs(y, m, d, h, mi);
  }

  /** Every other text is no time. */
  lemma NoOtherFieldText(s: string)
    requires FromBerlinInput(s) != Nothing
    ensures |s| >= 16
    ensures s == s[..4] + "-" + s[5..7] + "-" + s[8..10] + "T" + (s[11..13] + ":" + s[14..16]) + s[16..]
    ensures AllDigits(s[..4]) && AllDigits(s[5..7]) && AllDigits(s[8..10])
    ensures AllDigits(s[11..13]) && AllDigits(s[14..16])
  {
    hide BerlinWallTimeToIso, Value, Valid;
  }

  lemma FourDigits(y: nat)
    requires 1000 <= y <= 9999
    ensures |Decimal(y)| == 4
  {
    DecimalLength(y, 4);
    DecimalLength(y, 3);
    assert Pow10(3) == 1000 && Pow10(4) == 10_000;
  }

  /** How the field shows an instant. */
  lemma FieldShows(t: int)
    requires FourDigitYear(BerlinDateOf(t))
    ensures ToBerlinInput(None) == ""
    ensures var s, p := ToBerlinInput(Some(t)), BerlinParts(t);
      && |s| == 16 && s[4] == '-' && s[7] == '-' && s[10] == 'T' && s[13] == ':'
      && OnlyDigits(s[..4]) && OnlyDigits(s[5..7]) && OnlyDigits(s[8..10])
      && OnlyDigits(s[11..13]) && OnlyDigits(s[14..16])
      && Value(s[..4]) == p.date.year && Value(s[5..7]) == p.date.month && Value(s[8..10]) == p.date.day
      && Value(s[11..13]) == p.hour && Value(s[14..16]) == p.minute
  {
    var p := BerlinParts(t);
    PartsOf(t);
    MonthDayBounds(p.date);
    FourDigits(p.date.year);
    DecimalReadsBack(p.date.year);
    Pad2ReadsBack(p.date.month);
    Pad2ReadsBack(p.date.day);
    Pad2ReadsBack(p.hour);
    Pad2ReadsBack(p.minute);
    hide BerlinParts, Decimal, Pad2, Value, OnlyDigits, Valid;
    FieldSlices(Decimal(p.date.year), Pad2(p.date.month), Pad2(p.date.day), Pad2(p.hour), Pad2(p.minute));
  }

  lemma FieldText(d: Date, hour: nat, minute: nat)
    requires Valid(d) && FourDigitYear(d) && ValidTime(hour, minute)
    ensures FromBerlinInput(DateText(d) + "T" + ClockText(hour, minute)) == At(BerlinDateTimeToUtc(d, hour, minute))
  {
    hide Decimal, Pad2, Value, BerlinWallTimeToIso, BerlinDateTimeToUtc, FromBerlinInput;
    FourDigits(d.year);
    DecimalReadsBack(d.year);
    Pad2ReadsBack(d.month);
    Pad2ReadsBack(d.day);
    Pad2ReadsBack(hour);
    Pad2ReadsBack(minute);
    StaffCopyAgrees(d, hour, minute);
    FieldReads(Decimal(d.year), Pad2(d.month), Pad2(d.day), Pad2(hour), Pad2(minute));
  }

  /** Showing an instant in the field and reading it back returns its minute, except that the first
      pass of the repeated October hour moves one hour on. */
  lemma ShowThenRead(t: int)
    requires FourDigitYear(BerlinDateOf(t))
    ensures FromBerlinInput(ToBerlinInput(Some(t))) == At(MinuteOf(t) + (if FirstPass(t) then HOUR else 0))
  {
    PartsOf(t);
    hide BerlinParts, DateText, ClockText, FromBerlinInput, BerlinDateTimeToUtc, MinuteOf, FirstPass, Valid;
    var p := BerlinParts(t);
    FieldText(p.date, p.hour, p.minute);
    ReadThenConvert(t);
  }

  /** Reading a field text and showing it again is exact outside the skipped March hour, and there
      shows the same minute one hour later. */
  lemma ReadThenShow(d: Date, hour: nat, minute: nat)
    requires Valid(d) && FourDigitYear(d) && ValidTime(hour, minute)
    ensures var s := DateText(d) + "T" + ClockText(hour, minute);
      FromBerlinInput(s).At? && ToBerlinInput(Some(FromBerlinInput(s).instant)) ==
        if SkippedHour(d, hour) then DateText(d) + "T" + ClockText(3, minute) else s
  {
    hide BerlinParts, DateText, ClockText, FromBerlinInput, BerlinDateTimeToUtc, Valid, IsLastSundayOf;
    FieldText(d, hour, minute);
    ExistsExactlyOutsideTheGap(d, hour, minute);
    if SkippedHour(d, hour) { SkippedHourMovesOneHourOn(d, hour, minute); }
  }
}
