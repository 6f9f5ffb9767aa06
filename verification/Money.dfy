/** Euro amounts as text: the grouping printer of the public site, the plain
    printer of the staff input fields, and the two parsers of the staff app. */
module Money {
  import opened Digits
  import opened Options

  /** The characters `\s` matches and `trim` strips (white space and line terminators of ECMA-262). */
  predicate IsSpace(c: char) {
    c in {'\U{9}', '\U{A}', '\U{B}', '\U{C}', '\U{D}', ' ', '\U{A0}', '\U{1680}', '\U{2028}', '\U{2029}', '\U{202F}',
          '\U{205F}', '\U{3000}', '\U{FEFF}'}
    || '\U{2000}' <= c <= '\U{200A}'
  }

  predicate IsEuroSign(c: char) { c == '€' }

  predicate IsSpaceOrEuro(c: char) { IsSpace(c) || IsEuroSign(c) }

  predicate IsDot(c: char) { c == '.' }

  predicate IsComma(c: char) { c == ',' }

  predicate IsCommaOrDot(c: char) { IsComma(c) || IsDot(c) }

  // ---- printers ----

  /** The dot before the last `n` digits: at inner positions with a multiple of three to the right. */
  function DotBefore(n: nat): string {
    if n > 0 && n % 3 == 0 then "." else ""
  }

  /** `replace(/\B(?=(\d{3})+(?!\d))/g, '.')` on a digit string. */
  function Group(s: string): string {
    if s == "" then "" else [s[0]] + DotBefore(|s| - 1) + Group(s[1..])
  }

  function Abs(x: int): nat { if x < 0 then -x else x }

  function Sign(cents: int): string { if cents < 0 then "-" else "" }

  function Euro(cents: int): string {
    Sign(cents) + Group(Decimal(Abs(cents) / 100)) + "," + Pad2(Abs(cents) % 100) + " €"
  }

  function CentsToInput(cents: int): string {
    Sign(cents) + Decimal(Abs(cents) / 100) + "," + Pad2(Abs(cents) % 100)
  }

  // ---- text helpers of the parsers ----

  /** `replace(/[...]/g, '')` */
  function Without(s: string, drop: char -> bool): string {
    if s == "" then "" else (if drop(s[0]) then "" else [s[0]]) + Without(s[1..], drop)
  }

  function TrimStart(s: string): string {
    if s != "" && IsSpace(s[0]) then TrimStart(s[1..]) else s
  }

  function TrimEnd(s: string): string {
    if s != "" && IsSpace(s[|s| - 1]) then TrimEnd(s[..|s| - 1]) else s
  }

  function Trim(s: string): string { TrimEnd(TrimStart(s)) }

  /** Position of the first separator, or the length. */
  function FirstAt(s: string, sep: char -> bool): (i: nat)
    ensures i <= |s|
    ensures i < |s| ==> sep(s[i])
    ensures forall j :: 0 <= j < i ==> !sep(s[j])
  {
    if s == "" || sep(s[0]) then 0 else 1 + FirstAt(s[1..], sep)
  }

  /** `replace(',', '.')`: the first comma only. */
  function CommaToDot(s: string): string {
    var i := FirstAt(s, IsComma);
    if i < |s| then s[i := '.'] else s
  }

  /** The lookahead `(?=\d{3}(?:\D|$))`. */
  predicate ThreeDigitsThenNoMore(s: string) {
    |s| >= 3 && IsDigit(s[0]) && IsDigit(s[1]) && IsDigit(s[2]) && (|s| == 3 || !IsDigit(s[3]))
  }

  /** `replace(/\.(?=\d{3}(?:\D|$))/g, '')` */
  function WithoutGroupingDots(s: string): string {
    if s == "" then ""
    else (if s[0] == '.' && ThreeDigitsThenNoMore(s[1..]) then "" else [s[0]]) + WithoutGroupingDots(s[1..])
  }

  /** Cents of the digits after the separator: `(c + '00').slice(0, 2)`, which is also `padEnd(2, '0')`. */
  function CentDigits(c: string): int
    requires |c| <= 2
  {
    Value(c + (if |c| == 0 then "00" else if |c| == 1 then "0" else ""))
  }

  /** Digits, then optionally a separator and one or two digits: both parsers' regular expressions,
      with the separators and the number of euro digits they allow. */
  function ReadAmount(s: string, sep: char -> bool, maxEuroDigits: Option<nat>): Option<int> {
    var i := FirstAt(s, sep);
    var euros := s[..i];
    var cents := if i < |s| then s[i + 1..] else "";
    if !OnlyDigits(euros) || euros == "" || (maxEuroDigits.Some? && |euros| > maxEuroDigits.value) then None
    else if i < |s| && (!OnlyDigits(cents) || !(1 <= |cents| <= 2)) then None
    else Some(Value(euros) * 100 + CentDigits(cents))
  }

  /** `parseEuroInput`: with a comma every dot is a grouping dot, without one a dot is the decimal point. */
  function ParseEuroInput(raw: string): Option<int> {
    var trimmed := Without(Trim(raw), IsSpaceOrEuro);
    if trimmed == "" then None
    else ReadAmount(if ',' in trimmed then CommaToDot(Without(trimmed, IsDot)) else trimmed, IsDot, None)
  }

  /** `parseEuroToCents`: a dot before exactly three digits is a grouping dot; at most seven euro digits. */
  function ParseEuroToCents(value: string): Option<int> {
    var trimmed := Without(Without(Trim(value), IsEuroSign), IsSpace);
    if trimmed == "" then None
    else ReadAmount(WithoutGroupingDots(trimmed), IsCommaOrDot, Some(7))
  }

  // ---- cleaning ----

  /** What both parsers keep of their input. */
  function Cleaned(s: string): string { Without(s, IsSpaceOrEuro) }

  lemma {:induction false} WithoutConcat(a: string, b: string, drop: char -> bool)
    ensures Without(a + b, drop) == Without(a, drop) + Without(b, drop)
  {
    if a == "" {
      assert a + b == b;
    } else {
      assert (a + b)[1..] == a[1..] + b;
      WithoutConcat(a[1..], b, drop);
    }
  }

  lemma {:induction false} WithoutKeeps(s: string, drop: char -> bool)
    requires forall i :: 0 <= i < |s| ==> !drop(s[i])
    ensures Without(s, drop) == s
  {
    if s == "" {
    } else {
      WithoutKeeps(s[1..], drop);
    }
  }

  lemma {:induction false} BothCleanTheSame(s: string)
    ensures Without(Without(s, IsEuroSign), IsSpace) == Cleaned(s)
  {
    if s == "" {
    } else {
      var rest := Without(s[1..], IsEuroSign);
      BothCleanTheSame(s[1..]);
      if IsEuroSign(s[0]) {
        assert Without(s, IsEuroSign) == "" + rest == rest;
        assert Cleaned(s) == "" + Cleaned(s[1..]);
      } else {
        assert Without(s, IsEuroSign) == [s[0]] + rest;
        assert ([s[0]] + rest)[1..] == rest;
      }
    }
  }

  lemma {:induction false} TrimStartCleans(s: string)
    ensures Cleaned(TrimStart(s)) == Cleaned(s)
  {
    if s != "" && IsSpace(s[0]) { TrimStartCleans(s[1..]); }
  }

  lemma {:induction false} TrimEndCleans(s: string)
    ensures Cleaned(TrimEnd(s)) == Cleaned(s)
  {
    if s != "" && IsSpace(s[|s| - 1]) {
      TrimEndCleans(s[..|s| - 1]);
      assert s == s[..|s| - 1] + [s[|s| - 1]];
      WithoutConcat(s[..|s| - 1], [s[|s| - 1]], IsSpaceOrEuro);
    }
  }

  /** Both parsers first reduce their input to the same text. */
  lemma Cleaning(s: string)
    ensures Without(Trim(s), IsSpaceOrEuro) == Cleaned(s)
    ensures Without(Without(Trim(s), IsEuroSign), IsSpace) == Cleaned(s)
  {
    TrimStartCleans(s);
    TrimEndCleans(TrimStart(s));
    BothCleanTheSame(Trim(s));
  }

  // ---- grouping ----

  /** A text at whose start no run of digits goes on. */
  ghost predicate NoDigitFirst(s: string) { s == "" || !IsDigit(s[0]) }

  lemma WithoutDotBefore(n: nat, tail: string)
    ensures Without(DotBefore(n) + tail, IsDot) == Without(tail, IsDot)
  {
    if DotBefore(n) == "." {
      assert ("." + tail)[1..] == tail;
      assert Without("." + tail, IsDot) == "" + Without(tail, IsDot);
    } else {
      assert DotBefore(n) + tail == tail;
    }
  }

  lemma {:induction false} GroupWithoutDots(s: string)
    requires AllDigits(s)
    ensures Without(Group(s), IsDot) == s
  {
    if s == "" {
    } else {
      var rest := DotBefore(|s| - 1) + Group(s[1..]);
      assert Group(s) == [s[0]] + rest;
      GroupWithoutDots(s[1..]);
      WithoutDotBefore(|s| - 1, Group(s[1..]));
      hide Group, DotBefore;
      assert ([s[0]] + rest)[1..] == rest;
      assert s == [s[0]] + s[1..];
    }
  }

  lemma Thirds(n: nat)
    requires n > 0 && n % 3 == 0
    ensures n >= 3 && DotBefore(n - 1) == "" && DotBefore(n - 2) == "" && DotBefore(n) == "."
  {
  }

  lemma ConsConcat(c: char, dot: string, g: string, tail: string)
    ensures [c] + dot + g + tail == [c] + (dot + (g + tail))
  {
  }

  /** The first digit of a grouped number, what may follow it, and the rest. */
  lemma GroupStart(s: string, tail: string)
    requires s != ""
    ensures Group(s) + tail == [s[0]] + (DotBefore(|s| - 1) + (Group(s[1..]) + tail))
  {
    ConsConcat(s[0], DotBefore(|s| - 1), Group(s[1..]), tail);
  }

  lemma GroupStartNoDot(s: string, tail: string)
    requires s != "" && DotBefore(|s| - 1) == ""
    ensures Group(s) + tail == [s[0]] + (Group(s[1..]) + tail)
  {
    hide Group;
    GroupStart(s, tail);
    assert "" + (Group(s[1..]) + tail) == Group(s[1..]) + tail;
  }

  lemma EndOfGroup(s: string, tail: string)
    requires |s| >= 3 && |s| % 3 == 0 && NoDigitFirst(tail)
    ensures NoDigitFirst(DotBefore(|s| - 3) + (Group(s[3..]) + tail))
  {
    if |s| == 3 { assert DotBefore(0) + (Group(s[3..]) + tail) == tail; }
  }

  /** A full group of three starts with exactly three digits. */
  lemma FullGroup(s: string, tail: string)
    requires AllDigits(s) && s != "" && |s| % 3 == 0 && NoDigitFirst(tail)
    ensures ThreeDigitsThenNoMore(Group(s) + tail)
  {
    Thirds(|s|);
    EndOfGroup(s, tail);
    hide DotBefore, Group;
    GroupStartNoDot(s, tail);
    GroupStartNoDot(s[1..], tail);
    assert s[1..][1..] == s[2..];
    GroupStart(s[2..], tail);
    assert s[2..][1..] == s[3..];
  }

  lemma DropOne(c: char, more: string)
    ensures WithoutGroupingDots([c] + more) ==
      (if c == '.' && ThreeDigitsThenNoMore(more) then "" else [c]) + WithoutGroupingDots(more)
  {
    assert ([c] + more)[1..] == more;
  }

  lemma FullOrNoDot(s: string, tail: string)
    requires AllDigits(s) && NoDigitFirst(tail)
    ensures DotBefore(|s|) == "" || (DotBefore(|s|) == "." && ThreeDigitsThenNoMore(Group(s) + tail))
  {
    if DotBefore(|s|) == "." { FullGroup(s, tail); }
  }

  lemma DropDot(dot: string, more: string)
    requires dot == "" || (dot == "." && ThreeDigitsThenNoMore(more))
    ensures WithoutGroupingDots(dot + more) == WithoutGroupingDots(more)
  {
    if dot == "." {
      DropOne('.', more);
    } else {
      assert dot + more == more;
    }
  }

  /** One digit of a grouped number, with the dot that may follow it. */
  lemma GroupedDigit(s: string, tail: string)
    requires AllDigits(s) && s != "" && NoDigitFirst(tail)
    ensures WithoutGroupingDots(Group(s) + tail) == [s[0]] + WithoutGroupingDots(Group(s[1..]) + tail)
  {
    FullOrNoDot(s[1..], tail);
    hide DotBefore, Group, WithoutGroupingDots, ThreeDigitsThenNoMore;
    GroupStart(s, tail);
    DropOne(s[0], DotBefore(|s| - 1) + (Group(s[1..]) + tail));
    DropDot(DotBefore(|s| - 1), Group(s[1..]) + tail);
  }

  lemma HeadAndRest(s: string, x: string)
    requires s != ""
    ensures s + x == [s[0]] + (s[1..] + x)
  {
  }

  lemma {:induction false} GroupingDotsGo(s: string, tail: string)
    requires AllDigits(s) && NoDigitFirst(tail)
    ensures WithoutGroupingDots(Group(s) + tail) == s + WithoutGroupingDots(tail)
  {
    if s == "" {
      assert Group(s) + tail == tail;
    } else {
      hide Group, WithoutGroupingDots;
      GroupedDigit(s, tail);
      GroupingDotsGo(s[1..], tail);
      HeadAndRest(s, WithoutGroupingDots(tail));
    }
  }

  // ---- reading a printed amount ----

  lemma FirstAtSeparator(e: string, c: char, tail: string, sep: char -> bool)
    requires sep(c) && forall i :: 0 <= i < |e| ==> !sep(e[i])
    ensures FirstAt(e + [c] + tail, sep) == |e|
  {
    var s := e + [c] + tail;
    assert s[|e|] == c;
    assert forall i :: 0 <= i < |e| ==> s[i] == e[i];
  }

  lemma ReadWhole(e: string, c: char, f: string, sep: char -> bool, max: Option<nat>)
    requires sep(c) && AllDigits(e) && AllDigits(f) && e != "" && 1 <= |f| <= 2
    requires forall d :: IsDigit(d) ==> !sep(d)
    ensures ReadAmount(e + [c] + f, sep, max) ==
      if max.Some? && |e| > max.value then None else Some(Value(e) * 100 + CentDigits(f))
  {
    hide OnlyDigits, Value, CentDigits, FirstAt;
    var s := e + [c] + f;
    FirstAtSeparator(e, c, f, sep);
    assert s[..|e|] == e && s[|e| + 1..] == f;
  }

  /** The amount text both printers share, once spaces, euro sign and grouping are gone. */
  function Plain(cents: int, point: char): string {
    Decimal(Abs(cents) / 100) + [point] + Pad2(Abs(cents) % 100)
  }

  lemma ReadPlain(cents: nat, point: char, sep: char -> bool, max: Option<nat>)
    requires sep(point) && forall d :: IsDigit(d) ==> !sep(d)
    ensures ReadAmount(Plain(cents, point), sep, max) ==
      if max.Some? && |Decimal(cents / 100)| > max.value then None else Some(cents)
  {
    hide Decimal, Pad2, Value, ReadAmount;
    Pad2ReadsBack(cents % 100);
    DecimalReadsBack(cents / 100);
    assert Pad2(cents % 100) + "" == Pad2(cents % 100);
    ReadWhole(Decimal(cents / 100), point, Pad2(cents % 100), sep, max);
  }

  lemma DigitsAreNoSeparators()
    ensures forall d :: IsDigit(d) ==> !IsSpaceOrEuro(d) && !IsCommaOrDot(d) && !IsDot(d) && !IsComma(d)
  {
  }

  lemma {:induction false} GroupIsClean(s: string)
    requires AllDigits(s)
    ensures forall i :: 0 <= i < |Group(s)| ==> IsDigit(Group(s)[i]) || Group(s)[i] == '.'
    ensures forall i :: 0 <= i < |Group(s)| ==> !IsSpaceOrEuro(Group(s)[i]) && !IsComma(Group(s)[i])
  {
    if s == "" {
    } else {
      GroupIsClean(s[1..]);
    }
  }

  /** The printed text of a non-negative amount without spaces and euro sign. */
  lemma CleanedEuro(cents: nat)
    ensures Cleaned(Euro(cents)) == Group(Decimal(cents / 100)) + "," + Pad2(cents % 100)
  {
    var whole, f := Group(Decimal(cents / 100)), Pad2(cents % 100);
    assert Euro(cents) == whole + "," + f + " €";
    GroupIsClean(Decimal(cents / 100));
    hide Group, Decimal, Pad2;
    WithoutKeeps(whole + "," + f, IsSpaceOrEuro);
    assert Cleaned(" €") == "" by { assert " €"[1..] == "€"; assert "€"[1..] == ""; }
    WithoutConcat(whole + "," + f, " €", IsSpaceOrEuro);
  }

  lemma NoDotsIn(a: string, b: string)
    requires AllDigits(b)
    ensures Without(a + "," + b, IsDot) == Without(a, IsDot) + "," + b
  {
    WithoutKeeps("," + b, IsDot);
    WithoutConcat(a, "," + b, IsDot);
    assert a + "," + b == a + ("," + b);
    assert Without(a, IsDot) + "," + b == Without(a, IsDot) + ("," + b);
  }

  lemma PlainWithoutDots(cents: nat)
    ensures Without(Group(Decimal(cents / 100)) + "," + Pad2(cents % 100), IsDot) == Plain(cents, ',')
    ensures Without(Plain(cents, ','), IsDot) == Plain(cents, ',')
  {
    var ds, f := Decimal(cents / 100), Pad2(cents % 100);
    GroupWithoutDots(ds);
    hide Group, Decimal, Pad2, Without;
    WithoutKeeps(ds, IsDot);
    NoDotsIn(Group(ds), f);
    NoDotsIn(ds, f);
  }

  lemma CommaOfPlain(cents: nat)
    ensures CommaToDot(Plain(cents, ',')) == Plain(cents, '.')
  {
    var ds, f := Decimal(cents / 100), Pad2(cents % 100);
    hide Decimal, Pad2, FirstAt;
    FirstAtSeparator(ds, ',', f, IsComma);
    assert (ds + [','] + f)[|ds| := '.'] == ds + ['.'] + f;
  }

  /** What `parseEuroInput` makes of a printed amount once it is cleaned. */
  lemma ReadBack(cents: nat, t: string)
    requires ',' in t && Without(t, IsDot) == Plain(cents, ',')
    ensures ReadAmount(if ',' in t then CommaToDot(Without(t, IsDot)) else t, IsDot, None) == Some(cents)
  {
    hide Plain, ReadAmount, Without, CommaToDot;
    CommaOfPlain(cents);
    ReadPlain(cents, '.', IsDot, None);
  }

  /** Printing with grouping and parsing back is the identity on every non-negative amount. */
  lemma ParseInputOfEuro(cents: nat)
    ensures ParseEuroInput(Euro(cents)) == Some(cents)
  {
    hide Group, Decimal, Pad2, Without, Plain, ReadAmount, Trim, Euro, CommaToDot;
    var t := Group(Decimal(cents / 100)) + "," + Pad2(cents % 100);
    Cleaning(Euro(cents));
    CleanedEuro(cents);
    PlainWithoutDots(cents);
    assert t[|Group(Decimal(cents / 100))|] == ',';
    ReadBack(cents, t);
  }

  /** So is printing for an input field and parsing back. */
  lemma ParseInputOfInput(cents: nat)
    ensures ParseEuroInput(CentsToInput(cents)) == Some(cents)
  {
    assert CentsToInput(cents) == "" + Plain(cents, ',') == Plain(cents, ',');
    var t := Plain(cents, ',');
    assert t[|Decimal(cents / 100)|] == ',';
    hide Decimal, Pad2, Without, ReadAmount, Trim, CommaToDot, CentsToInput;
    WithoutKeeps(t, IsSpaceOrEuro);
    hide Plain;
    Cleaning(t);
    PlainWithoutDots(cents);
    ReadBack(cents, t);
  }

  const SEVEN_EURO_DIGITS := 10_000_000

  lemma {:induction false} KeptBeforeTail(s: string, tail: string)
    requires '.' !in s
    ensures WithoutGroupingDots(s + tail) == s + WithoutGroupingDots(tail)
  {
    if s == "" {
      assert s + tail == tail;
    } else {
      HeadAndRest(s, tail);
      DropOne(s[0], s[1..] + tail);
      KeptBeforeTail(s[1..], tail);
      HeadAndRest(s, WithoutGroupingDots(tail));
    }
  }

  lemma Rejoined(whole: string, ds: string, f: string)
    ensures "," + f + "" == "," + f && whole + "," + f == whole + ("," + f) && ds + ("," + f) == ds + [','] + f
  {
  }

  lemma NothingToDrop()
    ensures WithoutGroupingDots("") == ""
  {
  }

  lemma CommaTail(ds: string, f: string, whole: string)
    requires AllDigits(ds) && AllDigits(f) && whole == Group(ds)
    ensures WithoutGroupingDots(whole + "," + f) == ds + [','] + f
  {
    hide Group, WithoutGroupingDots;
    GroupingDotsGo(ds, "," + f);
    KeptBeforeTail("," + f, "");
    NothingToDrop();
    Rejoined(whole, ds, f);
  }

  lemma UngroupedEuro(cents: nat)
    ensures WithoutGroupingDots(Group(Decimal(cents / 100)) + "," + Pad2(cents % 100)) == Plain(cents, ',')
  {
    hide Group, Decimal, Pad2, WithoutGroupingDots;
    CommaTail(Decimal(cents / 100), Pad2(cents % 100), Group(Decimal(cents / 100)));
  }

  /** `parseEuroToCents` reads a printed amount back exactly while its euro part has at most seven digits. */
  lemma ParseToCentsOfEuro(cents: nat)
    ensures ParseEuroToCents(Euro(cents)) == if cents / 100 < SEVEN_EURO_DIGITS then Some(cents) else None
  {
    assert Pow10(7) == SEVEN_EURO_DIGITS;
    DecimalLength(cents / 100, 7);
    var t := Group(Decimal(cents / 100)) + "," + Pad2(cents % 100);
    assert t[|Group(Decimal(cents / 100))|] == ',';
    hide Group, Decimal, Pad2, Without, WithoutGroupingDots, ReadAmount, Trim, Euro, Pow10, Plain;
    Cleaning(Euro(cents));
    CleanedEuro(cents);
    UngroupedEuro(cents);
    ReadPlain(cents, ',', IsCommaOrDot, Some(7));
  }

  lemma MinusIsNoAmount(s: string, sep: char -> bool, max: Option<nat>)
    requires s != "" && s[0] == '-' && !sep('-')
    ensures ReadAmount(s, sep, max) == None
  {
    var i := FirstAt(s, sep);
    assert s[..i][0] == '-';
  }

  lemma MinusStays(s: string)
    requires s != "" && s[0] == '-'
    ensures ParseEuroInput(s) == None && ParseEuroToCents(s) == None
  {
    var t := Cleaned(s);
    Cleaning(s);
    assert t == ['-'] + Cleaned(s[1..]);
    assert Without(t, IsDot) == ['-'] + Without(t[1..], IsDot);
    assert WithoutGroupingDots(t) == ['-'] + WithoutGroupingDots(t[1..]);
    hide Without, WithoutGroupingDots, Trim;
    MinusIsNoAmount(t, IsDot, None);
    MinusIsNoAmount(CommaToDot(Without(t, IsDot)), IsDot, None);
    MinusIsNoAmount(WithoutGroupingDots(t), IsCommaOrDot, Some(7));
  }

  /** The print of a negative amount is refused by both parsers. */
  lemma NegativeAmountsAreRefused(cents: int)
    requires cents < 0
    ensures ParseEuroInput(Euro(cents)) == None && ParseEuroToCents(Euro(cents)) == None
    ensures ParseEuroInput(CentsToInput(cents)) == None
  {
    assert Euro(cents)[0] == '-' && CentsToInput(cents)[0] == '-';
    MinusStays(Euro(cents));
    MinusStays(CentsToInput(cents));
  }

  // ---- the two parsers against each other ----

  lemma {:induction false} DotsAside(t: string)
    ensures Without(WithoutGroupingDots(t), IsDot) == Without(t, IsDot)
    ensures ',' in t <==> ',' in WithoutGroupingDots(t)
  {
    if t == "" {
    } else {
      DotsAside(t[1..]);
      var rest := WithoutGroupingDots(t[1..]);
      if t[0] == '.' && ThreeDigitsThenNoMore(t[1..]) {
        assert "" + rest == rest;
      } else {
        assert ([t[0]] + rest)[1..] == rest;
      }
    }
  }

  /** An accepted text is digits, or digits, one separator and one or two digits. */
  lemma AcceptedShape(s: string, sep: char -> bool, max: Option<nat>) returns (e: string, c: char, f: string)
    requires ReadAmount(s, sep, max).Some? && (forall d :: IsDigit(d) ==> !sep(d)) && sep('.')
    ensures AllDigits(e) && e != "" && AllDigits(f) && |f| <= 2 && sep(c)
    ensures s == if f == "" then e else e + [c] + f
    ensures max.Some? ==> |e| <= max.value
    ensures ReadAmount(s, sep, max) == Some(Value(e) * 100 + CentDigits(f))
  {
    hide Value, CentDigits, OnlyDigits;
    var i := FirstAt(s, sep);
    e, c, f := s[..i], '.', "";
    if i < |s| {
      c, f := s[i], s[i + 1..];
    }
  }

  lemma CommaReplaced(e: string, f: string)
    requires AllDigits(e) && AllDigits(f)
    ensures Without(e + [','] + f, IsDot) == e + [','] + f
    ensures CommaToDot(e + [','] + f) == e + ['.'] + f
  {
    var u := e + [','] + f;
    hide Without, FirstAt;
    WithoutKeeps(u, IsDot);
    FirstAtSeparator(e, ',', f, IsComma);
    assert u[|e| := '.'] == e + ['.'] + f;
  }

  lemma CommaSplits(u: string, e: string, c: char, f: string)
    requires ',' in u && AllDigits(e) && AllDigits(f) && u == if f == "" then e else e + [c] + f
    ensures f != "" && c == ','
  {
    var i :| 0 <= i < |u| && u[i] == ',';
    assert forall j :: 0 <= j < |u| && j != |e| ==> IsDigit(u[j]);
  }

  /** With a comma the first parser reads what the second accepts in the same way. */
  lemma WithComma(t: string, u: string)
    requires ',' in u && Without(u, IsDot) == Without(t, IsDot)
    requires ReadAmount(u, IsCommaOrDot, Some(7)).Some?
    ensures ReadAmount(CommaToDot(Without(t, IsDot)), IsDot, None) == ReadAmount(u, IsCommaOrDot, Some(7))
  {
    DigitsAreNoSeparators();
    hide ReadAmount, Without, CentDigits, Value, CommaToDot;
    var e, c, f := AcceptedShape(u, IsCommaOrDot, Some(7));
    CommaSplits(u, e, c, f);
    CommaReplaced(e, f);
    ReadWhole(e, '.', f, IsDot, None);
  }

  lemma DecimalPointStays(e: string, f: string)
    requires '.' !in e && '.' !in f && |f| <= 2
    ensures WithoutGroupingDots(e) == e
    ensures WithoutGroupingDots(e + ['.'] + f) == e + ['.'] + f
  {
    NothingToDrop();
    KeptBeforeTail(e, "");
    KeptBeforeTail(f, "");
    DropOne('.', f);
    KeptBeforeTail(e, ['.'] + f);
    hide WithoutGroupingDots;
    assert e + "" == e && f + "" == f;
    assert e + ['.'] + f == e + (['.'] + f);
  }

  /** A text splits at its only separator in one way. */
  lemma SameSplit(e: string, c: char, f: string, e': string, c': char, f': string)
    requires AllDigits(e) && AllDigits(f) && AllDigits(e') && AllDigits(f') && !IsDigit(c) && !IsDigit(c')
    requires (if f == "" then e else e + [c] + f) == (if f' == "" then e' else e' + [c'] + f')
    ensures e == e' && f == f'
  {
    var s := if f == "" then e else e + [c] + f;
    assert f != "" ==> s[|e|] == c && s[..|e|] == e && s[|e| + 1..] == f;
    assert f' != "" ==> s[|e'|] == c' && s[..|e'|] == e' && s[|e'| + 1..] == f';
  }

  /** Without a comma, digits and one decimal point mean the same to both. */
  lemma WithoutComma(t: string)
    requires ',' !in t
    requires ReadAmount(t, IsDot, None).Some? && ReadAmount(WithoutGroupingDots(t), IsCommaOrDot, Some(7)).Some?
    ensures ReadAmount(t, IsDot, None) == ReadAmount(WithoutGroupingDots(t), IsCommaOrDot, Some(7))
  {
    DigitsAreNoSeparators();
    hide ReadAmount, CentDigits, Value, FirstAt, WithoutGroupingDots;
    var e, c, f := AcceptedShape(t, IsDot, None);
    var e', c', f' := AcceptedShape(WithoutGroupingDots(t), IsCommaOrDot, Some(7));
    DecimalPointStays(e, f);
    SameSplit(e, '.', f, e', c', f');
  }

  /** Wherever both parsers accept a text they read the same amount. */
  lemma ParsersAgree(s: string)
    requires ParseEuroInput(s).Some? && ParseEuroToCents(s).Some?
    ensures ParseEuroInput(s) == ParseEuroToCents(s)
  {
    var t := Cleaned(s);
    Cleaning(s);
    var u := WithoutGroupingDots(t);
    hide Trim, Without, ReadAmount, WithoutGroupingDots, CommaToDot;
    if ',' in t {
      DotsAside(t);
      WithComma(t, u);
    } else {
      WithoutComma(t);
    }
  }

  // ---- the printed text ----

  lemma SameDot(n: int)
    requires n > 4
    ensures DotBefore(n - 1) == DotBefore(n - 4)
  {
  }

  lemma OneGroup(s: string)
    requires s != ""
    ensures Group(s) == [s[0]] + DotBefore(|s| - 1) + Group(s[1..])
  {
  }

  lemma {:induction false} ShortGroup(s: string)
    requires |s| <= 3
    ensures Group(s) == s
  {
    if s == "" {
    } else {
      OneGroup(s);
      ShortGroup(s[1..]);
      assert DotBefore(|s| - 1) == "";
      hide Group, DotBefore;
      assert s == [s[0]] + "" + s[1..];
    }
  }

  lemma LastThree(s: string)
    requires |s| > 4
    ensures s[..|s| - 3][1..] == s[1..][..|s| - 4] && s[1..][|s| - 4..] == s[|s| - 3..] && s[..|s| - 3][0] == s[0]
  {
  }

  lemma Regrouped(a: string, g: string, t: string)
    ensures a + (g + "." + t) == a + g + "." + t
  {
  }

  /** Digits are grouped in threes from the right, with dots. */
  lemma {:induction false} GroupsOfThree(s: string)
    ensures Group(s) == if |s| <= 3 then s else Group(s[..|s| - 3]) + "." + s[|s| - 3..]
  {
    if |s| <= 3 {
      ShortGroup(s);
    } else if |s| == 4 {
      OneGroup(s);
      ShortGroup(s[1..]);
      ShortGroup(s[..1]);
      assert DotBefore(3) == ".";
      hide Group, DotBefore;
      assert s[..1] == [s[0]];
    } else {
      var rest, head := s[1..], s[..|s| - 3];
      hide *;
      GroupsOfThree(rest);
      OneGroup(s);
      OneGroup(head);
      SameDot(|s|);
      LastThree(s);
      Regrouped([s[0]] + DotBefore(|s| - 1), Group(head[1..]), s[|s| - 3..]);
    }
  }

  lemma SignInFront(sign: string, euros: string, rest: string)
    ensures sign + euros + "," + rest + " €" == sign + (euros + "," + rest + " €")
    ensures sign + euros + "," + rest == sign + (euros + "," + rest)
  {
  }

  lemma SignedText(cents: int)
    ensures var euros, rest := Decimal(Abs(cents) / 100), Pad2(Abs(cents) % 100);
      && Euro(cents) == Sign(cents) + (Group(euros) + "," + rest + " €")
      && CentsToInput(cents) == Sign(cents) + (euros + "," + rest)
  {
    hide Group, Decimal, Pad2, Abs, Sign;
    SignInFront(Sign(cents), Group(Decimal(Abs(cents) / 100)), Pad2(Abs(cents) % 100));
    SignInFront(Sign(cents), Decimal(Abs(cents) / 100), Pad2(Abs(cents) % 100));
  }

  lemma Signs(cents: int)
    requires cents >= 0
    ensures Abs(cents) == cents == Abs(-cents) && Sign(cents) == "" && (cents > 0 ==> Sign(-cents) == "-")
  {
  }

  lemma NoSign(s: string)
    ensures "" + s == s
  {
  }

  /** An amount is printed as euros in decimal, a comma and two cent digits, a negative one behind a minus sign;
      for reading with groups and a euro sign, for input fields without. */
  lemma PrintedAmount(cents: int)
    requires cents >= 0
    ensures var euros, rest := Decimal(cents / 100), Pad2(cents % 100);
      && |rest| == 2 && Value(rest) == cents % 100 && Value(euros) == cents / 100
      && Euro(cents) == Group(euros) + "," + rest + " €"
      && CentsToInput(cents) == euros + "," + rest
    ensures cents > 0 ==> Euro(-cents) == "-" + Euro(cents) && CentsToInput(-cents) == "-" + CentsToInput(cents)
  {
    hide *;
    Pad2ReadsBack(cents % 100);
    DecimalReadsBack(cents / 100);
    Signs(cents);
    SignedText(cents);
    SignedText(-cents);
    NoSign(Group(Decimal(cents / 100)) + "," + Pad2(cents % 100) + " €");
    NoSign(Decimal(cents / 100) + "," + Pad2(cents % 100));
  }

  /** The characters of amounts by their code points: the digits, and the white space and line ends of ECMA-262. */
  lemma CharactersInFigures(c: char)
    ensures IsDigit(c) <==> 48 <= c as int <= 57
    ensures IsSpace(c) <==>
      || 9 <= c as int <= 13 || c as int == 32 || c as int == 0xA0 || c as int == 0x1680 || 0x2000 <= c as int <= 0x200A
      || c as int in {0x2028, 0x2029, 0x202F, 0x205F, 0x3000, 0xFEFF}
  {
  }

  // ---- the texts the parsers read ----

  /** Space, tab, line break, no-break space and euro sign do not matter, wherever they stand. */
  lemma SpacesDoNotMatter(a: string, c: char, b: string)
    requires c in {' ', '\t', '\n', '\r', '\U{A0}', '\U{202F}', '€'}
    ensures ParseEuroInput(a + [c] + b) == ParseEuroInput(a + b)
    ensures ParseEuroToCents(a + [c] + b) == ParseEuroToCents(a + b)
  {
    Cleaning(a + [c] + b);
    Cleaning(a + b);
    assert IsSpaceOrEuro(c);
    assert Cleaned([c]) == "" by { assert [c][1..] == ""; assert Without("", IsSpaceOrEuro) == ""; }
    hide Without, Trim, ReadAmount, CommaToDot, WithoutGroupingDots, IsSpaceOrEuro;
    WithoutConcat(a + [c], b, IsSpaceOrEuro);
    WithoutConcat(a, [c], IsSpaceOrEuro);
    WithoutConcat(a, b, IsSpaceOrEuro);
    assert Cleaned(a) + "" == Cleaned(a);
  }

  lemma CleanText(s: string)
    requires forall i :: 0 <= i < |s| ==> IsDigit(s[i]) || s[i] == ',' || s[i] == '.'
    ensures Cleaned(s) == s
  {
    WithoutKeeps(s, IsSpaceOrEuro);
  }

  /** What both parsers make of a text without spaces and euro sign. */
  lemma OnCleanText(s: string)
    requires s != "" && forall i :: 0 <= i < |s| ==> IsDigit(s[i]) || s[i] == ',' || s[i] == '.'
    ensures ParseEuroInput(s) == ReadAmount(if ',' in s then CommaToDot(Without(s, IsDot)) else s, IsDot, None)
    ensures ParseEuroToCents(s) == ReadAmount(WithoutGroupingDots(s), IsCommaOrDot, Some(7))
  {
    Cleaning(s);
    CleanText(s);
    hide Without, Trim, ReadAmount, CommaToDot, WithoutGroupingDots;
  }

  lemma {:induction false} NoSeparator(e: string, sep: char -> bool)
    requires forall i :: 0 <= i < |e| ==> !sep(e[i])
    ensures FirstAt(e, sep) == |e|
  {
    if e == "" {
    } else {
      NoSeparator(e[1..], sep);
    }
  }

  lemma NoCentDigits()
    ensures CentDigits("") == 0
  {
    assert "" + "00" == ['0', '0'];
    ValueOfTwo('0', '0');
  }

  lemma ReadAlone(e: string, sep: char -> bool, max: Option<nat>)
    requires AllDigits(e) && e != "" && forall i :: 0 <= i < |e| ==> !sep(e[i])
    ensures ReadAmount(e, sep, max) == if max.Some? && |e| > max.value then None else Some(100 * Value(e))
  {
    NoCentDigits();
    hide Value, CentDigits, FirstAt, OnlyDigits, AllDigits;
    NoSeparator(e, sep);
    assert e[..|e|] == e;
  }

  lemma OneOrTwoCentDigits(f: string)
    requires 1 <= |f| <= 2
    ensures CentDigits(f) == 10 * DigitValue(f[0]) + (if |f| == 1 then 0 else DigitValue(f[1]))
  {
    hide Value;
    if |f| == 1 {
      assert f + "0" == [f[0], '0'];
      ValueOfTwo(f[0], '0');
    } else {
      assert f + "" == [f[0], f[1]];
      ValueOfTwo(f[0], f[1]);
    }
  }

  lemma SeparatedParts(e: string, point: char, f: string)
    requires AllDigits(e) && e != "" && point in {',', '.'} && AllDigits(f)
    ensures var s := e + [point] + f;
      && s != "" && (forall i :: 0 <= i < |s| ==> IsDigit(s[i]) || s[i] == ',' || s[i] == '.')
      && (',' in s <==> point == ',')
  {
    var s := e + [point] + f;
    assert s[|e|] == point;
    assert forall i :: 0 <= i < |s| && i != |e| ==> IsDigit(s[i]);
  }

  /** Whole euros. */
  lemma ReadsEuros(e: string)
    requires AllDigits(e) && e != ""
    ensures ParseEuroInput(e) == Some(100 * Value(e))
    ensures ParseEuroToCents(e) == if |e| <= 7 then Some(100 * Value(e)) else None
  {
    DigitsAreNoSeparators();
    OnCleanText(e);
    NothingToDrop();
    KeptBeforeTail(e, "");
    hide ReadAmount, Without, WithoutGroupingDots, CommaToDot, Value;
    assert e + "" == e;
    ReadAlone(e, IsDot, None);
    ReadAlone(e, IsCommaOrDot, Some(7));
  }

  lemma UngroupedText(e: string, point: char, f: string)
    requires AllDigits(e) && point in {',', '.'} && AllDigits(f) && |f| <= 2
    ensures WithoutGroupingDots(e + [point] + f) == e + [point] + f
  {
    if point == '.' {
      DecimalPointStays(e, f);
    } else {
      NothingToDrop();
      hide WithoutGroupingDots;
      KeptBeforeTail(e + [point] + f, "");
      assert e + [point] + f + "" == e + [point] + f;
    }
  }

  lemma InputReads(e: string, point: char, f: string)
    requires AllDigits(e) && e != "" && point in {',', '.'} && AllDigits(f) && 1 <= |f| <= 2
    ensures ParseEuroInput(e + [point] + f) == Some(Value(e) * 100 + CentDigits(f))
  {
    DigitsAreNoSeparators();
    SeparatedParts(e, point, f);
    hide ReadAmount, Without, CommaToDot, Value, CentDigits, ParseEuroInput, IsDigit, AllDigits;
    OnCleanText(e + [point] + f);
    if point == ',' { CommaReplaced(e, f); }
    ReadWhole(e, '.', f, IsDot, None);
  }

  lemma ToCentsReads(e: string, point: char, f: string)
    requires AllDigits(e) && e != "" && point in {',', '.'} && AllDigits(f) && 1 <= |f| <= 2
    ensures ParseEuroToCents(e + [point] + f) == if |e| <= 7 then Some(Value(e) * 100 + CentDigits(f)) else None
  {
    DigitsAreNoSeparators();
    SeparatedParts(e, point, f);
    hide ReadAmount, WithoutGroupingDots, Value, CentDigits, ParseEuroToCents, IsDigit, AllDigits;
    OnCleanText(e + [point] + f);
    UngroupedText(e, point, f);
    ReadWhole(e, point, f, IsCommaOrDot, Some(7));
  }

  /** Euros, a comma or a dot, and one or two cent digits: a single digit is tens of cents. */
  lemma ReadsEurosAndCents(e: string, point: char, f: string)
    requires AllDigits(e) && e != "" && point in {',', '.'} && AllDigits(f) && 1 <= |f| <= 2
    ensures var cents := 100 * Value(e) + 10 * DigitValue(f[0]) + (if |f| == 1 then 0 else DigitValue(f[1]));
      && ParseEuroInput(e + [point] + f) == Some(cents)
      && ParseEuroToCents(e + [point] + f) == if |e| <= 7 then Some(cents) else None
  {
    hide *;
    OneOrTwoCentDigits(f);
    InputReads(e, point, f);
    ToCentsReads(e, point, f);
  }

  lemma GroupingDotGoes(e: string, g: string)
    requires AllDigits(e) && AllDigits(g) && |g| == 3
    ensures WithoutGroupingDots(e + "." + g) == e + g
  {
    KeptBeforeTail(e, "." + g);
    DropOne('.', g);
    KeptBeforeTail(g, "");
    NothingToDrop();
    hide WithoutGroupingDots;
    assert e + "." + g == e + ("." + g) && g + "" == g && "" + g == g;
  }

  lemma NoAmount(e: string, g: string)
    requires AllDigits(e) && |g| > 2
    ensures ReadAmount(e + "." + g, IsDot, None) == None
  {
    DigitsAreNoSeparators();
    FirstAtSeparator(e, '.', g, IsDot);
    assert (e + "." + g)[|e| + 1..] == g;
  }

  lemma SeparatedFree(e: string)
    requires AllDigits(e)
    ensures forall i :: 0 <= i < |e| ==> !IsCommaOrDot(e[i]) && !IsDot(e[i])
  {
    DigitsAreNoSeparators();
  }

  /** A dot before exactly three digits groups for one parser and is no amount for the other. */
  lemma DotBeforeThreeDigits(e: string, g: string)
    requires AllDigits(e) && e != "" && AllDigits(g) && |g| == 3
    ensures ParseEuroToCents(e + "." + g) == if |e| <= 4 then Some(100 * Value(e + g)) else None
    ensures ParseEuroInput(e + "." + g) == None
  {
    SeparatedParts(e, '.', g);
    SeparatedFree(e + g);
    hide *;
    OnCleanText(e + "." + g);
    GroupingDotGoes(e, g);
    NoAmount(e, g);
    ReadAlone(e + g, IsCommaOrDot, Some(7));
  }

  lemma {:induction false} KeepsOthers(s: string, drop: char -> bool, i: int)
    requires 0 <= i < |s| && !drop(s[i])
    ensures s[i] in Without(s, drop)
  {
    if i == 0 {
    } else {
      KeepsOthers(s[1..], drop, i - 1);
    }
  }

  lemma CommaReplacedOnly(s: string, c: char)
    requires c in s && c != ','
    ensures c in CommaToDot(s)
  {
    var i :| 0 <= i < |s| && s[i] == c;
    assert i < |CommaToDot(s)| && CommaToDot(s)[i] == c;
  }

  lemma {:induction false} NoOtherDropped(t: string, c: char)
    requires c in t && c != '.'
    ensures c in WithoutGroupingDots(t)
  {
    if t[0] == c {
    } else {
      assert t == [t[0]] + t[1..];
      NoOtherDropped(t[1..], c);
    }
  }

  lemma {:induction false} ForeignStays(t: string, c: char)
    requires c in t && c != '.' && c != ','
    ensures c in WithoutGroupingDots(t) && c in CommaToDot(Without(t, IsDot))
  {
    var i :| 0 <= i < |t| && t[i] == c;
    KeepsOthers(t, IsDot, i);
    CommaReplacedOnly(Without(t, IsDot), c);
    hide FirstAt, Without;
    NoOtherDropped(t, c);
  }

  lemma NotReadable(s: string, c: char, sep: char -> bool, max: Option<nat>)
    requires c in s && !IsDigit(c) && !sep(c)
    ensures ReadAmount(s, sep, max) == None
  {
    var k :| 0 <= k < |s| && s[k] == c;
    var i := FirstAt(s, sep);
    if k < i {
      assert s[..i][k] == c;
    } else {
      assert i < k && s[i + 1..][k - i - 1] == c;
    }
  }

  /** No other character than a digit, a comma, a dot, a space or the euro sign stands in an accepted text. */
  lemma NoForeignCharacters(s: string, i: int)
    requires 0 <= i < |s| && !IsDigit(s[i]) && s[i] != ',' && s[i] != '.' && !IsSpaceOrEuro(s[i])
    ensures ParseEuroInput(s) == None && ParseEuroToCents(s) == None
  {
    var c, t := s[i], Cleaned(s);
    Cleaning(s);
    KeepsOthers(s, IsSpaceOrEuro, i);
    ForeignStays(t, c);
    hide Without, WithoutGroupingDots, Trim, CommaToDot, ReadAmount;
    NotReadable(if ',' in t then CommaToDot(Without(t, IsDot)) else t, c, IsDot, None);
    NotReadable(WithoutGroupingDots(t), c, IsCommaOrDot, Some(7));
  }

  lemma {:induction false} StartTrimmed(s: string)
    ensures TrimStart(s) == "" <==> forall i :: 0 <= i < |s| ==> IsSpace(s[i])
    ensures TrimStart(s) != "" ==> !IsSpace(TrimStart(s)[0])
  {
    if s == "" {
    } else {
      StartTrimmed(s[1..]);
      assert s == [s[0]] + s[1..];
    }
  }

  lemma {:induction false} EndTrimmed(s: string)
    requires s != "" ==> !IsSpace(s[0])
    ensures TrimEnd(s) == "" <==> s == ""
  {
    if s == "" {
    } else if IsSpace(s[|s| - 1]) {
      EndTrimmed(s[..|s| - 1]);
    }
  }

  /** The characters that do not matter are exactly white space, line ends and the euro sign. */
  lemma TrimsToNothing(s: string)
    ensures Trim(s) == "" <==> forall i :: 0 <= i < |s| ==> IsSpace(s[i])
  {
    StartTrimmed(s);
    EndTrimmed(TrimStart(s));
  }
}
