/** Canonical payload lists and the partition of validation issues in the public
    configurator. */
module Configurator {
  import opened Numbers
  import opened Options
  import opened Seqs
  import opened Sorting

  // ---- strings in code unit order ----

  predicate StringLess(a: string, b: string) {
    b != "" && (a == "" || a[0] < b[0] || (a[0] == b[0] && StringLess(a[1..], b[1..])))
  }

  lemma {:induction false} NotBelowItself(a: string)
    ensures !StringLess(a, a)
  {
    if a == "" {
    } else {
      NotBelowItself(a[1..]);
    }
  }

  lemma {:induction false} StringOrder(a: string, b: string)
    ensures !StringLess(a, a)
    ensures !(StringLess(a, b) && StringLess(b, a))
    ensures StringLess(a, b) || StringLess(b, a) || a == b
    decreases |a| + |b|
  {
    NotBelowItself(a);
    if a != "" && b != "" {
      StringOrder(a[1..], b[1..]);
      assert a == [a[0]] + a[1..] && b == [b[0]] + b[1..];
    }
  }

  lemma {:induction false} StringLessIsTransitive(a: string, b: string, c: string)
    requires StringLess(a, b) && StringLess(b, c)
    ensures StringLess(a, c)
  {
    if a != "" && a[0] == b[0] == c[0] { StringLessIsTransitive(a[1..], b[1..], c[1..]); }
  }

  // ---- syrup lists ----

  /** One property of a record: liters by slug. */
  datatype Property = Property(slug: string, liters: Number)

  datatype SyrupEntry = SyrupEntry(slug: string, liters: int)

  /** An object has every key once. */
  ghost predicate IsRecord(record: seq<Property>) {
    forall i, j :: 0 <= i < j < |record| ==> record[i].slug != record[j].slug
  }

  predicate Counts(p: Property) { PositiveInt(p.liters) }

  predicate SlugNotAfter(a: Property, b: Property) { !StringLess(b.slug, a.slug) }

  function ToEntry(p: Property): SyrupEntry { SyrupEntry(p.slug, Amount(p.liters)) }

  function SyrupEntries(record: seq<Property>): seq<SyrupEntry> {
    Map(ToEntry, Sort(SlugNotAfter, Filter(Counts, record)))
  }

  function LitersOf(p: Property): int { if PositiveInt(p.liters) then p.liters.n else 0 }

  function TotalLiters(record: seq<Property>): int { Sum(LitersOf, record) }

  function EntryLiters(e: SyrupEntry): int { e.liters }

  lemma SlugOrderIsAPreorder()
    ensures TotalPreorder(SlugNotAfter)
  {
    forall x: Property, y: Property ensures SlugNotAfter(x, y) || SlugNotAfter(y, x) {
      StringOrder(x.slug, y.slug);
    }
    forall x: Property, y: Property, z: Property | SlugNotAfter(x, y) && SlugNotAfter(y, z) ensures SlugNotAfter(x, z) {
      StringOrder(x.slug, y.slug);
      StringOrder(y.slug, z.slug);
      if StringLess(z.slug, x.slug) {
        if StringLess(x.slug, y.slug) { StringLessIsTransitive(z.slug, x.slug, y.slug); }
      }
    }
  }

  lemma {:induction false} FilterOfRecord(record: seq<Property>)
    requires IsRecord(record)
    ensures IsRecord(Filter(Counts, record))
  {
    if record == [] {
    } else {
      var rest := Filter(Counts, record[1..]);
      FilterOfRecord(record[1..]);
      forall j | 0 <= j < |rest| ensures rest[j].slug != record[0].slug {
        FilterHas(Counts, record[1..], rest[j]);
      }
    }
  }

  lemma TwiceIn(s: seq<Property>, i: int, j: int)
    requires 0 <= i < j < |s| && s[i] == s[j]
    ensures multiset(s)[s[i]] >= 2
  {
    assert s == s[..i] + [s[i]] + s[i + 1..j] + [s[j]] + s[j + 1..];
  }

  lemma OnceIn(s: seq<Property>, k: int)
    requires 0 <= k < |s| && IsRecord(s)
    ensures multiset(s)[s[k]] == 1
  {
    assert s == s[..k] + [s[k]] + s[k + 1..];
    assert s[k] !in s[..k] && s[k] !in s[k + 1..];
  }

  /** Records as multisets: reordering keeps every key once. */
  lemma RecordReordered(a: seq<Property>, b: seq<Property>)
    requires IsRecord(a) && Permutation(a, b)
    ensures IsRecord(b)
    ensures forall x, y :: x in a && y in a && x.slug == y.slug ==> x == y
  {
    SameElements(a, b);
    forall i, j | 0 <= i < j < |b| ensures b[i].slug != b[j].slug {
      if b[i].slug == b[j].slug {
        assert b[i] in a && b[j] in a;
        assert b[i] == b[j];
        TwiceIn(b, i, j);
        assert multiset(a)[b[i]] >= 2;
        var k :| 0 <= k < |a| && a[k] == b[i];
        OnceIn(a, k);
      }
    }
  }

  lemma EntryOrigin(record: seq<Property>, e: SyrupEntry)
    ensures e in SyrupEntries(record) <==> exists p :: p in record && Counts(p) && e == ToEntry(p)
  {
    var kept := Filter(Counts, record);
    var sorted := Sort(SlugNotAfter, kept);
    var r := SyrupEntries(record);
    MapAt(ToEntry, sorted, 0);
    if e in r {
      var i :| 0 <= i < |r| && r[i] == e;
      MapAt(ToEntry, sorted, i);
      SortHas(SlugNotAfter, kept, sorted[i]);
      FilterHas(Counts, record, sorted[i]);
    }
    if p :| p in record && Counts(p) && e == ToEntry(p) {
      FilterHas(Counts, record, p);
      SortHas(SlugNotAfter, kept, p);
      var i :| 0 <= i < |sorted| && sorted[i] == p;
      MapAt(ToEntry, sorted, i);
    }
  }

  lemma {:induction false} MappedLiters(s: seq<Property>)
    requires forall p :: p in s ==> Counts(p)
    ensures Sum(EntryLiters, Map(ToEntry, s)) == Sum(LitersOf, s)
  {
    if s == [] {
    } else {
      assert s[0] in s;
      MappedLiters(s[1..]);
      assert Map(ToEntry, s)[1..] == Map(ToEntry, s[1..]);
    }
  }

  lemma {:induction false} OnlyCountedLiters(record: seq<Property>)
    ensures Sum(LitersOf, Filter(Counts, record)) == Sum(LitersOf, record)
  {
    if record == [] {
    } else {
      OnlyCountedLiters(record[1..]);
      if Counts(record[0]) {
        assert ([record[0]] + Filter(Counts, record[1..]))[1..] == Filter(Counts, record[1..]);
      }
    }
  }

  lemma LitersSum(record: seq<Property>)
    ensures Sum(EntryLiters, SyrupEntries(record)) == TotalLiters(record)
  {
    var kept := Filter(Counts, record);
    OnlyCountedLiters(record);
    SortPermutes(SlugNotAfter, kept);
    SumPermuted(LitersOf, Sort(SlugNotAfter, kept), kept);
    forall p | p in Sort(SlugNotAfter, kept) ensures Counts(p) {
      SortHas(SlugNotAfter, kept, p);
      FilterHas(Counts, record, p);
    }
    MappedLiters(Sort(SlugNotAfter, kept));
  }

  /** The list is strictly sorted by slug, holds exactly the positive whole entries, and its litres
      sum to `totalLiters`. */
  lemma SyrupEntriesAreCanonical(record: seq<Property>)
    requires IsRecord(record)
    ensures var r := SyrupEntries(record);
      && (forall i, j :: 0 <= i < j < |r| ==> StringLess(r[i].slug, r[j].slug))
      && (forall e: SyrupEntry :: e in r <==> exists p :: p in record && Counts(p) && e == ToEntry(p))
      && Sum(EntryLiters, r) == TotalLiters(record)
  {
    var kept := Filter(Counts, record);
    var sorted := Sort(SlugNotAfter, kept);
    var r := SyrupEntries(record);
    FilterOfRecord(record);
    SortPermutes(SlugNotAfter, kept);
    SlugOrderIsAPreorder();
    SortOrders(SlugNotAfter, kept);
    RecordReordered(kept, sorted);
    MapAt(ToEntry, sorted, 0);
    forall i, j | 0 <= i < j < |r| ensures StringLess(r[i].slug, r[j].slug) {
      MapAt(ToEntry, sorted, i);
      MapAt(ToEntry, sorted, j);
      StringOrder(sorted[i].slug, sorted[j].slug);
    }
    forall e: SyrupEntry ensures e in r <==> exists p :: p in record && Counts(p) && e == ToEntry(p) {
      EntryOrigin(record, e);
    }
    LitersSum(record);
  }

  /** Two records with the same positive entries, in whatever insertion order and whatever else they
      hold, give the same list. */
  lemma InsertionOrderDoesNotMatter(a: seq<Property>, b: seq<Property>)
    requires IsRecord(a) && IsRecord(b)
    requires Permutation(Filter(Counts, a), Filter(Counts, b))
    ensures SyrupEntries(a) == SyrupEntries(b)
  {
    var ka, kb := Filter(Counts, a), Filter(Counts, b);
    var sa, sb := Sort(SlugNotAfter, ka), Sort(SlugNotAfter, kb);
    FilterOfRecord(a);
    SortPermutes(SlugNotAfter, ka);
    SortPermutes(SlugNotAfter, kb);
    SlugOrderIsAPreorder();
    SortOrders(SlugNotAfter, ka);
    SortOrders(SlugNotAfter, kb);
    RecordReordered(ka, sa);
    forall x, y | x in sa && y in sa && SlugNotAfter(x, y) && SlugNotAfter(y, x) ensures x == y {
      StringOrder(x.slug, y.slug);
      SortHas(SlugNotAfter, ka, x);
      SortHas(SlugNotAfter, ka, y);
    }
    OrderedPermutationIsUnique(SlugNotAfter, sa, sb);
  }

  // ---- inquiry issues ----

  datatype Issue = Issue(path: string, message: string, step: string, field: Option<string>)

  /** An issue that becomes the error of its field: the first for that field in the first issue's step. */
  ghost predicate Taken(issues: seq<Issue>, i: int)
    requires 0 <= i < |issues|
  {
    && issues[i].step == issues[0].step
    && issues[i].field.Some?
    && forall j :: 0 <= j < i ==> !(issues[j].step == issues[0].step && issues[j].field == issues[i].field)
  }

  /** Positions before `n` of the issues that are not taken, in order. */
  ghost function Kept(issues: seq<Issue>, n: nat): seq<nat>
    requires n <= |issues|
  {
    if n == 0 then []
    else Kept(issues, n - 1) + (if Taken(issues, n - 1) then [] else [n - 1])
  }

  /** The field errors are the messages of the taken issues before `n`. */
  ghost predicate ErrorsUpTo(issues: seq<Issue>, n: int, errors: map<string, string>)
    requires 0 <= n <= |issues|
  {
    && (forall i :: 0 <= i < n && Taken(issues, i) ==>
        issues[i].field.value in errors && errors[issues[i].field.value] == issues[i].message)
    && (forall f :: f in errors ==> exists i :: 0 <= i < n && Taken(issues, i) && issues[i].field == Some(f))
  }

  /** The issues before `n` that are not taken, in their order. */
  ghost function Remaining(issues: seq<Issue>, n: nat): seq<Issue>
    requires n <= |issues|
  {
    if n == 0 then []
    else Remaining(issues, n - 1) + (if Taken(issues, n - 1) then [] else [issues[n - 1]])
  }

  lemma NoErrorsYet(issues: seq<Issue>)
    ensures ErrorsUpTo(issues, 0, map[])
  {
  }

  lemma OneMoreIssue(issues: seq<Issue>, i: int, errors: map<string, string>)
    requires 0 <= i < |issues| && ErrorsUpTo(issues, i, errors)
    ensures !Taken(issues, i) ==> ErrorsUpTo(issues, i + 1, errors)
    ensures Taken(issues, i) ==> issues[i].field.Some? && ErrorsUpTo(
        issues, i + 1, errors[issues[i].field.value := issues[i].message])
  {
    if Taken(issues, i) {
      var more := errors[issues[i].field.value := issues[i].message];
      forall f | f in more ensures exists k :: 0 <= k < i + 1 && Taken(issues, k) && issues[k].field == Some(f) {
        if f in errors {
          var k :| 0 <= k < i && Taken(issues, k) && issues[k].field == Some(f);
        }
      }
    }
  }

  /** The taken issue of a field that was seen before position `i`. */
  lemma {:induction false} EarliestFor(issues: seq<Issue>, i: int) returns (j: int)
    requires 0 <= i < |issues| && issues[i].field.Some? && issues[i].step == issues[0].step && !Taken(issues, i)
    ensures 0 <= j < i && Taken(issues, j) && issues[j].field == issues[i].field
    decreases i
  {
    j :| 0 <= j < i && issues[j].step == issues[0].step && issues[j].field == issues[i].field;
    if !Taken(issues, j) { j := EarliestFor(issues, j); }
  }

  lemma FirstForItsField(issues: seq<Issue>, i: int, errors: map<string, string>)
    requires 0 <= i < |issues| && ErrorsUpTo(issues, i, errors)
    ensures Taken(issues, i) <==>
      issues[i].step == issues[0].step && issues[i].field.Some? && issues[i].field.value !in errors
  {
    if issues[i].step == issues[0].step && issues[i].field.Some? && !Taken(issues, i) {
      var j := EarliestFor(issues, i);
    }
  }

  /** `splitInquiryIssues`: every issue ends up in exactly one place. */
  method SplitInquiryIssues(issues: seq<Issue>)
    returns (step: Option<string>, fieldErrors: map<string, string>, remaining: seq<Issue>)
    ensures step == if issues == [] then None else Some(issues[0].step)
    ensures ErrorsUpTo(issues, |issues|, fieldErrors)
    ensures remaining == Remaining(issues, |issues|)
    ensures |fieldErrors| + |remaining| == |issues|
  {
    hide Taken, ErrorsUpTo;
    fieldErrors, remaining := map[], [];
    NoErrorsYet(issues);
    if issues == [] { return None, fieldErrors, remaining; }
    var first := issues[0];
    for i := 0 to |issues|
      invariant ErrorsUpTo(issues, i, fieldErrors)
      invariant remaining == Remaining(issues, i)
      invariant |fieldErrors| + |remaining| == i
    {
      var issue := issues[i];
      FirstForItsField(issues, i, fieldErrors);
      OneMoreIssue(issues, i, fieldErrors);
      if issue.step == first.step && issue.field.Some? && issue.field.value !in fieldErrors {
        fieldErrors := fieldErrors[issue.field.value := issue.message];
      } else {
        remaining := remaining + [issue];
      }
    }
    step := Some(first.step);
  }

  lemma {:induction false} KeptPositions(issues: seq<Issue>, n: nat)
    requires n <= |issues|
    ensures forall k :: 0 <= k < |Kept(issues, n)| ==> Kept(issues, n)[k] < n
    ensures forall k, l :: 0 <= k < l < |Kept(issues, n)| ==> Kept(issues, n)[k] < Kept(issues, n)[l]
    ensures forall i: nat :: i in Kept(issues, n) <==> i < n && !Taken(issues, i)
  {
    if n == 0 {
    } else {
      KeptPositions(issues, n - 1);
    }
  }

  lemma {:induction false} RemainingAtKept(issues: seq<Issue>, n: nat)
    requires n <= |issues|
    ensures |Remaining(issues, n)| == |Kept(issues, n)|
    ensures forall k :: 0 <= k < |Kept(issues, n)| ==>
      Kept(issues, n)[k] < n && Remaining(issues, n)[k] == issues[Kept(issues, n)[k]]
  {
    if n == 0 {
    } else {
      hide Taken;
      var kept, rest := Kept(issues, n - 1), Remaining(issues, n - 1);
      RemainingAtKept(issues, n - 1);
      if Taken(issues, n - 1) {
        assert Kept(issues, n) == kept + [] == kept && Remaining(issues, n) == rest + [] == rest;
      } else {
        assert Kept(issues, n) == kept + [n - 1] && Remaining(issues, n) == rest + [issues[n - 1]];
      }
      hide Kept, Remaining;
    }
  }

  /** `remaining` loses, repeats and reorders nothing: it lists the issues at strictly increasing
      positions, and those are exactly the positions of the issues that became no field error. */
  lemma RemainingIsTheRest(issues: seq<Issue>)
    ensures var r, kept := Remaining(issues, |issues|), Kept(issues, |issues|);
      && |r| == |kept|
      && (forall k :: 0 <= k < |r| ==> kept[k] < |issues| && r[k] == issues[kept[k]])
      && (forall k, l :: 0 <= k < l < |kept| ==> kept[k] < kept[l])
      && (forall i: nat :: i in kept <==> i < |issues| && !Taken(issues, i))
  {
    hide Remaining, Kept, Taken;
    KeptPositions(issues, |issues|);
    RemainingAtKept(issues, |issues|);
  }

  // ---- the order and the entries in figures ----

  /** Where two texts first differ, or one ends. */
  ghost predicate FirstDifference(a: string, b: string, k: int) {
    0 <= k <= |a| && k <= |b| && a[..k] == b[..k] && (k == |a| || k == |b| || a[k] != b[k])
  }

  /** Slugs are ordered as in a dictionary: by the first character that differs, a beginning before the whole. */
  lemma {:induction false} DictionaryOrder(a: string, b: string, k: int)
    requires FirstDifference(a, b, k)
    ensures StringLess(a, b) <==> k < |b| && (k == |a| || a[k] < b[k])
    decreases k
  {
    if k == 0 {
    } else {
      assert a[..k][0] == a[0] && b[..k][0] == b[0];
      assert a[1..][..k - 1] == a[..k][1..] && b[1..][..k - 1] == b[..k][1..];
      DictionaryOrder(a[1..], b[1..], k - 1);
    }
  }

  /** An entry stands in the list exactly when the record holds its slug with its positive whole number of litres. */
  lemma SyrupEntriesHold(record: seq<Property>, e: SyrupEntry)
    ensures e in SyrupEntries(record) <==> e.liters >= 1 && Property(e.slug, Whole(e.liters)) in record
  {
    EntryOrigin(record, e);
    hide SyrupEntries;
  }
}
