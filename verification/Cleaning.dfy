/** The cleaning list: overdue machines first, then the longest in cleaning,
    machines without a readable start last. The comparator works on JavaScript
    numbers with infinities and NaN. */
module Cleaning {
  import opened Durations
  import opened Seqs
  import opened Sorting

  const CLEANING_WARNING_HOURS := 24

  /** `null`, a text `Date.parse` cannot read, or an instant. */
  datatype Since = Missing | Unparsable | At(ms: int)

  datatype Machine<T> = Machine(item: T, cleaningSince: Since)

  /** The JavaScript numbers the rule meets. */
  datatype Num = Fin(x: int) | PosInf | NegInf | NaN

  function Sub(a: Num, b: Num): Num {
    if a.NaN? || b.NaN? then NaN
    else if a.Fin? && b.Fin? then Fin(a.x - b.x)
    else if a == b then NaN
    else if a.PosInf? || b.NegInf? then PosInf
    else NegInf
  }

  predicate Less(a: Num, b: Num) {
    if a.NaN? || b.NaN? then false
    else if a.Fin? && b.Fin? then a.x < b.x
    else a != b && (a.NegInf? || b.PosInf?)
  }

  /** `a || b`: zero and NaN fall through. */
  function Or(a: Num, b: Num): Num { if a == Fin(0) || a == NaN then b else a }

  predicate CleaningOverdue(since: Since, now: Num) {
    match since
    case Missing => false
    case Unparsable => false
    case At(ms) => Less(Fin(CLEANING_WARNING_HOURS * HOUR), Sub(now, Fin(ms)))
  }

  function ParsedSince(since: Since): Num {
    match since
    case Missing => PosInf
    case Unparsable => NaN
    case At(ms) => Fin(ms)
  }

  datatype Rank = Rank(overdue: Num, since: Num)

  function RankOf(since: Since, now: Num): Rank {
    Rank(if CleaningOverdue(since, now) then Fin(0) else Fin(1),
         if ParsedSince(since) == NaN then PosInf else ParsedSince(since))
  }

  datatype Entry<T> = Entry(machine: Machine<T>, index: int, rank: Rank)

  /** `a.rank[0] - b.rank[0] || a.rank[1] - b.rank[1] || a.index - b.index` */
  function Compare<T>(a: Entry<T>, b: Entry<T>): Num {
    Or(Or(Sub(a.rank.overdue, b.rank.overdue), Sub(a.rank.since, b.rank.since)), Sub(Fin(a.index), Fin(b.index)))
  }

  /** `a` may stand before `b`: the comparator is not positive. */
  predicate NotAfter<T>(a: Entry<T>, b: Entry<T>) { !Less(Fin(0), Compare(a, b)) }

  function Entries<T>(machines: seq<Machine<T>>, from: int, now: Num): seq<Entry<T>> {
    if machines == [] then []
    else [Entry(machines[0], from, RankOf(machines[0].cleaningSince, now))] + Entries(machines[1..], from + 1, now)
  }

  function MachineOf<T>(e: Entry<T>): Machine<T> { e.machine }

  function SortByCleaningPriority<T>(machines: seq<Machine<T>>, now: Num): seq<Machine<T>> {
    Map(MachineOf, Sort(NotAfter, Entries(machines, 0, now)))
  }

  // ---- what the list means ----

  /** Cleaning start, with missing and unreadable starts last. */
  predicate SinceNotAfter<T>(a: Machine<T>, b: Machine<T>) {
    b.cleaningSince.At? ==> a.cleaningSince.At? && a.cleaningSince.ms <= b.cleaningSince.ms
  }

  /** Entries of one list carry the rank of their machine at one instant. */
  predicate Ranked<T>(e: Entry<T>, now: Num) { e.rank == RankOf(e.machine.cleaningSince, now) }

  predicate Instant(now: Num) { now.Fin? || now.NaN? }

  predicate Falsy(k: Num) { k == Fin(0) || k == NaN }

  lemma OverdueMeansEarly(since: Since, now: Num)
    requires Instant(now)
    ensures CleaningOverdue(since, now) <==> since.At? && now.Fin? && since.ms < now.x - CLEANING_WARNING_HOURS * HOUR
  {
  }

  /** Two-part comparison where the first part never contradicts the second. */
  lemma TwoParts(oa: bool, ob: bool, ka: Num, kb: Num)
    requires (ka.Fin? || ka.PosInf?) && (kb.Fin? || kb.PosInf?)
    requires (oa && !ob ==> Less(ka, kb)) && (ob && !oa ==> Less(kb, ka))
    ensures var k := Or(Sub(Fin(if oa then 0 else 1), Fin(if ob then 0 else 1)), Sub(ka, kb));
      (Falsy(k) <==> ka == kb) && (Less(k, Fin(0)) <==> Less(ka, kb)) && (Less(Fin(0), k) <==> Less(kb, ka))
  {
  }

  /** The first two parts of the comparator compare the cleaning starts alone. */
  lemma RanksCompareBySince<T>(a: Machine<T>, b: Machine<T>, now: Num)
    requires Instant(now)
    ensures var r, s := RankOf(a.cleaningSince, now), RankOf(b.cleaningSince, now);
      var k := Or(Sub(r.overdue, s.overdue), Sub(r.since, s.since));
      && (Falsy(k) <==> SinceNotAfter(a, b) && SinceNotAfter(b, a))
      && (Less(k, Fin(0)) <==> !SinceNotAfter(b, a))
      && (Less(Fin(0), k) <==> !SinceNotAfter(a, b))
  {
    OverdueMeansEarly(a.cleaningSince, now);
    OverdueMeansEarly(b.cleaningSince, now);
    var r, s := RankOf(a.cleaningSince, now), RankOf(b.cleaningSince, now);
    hide CleaningOverdue, Or, Sub;
    TwoParts(CleaningOverdue(a.cleaningSince, now), CleaningOverdue(b.cleaningSince, now), r.since, s.since);
  }

  lemma FallsThrough(k: Num, i: int)
    ensures Or(k, Fin(i)) == if Falsy(k) then Fin(i) else k
  {
  }

  predicate BySinceThenIndex<T>(a: Entry<T>, b: Entry<T>) {
    SinceNotAfter(a.machine, b.machine) && (SinceNotAfter(b.machine, a.machine) ==> a.index <= b.index)
  }

  /** Comparing entries is comparing starts and then positions, whatever the instant. */
  lemma CompareIsBySince<T>(a: Entry<T>, b: Entry<T>, now: Num)
    requires Instant(now) && Ranked(a, now) && Ranked(b, now)
    ensures NotAfter(a, b) <==> BySinceThenIndex(a, b)
    ensures Less(Compare(a, b), Fin(0)) <==> !BySinceThenIndex(b, a)
    ensures Less(Fin(0), Compare(a, b)) <==> !BySinceThenIndex(a, b)
    ensures Compare(a, b) != NaN
  {
    RanksCompareBySince(a.machine, b.machine, now);
    FallsThrough(Or(Sub(a.rank.overdue, b.rank.overdue), Sub(a.rank.since, b.rank.since)), a.index - b.index);
    hide RankOf, Or, SinceNotAfter;
  }

  /** The comparator is a strict total order on the entries of a list, despite infinities and NaN. */
  lemma ComparatorIsAStrictTotalOrder<T>(a: Entry<T>, b: Entry<T>, c: Entry<T>, now: Num)
    requires Instant(now) && Ranked(a, now) && Ranked(b, now) && Ranked(c, now)
    ensures !Less(Compare(a, a), Fin(0))
    ensures !(Less(Compare(a, b), Fin(0)) && Less(Compare(b, a), Fin(0)))
    ensures a.index != b.index ==> Less(Compare(a, b), Fin(0)) || Less(Compare(b, a), Fin(0))
    ensures Less(Compare(a, b), Fin(0)) && Less(Compare(b, c), Fin(0)) ==> Less(Compare(a, c), Fin(0))
  {
    CompareIsBySince(a, b, now);
    CompareIsBySince(b, a, now);
    CompareIsBySince(b, c, now);
    CompareIsBySince(c, b, now);
    CompareIsBySince(a, c, now);
    CompareIsBySince(c, a, now);
    CompareIsBySince(a, a, now);
  }

  lemma {:induction false} EntriesAre<T>(machines: seq<Machine<T>>, from: int, now: Num)
    ensures var entries := Entries(machines, from, now);
      && |entries| == |machines|
      && (forall k :: 0 <= k < |entries| ==>
          Ranked(entries[k], now) && entries[k].index == from + k && entries[k].machine == machines[k])
      && Map(MachineOf, entries) == machines
  {
    if machines == [] {
    } else {
      var rest := Entries(machines[1..], from + 1, now);
      EntriesAre(machines[1..], from + 1, now);
      assert Entries(machines, from, now)[1..] == rest;
      hide RankOf;
      assert machines == [machines[0]] + machines[1..];
    }
  }

  /** Inserting an earlier entry is inserting its machine. */
  lemma {:induction false} InsertEntry<T>(e: Entry<T>, s: seq<Entry<T>>, now: Num)
    requires Instant(now) && Ranked(e, now)
    requires forall f :: f in s ==> Ranked(f, now) && e.index < f.index
    ensures Map(MachineOf, Insert(NotAfter, e, s)) == Insert(SinceNotAfter, e.machine, Map(MachineOf, s))
  {
    if s == [] {
    } else {
      assert s[0] in s;
      CompareIsBySince(e, s[0], now);
      var mapped := Map(MachineOf, s);
      assert mapped[0] == s[0].machine && mapped[1..] == Map(MachineOf, s[1..]);
      if NotAfter(e, s[0]) {
        assert ([e] + s)[1..] == s;
      } else {
        var rest := Insert(NotAfter, e, s[1..]);
        InsertEntry(e, s[1..], now);
        assert ([s[0]] + rest)[1..] == rest;
      }
    }
  }

  function FirstEntry<T>(machines: seq<Machine<T>>, from: int, now: Num): Entry<T>
    requires machines != []
  {
    Entry(machines[0], from, RankOf(machines[0].cleaningSince, now))
  }

  lemma EntriesCons<T>(machines: seq<Machine<T>>, from: int, now: Num)
    requires machines != []
    ensures Entries(machines, from, now) == [FirstEntry(machines, from, now)] + Entries(machines[1..], from + 1, now)
  {
  }

  /** The entries after the first, sorted, are all ranked and stand at later positions. */
  lemma LaterEntries<T(!new)>(machines: seq<Machine<T>>, from: int, now: Num)
    ensures forall f :: f in Sort(NotAfter, Entries(machines, from, now)) ==> Ranked(f, now) && from <= f.index
  {
    var entries := Entries(machines, from, now);
    hide Entries, Ranked, Sort;
    EntriesAre(machines, from, now);
    forall f | f in Sort(NotAfter, entries) ensures Ranked(f, now) && from <= f.index {
      SortHas(NotAfter, entries, f);
    }
  }

  /** The first entry goes in front of the later ones where its machine goes. */
  lemma InsertFirstEntry<T(!new)>(machines: seq<Machine<T>>, from: int, now: Num)
    requires Instant(now) && machines != []
    ensures var rest := Sort(NotAfter, Entries(machines[1..], from + 1, now));
      Map(MachineOf, Insert(NotAfter, FirstEntry(machines, from, now), rest))
        == Insert(SinceNotAfter, machines[0], Map(MachineOf, rest))
  {
    hide Insert, NotAfter, Map, RankOf, Entries, Sort, SinceNotAfter, CleaningOverdue;
    LaterEntries(machines[1..], from + 1, now);
    InsertEntry(FirstEntry(machines, from, now), Sort(NotAfter, Entries(machines[1..], from + 1, now)), now);
  }

  lemma {:induction false} SortedEntries<T(!new)>(machines: seq<Machine<T>>, from: int, now: Num)
    requires Instant(now)
    ensures Map(MachineOf, Sort(NotAfter, Entries(machines, from, now))) == Sort(SinceNotAfter, machines)
  {
    if machines == [] {
    } else {
      EntriesCons(machines, from, now);
      hide *;
      SortedEntries(machines[1..], from + 1, now);
      InsertFirstEntry(machines, from, now);
      SortCons(NotAfter, FirstEntry(machines, from, now), Entries(machines[1..], from + 1, now));
      SortCons(SinceNotAfter, machines[0], machines[1..]);
      assert machines == [machines[0]] + machines[1..];
    }
  }

  /** The list does not depend on the instant it is computed at: it is the plain stable sort by
      cleaning start. */
  lemma IndependentOfNow<T(!new)>(machines: seq<Machine<T>>, now: Num)
    requires Instant(now)
    ensures SortByCleaningPriority(machines, now) == Sort(SinceNotAfter, machines)
  {
    SortedEntries(machines, 0, now);
  }

  lemma SinceIsAPreorder<T(!new)>()
    ensures TotalPreorder<Machine<T>>(SinceNotAfter)
  {
  }

  /** Equal starts; all missing and unreadable ones count as one. */
  predicate SameStart<T>(m: Machine<T>, since: Since) {
    if since.At? then m.cleaningSince == since else !m.cleaningSince.At?
  }

  /** The cleaning list is a permutation of its input, ordered by cleaning start, and stable:
      machines with the same start keep their order. */
  lemma CleaningListIsAStableSort<T(!new)>(machines: seq<Machine<T>>, now: Num, since: Since)
    requires Instant(now)
    ensures var r := SortByCleaningPriority(machines, now);
      && Permutation(r, machines)
      && Ordered(SinceNotAfter, r)
      && Filter(m => SameStart(m, since), r) == Filter(m => SameStart(m, since), machines)
  {
    IndependentOfNow(machines, now);
    SortPermutes(SinceNotAfter, machines);
    SinceIsAPreorder<T>();
    SortOrders(SinceNotAfter, machines);
    SortStable(SinceNotAfter, m => SameStart(m, since), machines);
  }

  /** Overdue machines come first. */
  lemma OverdueFirst<T(!new)>(machines: seq<Machine<T>>, now: Num, i: int, j: int)
    requires Instant(now)
    requires 0 <= i < j < |SortByCleaningPriority(machines, now)|
    ensures var r := SortByCleaningPriority(machines, now);
      CleaningOverdue(r[j].cleaningSince, now) ==> CleaningOverdue(r[i].cleaningSince, now)
  {
    CleaningListIsAStableSort(machines, now, Missing);
    var r := SortByCleaningPriority(machines, now);
    assert SinceNotAfter(r[i], r[j]);
  }

  lemma BySinceThenIndexIsAPreorder<T(!new)>()
    ensures TotalPreorder<Entry<T>>(BySinceThenIndex)
  {
  }

  lemma EntriesSorted<T(!new)>(machines: seq<Machine<T>>, now: Num)
    requires Instant(now)
    ensures Ordered(NotAfter, Sort(NotAfter, Entries(machines, 0, now)))
  {
    var entries := Entries(machines, 0, now);
    EntriesAre(machines, 0, now);
    forall a, b | a in entries && b in entries ensures NotAfter(a, b) == BySinceThenIndex(a, b) {
      CompareIsBySince(a, b, now);
    }
    hide NotAfter, BySinceThenIndex, Entries, RankOf, Insert, Sort;
    SortAgrees(NotAfter, BySinceThenIndex, entries);
    BySinceThenIndexIsAPreorder<T>();
    SortOrders(BySinceThenIndex, entries);
    var sorted := Sort(NotAfter, entries);
    forall i, j | 0 <= i < j < |sorted| ensures NotAfter(sorted[i], sorted[j]) {
      SortHas(NotAfter, entries, sorted[i]);
      SortHas(NotAfter, entries, sorted[j]);
    }
  }

  /** Any sorting algorithm that returns an ordered permutation of the entries returns this list. */
  lemma AnyAlgorithmGivesThisList<T(!new)>(machines: seq<Machine<T>>, now: Num, r: seq<Entry<T>>)
    requires Instant(now)
    requires Permutation(r, Entries(machines, 0, now)) && Ordered(NotAfter, r)
    ensures Map(MachineOf, r) == SortByCleaningPriority(machines, now)
  {
    var entries := Entries(machines, 0, now);
    EntriesAre(machines, 0, now);
    SameElements(r, entries);
    forall x, y | x in r && y in r && NotAfter(x, y) && NotAfter(y, x) ensures x == y {
      CompareIsBySince(x, y, now);
      CompareIsBySince(y, x, now);
    }
    hide NotAfter, Entries, RankOf, Map, Insert, Sort;
    EntriesSorted(machines, now);
    SortPermutes(NotAfter, entries);
    OrderedPermutationIsUnique(NotAfter, r, Sort(NotAfter, entries));
  }

  /** Overdue is what has been in cleaning for more than 24 hours. */
  lemma OverdueInFigures(since: Since, now: Num)
    requires Instant(now)
    ensures CleaningOverdue(since, now) <==> since.At? && now.Fin? && now.x - since.ms > 24 * 3_600_000
  {
  }

  /** Of two machines on the list, one with a readable start never stands behind one without, nor behind a later
      start. */
  lemma OldestFirst<T(!new)>(machines: seq<Machine<T>>, now: Num, i: int, j: int)
    requires Instant(now)
    requires 0 <= i < j < |SortByCleaningPriority(machines, now)|
    ensures var r := SortByCleaningPriority(machines, now);
      r[j].cleaningSince.At? ==> r[i].cleaningSince.At? && r[i].cleaningSince.ms <= r[j].cleaningSince.ms
  {
    CleaningListIsAStableSort(machines, now, Missing);
    var r := SortByCleaningPriority(machines, now);
    assert SinceNotAfter(r[i], r[j]);
  }
}
