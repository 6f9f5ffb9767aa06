/** `Array.prototype.sort` with a consistent comparator (section 23.1.3.30 of
    ECMA-262): a stable, ordered permutation. */
module Sorting {
  import opened Seqs

  ghost predicate Ordered<T>(leq: (T, T) -> bool, s: seq<T>) {
    forall i, j :: 0 <= i < j < |s| ==> leq(s[i], s[j])
  }

  ghost predicate TotalPreorder<T(!new)>(leq: (T, T) -> bool) {
    && (forall x, y :: leq(x, y) || leq(y, x))
    && (forall x, y, z :: leq(x, y) && leq(y, z) ==> leq(x, z))
  }

  /** Before the first element it does not come after, so earlier equals stay in front. */
  function Insert<T>(leq: (T, T) -> bool, x: T, s: seq<T>): seq<T> {
    if s == [] then [x]
    else if leq(x, s[0]) then [x] + s
    else [s[0]] + Insert(leq, x, s[1..])
  }

  function Sort<T>(leq: (T, T) -> bool, s: seq<T>): seq<T> {
    if s == [] then [] else Insert(leq, s[0], Sort(leq, s[1..]))
  }

  lemma SortCons<T>(leq: (T, T) -> bool, x: T, s: seq<T>)
    ensures Sort(leq, [x] + s) == Insert(leq, x, Sort(leq, s))
  {
    assert ([x] + s)[1..] == s;
  }

  lemma {:induction false} InsertKeeps<T>(leq: (T, T) -> bool, x: T, s: seq<T>)
    ensures multiset(Insert(leq, x, s)) == multiset{x} + multiset(s)
  {
    if s == [] {
    } else {
      InsertKeeps(leq, x, s[1..]);
      assert s == [s[0]] + s[1..];
    }
  }

  lemma {:induction false} SortPermutes<T>(leq: (T, T) -> bool, s: seq<T>)
    ensures Permutation(Sort(leq, s), s)
  {
    if s == [] {
    } else {
      SortPermutes(leq, s[1..]);
      InsertKeeps(leq, s[0], Sort(leq, s[1..]));
      assert s == [s[0]] + s[1..];
    }
  }

  lemma SortHas<T>(leq: (T, T) -> bool, s: seq<T>, x: T)
    ensures x in Sort(leq, s) <==> x in s
  {
    SortPermutes(leq, s);
    assert x in Sort(leq, s) <==> x in multiset(Sort(leq, s));
    assert x in s <==> x in multiset(s);
  }

  lemma {:induction false} InsertOrders<T(!new)>(leq: (T, T) -> bool, x: T, s: seq<T>)
    requires TotalPreorder(leq) && Ordered(leq, s)
    ensures Ordered(leq, Insert(leq, x, s))
  {
    if s != [] && !leq(x, s[0]) {
      var rest := Insert(leq, x, s[1..]);
      InsertOrders(leq, x, s[1..]);
      InsertKeeps(leq, x, s[1..]);
      forall j | 0 <= j < |rest| ensures leq(s[0], rest[j]) {
        assert rest[j] in multiset(rest);
        if rest[j] != x { assert rest[j] in s[1..]; }
      }
    }
  }

  lemma {:induction false} SortOrders<T(!new)>(leq: (T, T) -> bool, s: seq<T>)
    requires TotalPreorder(leq)
    ensures Ordered(leq, Sort(leq, s))
  {
    if s == [] {
    } else {
      SortOrders(leq, s[1..]);
      InsertOrders(leq, s[0], Sort(leq, s[1..]));
    }
  }

  lemma {:induction false} InsertAgrees<T(!new)>(p: (T, T) -> bool, q: (T, T) -> bool, x: T, s: seq<T>)
    requires forall y :: y in s ==> p(x, y) == q(x, y)
    ensures Insert(p, x, s) == Insert(q, x, s)
  {
    if s == [] {
    } else {
      InsertAgrees(p, q, x, s[1..]);
    }
  }

  /** Orders that agree on the elements sort them alike. */
  lemma {:induction false} SortAgrees<T(!new)>(p: (T, T) -> bool, q: (T, T) -> bool, s: seq<T>)
    requires forall x, y :: x in s && y in s ==> p(x, y) == q(x, y)
    ensures Sort(p, s) == Sort(q, s)
  {
    if s == [] {
    } else {
      SortAgrees(p, q, s[1..]);
      SortPermutes(p, s[1..]);
      var rest, sorted := s[1..], Sort(p, s[1..]);
      SameElements(sorted, rest);
      forall y | y in sorted ensures p(s[0], y) == q(s[0], y) {
        assert y in rest;
        assert y in s && s[0] in s;
      }
      InsertAgrees(p, q, s[0], sorted);
    }
  }

  /** Elements that the order does not separate: a class picked out by `p`. */
  ghost predicate OneClass<T(!new)>(leq: (T, T) -> bool, p: T -> bool) {
    forall x, y :: p(x) && p(y) ==> leq(x, y)
  }

  lemma {:induction false} InsertStable<T(!new)>(leq: (T, T) -> bool, p: T -> bool, x: T, s: seq<T>)
    requires OneClass(leq, p)
    ensures Filter(p, Insert(leq, x, s)) == Filter(p, [x] + s)
  {
    if s != [] && !leq(x, s[0]) {
      InsertStable(leq, p, x, s[1..]);
      var rest := Insert(leq, x, s[1..]);
      assert ([s[0]] + rest)[1..] == rest;
      assert ([x] + s)[1..] == s;
      assert ([x] + s[1..])[1..] == s[1..];
    }
  }

  /** Stability: elements of one class keep their order. */
  lemma {:induction false} SortStable<T(!new)>(leq: (T, T) -> bool, p: T -> bool, s: seq<T>)
    requires OneClass(leq, p)
    ensures Filter(p, Sort(leq, s)) == Filter(p, s)
  {
    if s == [] {
    } else {
      SortStable(leq, p, s[1..]);
      InsertStable(leq, p, s[0], Sort(leq, s[1..]));
      assert ([s[0]] + Sort(leq, s[1..]))[1..] == Sort(leq, s[1..]);
    }
  }

  lemma TailsPermute<T>(a: seq<T>, b: seq<T>)
    requires a != [] && b != [] && Permutation(a, b) && a[0] == b[0]
    ensures Permutation(a[1..], b[1..])
  {
    assert a == [a[0]] + a[1..] && b == [b[0]] + b[1..];
    calc {
      multiset(a[1..]);
      multiset(a) - multiset{a[0]};
      multiset(b) - multiset{b[0]};
      multiset(b[1..]);
    }
  }

  lemma SameHead<T>(leq: (T, T) -> bool, a: seq<T>, b: seq<T>)
    requires a != [] && b != [] && a[0] in b && b[0] in a && Ordered(leq, a) && Ordered(leq, b)
    requires leq(a[0], b[0]) && leq(b[0], a[0]) ==> a[0] == b[0]
    ensures a[0] == b[0]
  {
    var i :| 0 <= i < |a| && a[i] == b[0];
    var j :| 0 <= j < |b| && b[j] == a[0];
    if i > 0 && j > 0 {
      assert leq(a[0], a[i]) && leq(b[0], b[j]);
    }
  }

  /** Where the order separates any two different elements there is only one ordered permutation,
      whatever algorithm finds it. */
  lemma {:induction false} OrderedPermutationIsUnique<T>(leq: (T, T) -> bool, a: seq<T>, b: seq<T>)
    requires Permutation(a, b) && Ordered(leq, a) && Ordered(leq, b)
    requires forall x, y :: x in a && y in a && leq(x, y) && leq(y, x) ==> x == y
    ensures a == b
    decreases |a|
  {
    SameElements(a, b);
    if a == [] {
    } else {
      assert b[0] in a;
      SameHead(leq, a, b);
      TailsPermute(a, b);
      hide Permutation;
      assert a == [a[0]] + a[1..] && b == [b[0]] + b[1..];
      OrderedPermutationIsUnique(leq, a[1..], b[1..]);
    }
  }
}
