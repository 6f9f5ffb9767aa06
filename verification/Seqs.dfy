/** Sums, maps and filters over lists, and what reordering a list does to them. */
module Seqs {

  function Sum<T>(f: T -> int, s: seq<T>): int {
    if s == [] then 0 else f(s[0]) + Sum(f, s[1..])
  }

  function Map<T, U>(f: T -> U, s: seq<T>): seq<U> {
    if s == [] then [] else [f(s[0])] + Map(f, s[1..])
  }

  /** One element, where the condition holds. */
  function When<T>(condition: bool, x: T): seq<T> { if condition then [x] else [] }

  function Filter<T>(p: T -> bool, s: seq<T>): seq<T> {
    if s == [] then []
    else if p(s[0]) then [s[0]] + Filter(p, s[1..])
    else Filter(p, s[1..])
  }

  ghost predicate All<T>(p: T -> bool, s: seq<T>) {
    forall x :: x in s ==> p(x)
  }

  ghost predicate Permutation<T>(a: seq<T>, b: seq<T>) {
    multiset(a) == multiset(b)
  }

  lemma {:induction false} SumConcat<T>(f: T -> int, a: seq<T>, b: seq<T>)
    ensures Sum(f, a + b) == Sum(f, a) + Sum(f, b)
  {
    if a == [] {
      assert a + b == b;
    } else {
      assert (a + b)[1..] == a[1..] + b;
      SumConcat(f, a[1..], b);
    }
  }

  lemma SumOne<T>(f: T -> int, x: T)
    ensures Sum(f, [x]) == f(x)
  {
    assert [x][1..] == [];
  }

  lemma SumSnoc<T>(f: T -> int, s: seq<T>, i: int)
    requires 0 <= i < |s|
    ensures Sum(f, s[..i + 1]) == Sum(f, s[..i]) + f(s[i])
  {
    assert s[..i + 1] == s[..i] + [s[i]];
    SumConcat(f, s[..i], [s[i]]);
    SumOne(f, s[i]);
  }

  lemma {:induction false} MapConcat<T, U>(f: T -> U, a: seq<T>, b: seq<T>)
    ensures Map(f, a + b) == Map(f, a) + Map(f, b)
  {
    if a == [] {
      assert a + b == b;
    } else {
      assert (a + b)[1..] == a[1..] + b;
      MapConcat(f, a[1..], b);
    }
  }

  lemma {:induction false} FilterConcat<T>(p: T -> bool, a: seq<T>, b: seq<T>)
    ensures Filter(p, a + b) == Filter(p, a) + Filter(p, b)
  {
    if a == [] {
      assert a + b == b;
    } else {
      assert (a + b)[1..] == a[1..] + b;
      FilterConcat(p, a[1..], b);
    }
  }

  lemma MapFilterSnoc<T, U>(f: T -> U, p: T -> bool, s: seq<T>, i: int)
    requires 0 <= i < |s|
    ensures Map(f, Filter(p, s[..i + 1])) == Map(f, Filter(p, s[..i])) + (if p(s[i]) then [f(s[i])] else [])
  {
    assert s[..i + 1] == s[..i] + [s[i]];
    FilterConcat(p, s[..i], [s[i]]);
    assert [s[i]][1..] == [];
    var last := Filter(p, [s[i]]);
    assert last == if p(s[i]) then [s[i]] else [];
    MapConcat(f, Filter(p, s[..i]), last);
    assert last[if last == [] then 0 else 1..] == [];
  }

  lemma MapSnoc<T, U>(f: T -> U, s: seq<T>, i: int)
    requires 0 <= i < |s|
    ensures Map(f, s[..i + 1]) == Map(f, s[..i]) + [f(s[i])]
  {
    assert s[..i + 1] == s[..i] + [s[i]];
    MapConcat(f, s[..i], [s[i]]);
    assert [s[i]][1..] == [];
  }

  lemma {:induction false} MapAt<T, U>(f: T -> U, s: seq<T>, i: int)
    ensures |Map(f, s)| == |s|
    ensures 0 <= i < |s| ==> Map(f, s)[i] == f(s[i])
  {
    if s == [] {
    } else {
      MapAt(f, s[1..], i - 1);
    }
  }

  /** The positions before `n` whose elements are picked, in order. */
  ghost function Picked<T>(p: T -> bool, s: seq<T>, n: nat): seq<nat>
    requires n <= |s|
  {
    if n == 0 then [] else Picked(p, s, n - 1) + (if p(s[n - 1]) then [n - 1] else [])
  }

  lemma {:induction false} PickedPositions<T>(p: T -> bool, s: seq<T>, n: nat)
    requires n <= |s|
    ensures forall k :: 0 <= k < |Picked(p, s, n)| ==> Picked(p, s, n)[k] < n
    ensures forall k, l :: 0 <= k < l < |Picked(p, s, n)| ==> Picked(p, s, n)[k] < Picked(p, s, n)[l]
    ensures forall i: nat :: i in Picked(p, s, n) <==> i < n && p(s[i])
  {
    if n == 0 {
    } else {
      PickedPositions(p, s, n - 1);
    }
  }

  /** A filtered list holds the picked elements, each at its place. */
  lemma {:induction false} FilterAtPicked<T>(p: T -> bool, s: seq<T>, n: nat)
    requires n <= |s|
    ensures |Filter(p, s[..n])| == |Picked(p, s, n)|
    ensures forall k :: 0 <= k < |Picked(p, s, n)| ==>
      Picked(p, s, n)[k] < |s| && Filter(p, s[..n])[k] == s[Picked(p, s, n)[k]]
  {
    if n == 0 {
    } else {
      FilterAtPicked(p, s, n - 1);
      FilterConcat(p, s[..n - 1], [s[n - 1]]);
      assert s[..n] == s[..n - 1] + [s[n - 1]];
      assert [s[n - 1]][1..] == [];
    }
  }

  lemma {:induction false} FilterHas<T>(p: T -> bool, s: seq<T>, x: T)
    ensures x in Filter(p, s) <==> x in s && p(x)
  {
    if s == [] {
    } else {
      FilterHas(p, s[1..], x);
    }
  }

  /** Takes the first occurrence of `x` out of the other list. */
  lemma Without<T>(a: seq<T>, b: seq<T>) returns (k: int)
    requires a != [] && Permutation(a, b)
    ensures 0 <= k < |b| && b[k] == a[0]
    ensures b == b[..k] + [b[k]] + b[k + 1..]
    ensures Permutation(a[1..], b[..k] + b[k + 1..])
  {
    assert a[0] in multiset(a);
    k :| 0 <= k < |b| && b[k] == a[0];
    assert a == [a[0]] + a[1..];
    assert b == b[..k] + [b[k]] + b[k + 1..];
    calc {
      multiset(a[1..]);
      multiset(a) - multiset{a[0]};
      multiset(b) - multiset{b[k]};
      multiset(b[..k]) + multiset(b[k + 1..]);
      multiset(b[..k] + b[k + 1..]);
    }
  }

  /** Sums do not depend on the order of the list. */
  lemma {:induction false} SumPermuted<T>(f: T -> int, a: seq<T>, b: seq<T>)
    requires Permutation(a, b)
    ensures Sum(f, a) == Sum(f, b)
    decreases |a|
  {
    if a == [] {
      assert multiset(b) == multiset{};
    } else {
      var k := Without(a, b);
      SumPermuted(f, a[1..], b[..k] + b[k + 1..]);
      SumConcat(f, b[..k], b[k + 1..]);
      SumConcat(f, b[..k] + [b[k]], b[k + 1..]);
      SumConcat(f, b[..k], [b[k]]);
      SumOne(f, b[k]);
    }
  }

  /** Mapping a reordered list reorders the result. */
  lemma {:induction false} MapPermuted<T, U>(f: T -> U, a: seq<T>, b: seq<T>)
    requires Permutation(a, b)
    ensures Permutation(Map(f, a), Map(f, b))
    decreases |a|
  {
    if a == [] {
      assert multiset(b) == multiset{};
    } else {
      var k := Without(a, b);
      MapPermuted(f, a[1..], b[..k] + b[k + 1..]);
      MapConcat(f, b[..k], b[k + 1..]);
      MapConcat(f, b[..k] + [b[k]], b[k + 1..]);
      MapConcat(f, b[..k], [b[k]]);
      assert Map(f, [b[k]]) == [f(b[k])];
    }
  }

  lemma {:induction false} FilterPermuted<T>(p: T -> bool, a: seq<T>, b: seq<T>)
    requires Permutation(a, b)
    ensures Permutation(Filter(p, a), Filter(p, b))
    decreases |a|
  {
    if a == [] {
      assert multiset(b) == multiset{};
    } else {
      var k := Without(a, b);
      FilterPermuted(p, a[1..], b[..k] + b[k + 1..]);
      FilterConcat(p, b[..k], b[k + 1..]);
      FilterConcat(p, b[..k] + [b[k]], b[k + 1..]);
      FilterConcat(p, b[..k], [b[k]]);
      assert Filter(p, [b[k]]) == if p(b[k]) then [b[k]] else [];
    }
  }

  lemma SameElements<T>(a: seq<T>, b: seq<T>)
    requires Permutation(a, b)
    ensures |a| == |b|
    ensures forall x :: x in a <==> x in b
  {
    assert |multiset(a)| == |multiset(b)|;
    assert forall x :: x in a <==> x in multiset(a);
    assert forall x :: x in b <==> x in multiset(b);
  }
}
