/** All orders of a list, as the planner's generator yields them. */
module Arrangements {
  import opened Seqs

  function Remove<T>(s: seq<T>, i: int): seq<T>
    requires 0 <= i < |s|
  {
    s[..i] + s[i + 1..]
  }

  /** Each order in `tails` behind the same first element. */
  function Behind<T>(head: T, tails: seq<seq<T>>): seq<seq<T>> {
    if tails == [] then [] else [[head] + tails[0]] + Behind(head, tails[1..])
  }

  /** `permutations(items)`: every element in turn first, each followed by the orders of the rest. */
  function Orders<T>(items: seq<T>): seq<seq<T>>
    decreases |items|, |items| + 1
  {
    if |items| <= 1 then [items] else OrdersFrom(items, 0)
  }

  function OrdersFrom<T>(items: seq<T>, i: nat): seq<seq<T>>
    requires i <= |items| && |items| > 1
    decreases |items|, |items| - i
  {
    if i == |items| then []
    else Behind(items[i], Orders(Remove(items, i))) + OrdersFrom(items, i + 1)
  }

  lemma {:induction false} BehindHas<T>(head: T, tails: seq<seq<T>>, p: seq<T>)
    ensures p in Behind(head, tails) <==> p != [] && p[0] == head && p[1..] in tails
  {
    if tails == [] {
    } else {
      BehindHas(head, tails[1..], p);
      assert ([head] + tails[0])[1..] == tails[0];
      if p != [] && p[0] == head && p[1..] == tails[0] { assert p == [head] + tails[0]; }
    }
  }

  lemma {:induction false} OrdersFromHas<T>(items: seq<T>, from: nat, p: seq<T>)
    requires from <= |items| && |items| > 1
    ensures p in OrdersFrom(items, from) <==>
      p != [] && exists i :: from <= i < |items| && items[i] == p[0] && p[1..] in Orders(Remove(items, i))
    decreases |items| - from
  {
    if from == |items| {
    } else {
      OrdersFromHas(items, from + 1, p);
      BehindHas(items[from], Orders(Remove(items, from)), p);
    }
  }

  lemma RemoveOne<T>(items: seq<T>, i: int)
    requires 0 <= i < |items|
    ensures multiset(items) == multiset{items[i]} + multiset(Remove(items, i))
  {
    assert items == items[..i] + [items[i]] + items[i + 1..];
  }

  lemma HeadAndTail<T>(p: seq<T>)
    requires p != []
    ensures multiset(p) == multiset{p[0]} + multiset(p[1..])
  {
    assert p == [p[0]] + p[1..];
  }

  lemma ShortOrders<T>(items: seq<T>, p: seq<T>)
    requires |items| <= 1
    ensures p == items <==> Permutation(p, items)
  {
    if Permutation(p, items) {
      SameElements(p, items);
      if |items| == 1 { assert p[0] in items; }
    }
  }

  lemma LongOrdersHas<T>(items: seq<T>, p: seq<T>)
    requires |items| > 1
    ensures p in Orders(items) <==>
      p != [] && exists i :: 0 <= i < |items| && items[i] == p[0] && p[1..] in Orders(Remove(items, i))
  {
    OrdersFromHas(items, 0, p);
    assert Orders(items) == OrdersFrom(items, 0);
  }

  lemma RestPermutes<T>(items: seq<T>, i: int, p: seq<T>)
    requires 0 <= i < |items| && p != [] && items[i] == p[0]
    ensures Permutation(p, items) <==> Permutation(p[1..], Remove(items, i))
  {
    RemoveOne(items, i);
    HeadAndTail(p);
    assert multiset(p[1..]) == multiset(p) - multiset{p[0]};
    assert multiset(Remove(items, i)) == multiset(items) - multiset{items[i]};
  }

  lemma FirstIsAnItem<T>(items: seq<T>, p: seq<T>) returns (i: int)
    requires Permutation(p, items) && items != []
    ensures p != [] && 0 <= i < |items| && items[i] == p[0]
  {
    SameElements(p, items);
    assert p[0] in items;
    i :| 0 <= i < |items| && items[i] == p[0];
  }

  lemma RemoveShortens<T>(items: seq<T>, i: int)
    requires 0 <= i < |items|
    ensures |Remove(items, i)| == |items| - 1
  {
  }

  /** The generator yields exactly the orders of the list: every one of them, and nothing else. */
  lemma {:induction false} OrdersAreAllPermutations<T>(items: seq<T>, p: seq<T>)
    ensures p in Orders(items) <==> Permutation(p, items)
    decreases |items|
  {
    if |items| <= 1 {
      ShortOrders(items, p);
    } else {
      LongOrdersHas(items, p);
      hide Orders, Permutation, Remove;
      if p in Orders(items) {
        var i :| 0 <= i < |items| && items[i] == p[0] && p[1..] in Orders(Remove(items, i));
        RemoveShortens(items, i);
        OrdersAreAllPermutations(Remove(items, i), p[1..]);
        RestPermutes(items, i, p);
      }
      if Permutation(p, items) {
        var i := FirstIsAnItem(items, p);
        RemoveShortens(items, i);
        OrdersAreAllPermutations(Remove(items, i), p[1..]);
        RestPermutes(items, i, p);
      }
    }
  }

  /** The first order yielded is the given one. */
  lemma {:induction false} GivenOrderFirst<T>(items: seq<T>)
    ensures Orders(items) != [] && Orders(items)[0] == items
    decreases |items|
  {
    if |items| <= 1 {
    } else {
      RemoveShortens(items, 0);
      GivenOrderFirst(Remove(items, 0));
      assert Orders(items) == OrdersFrom(items, 0);
      assert Remove(items, 0) == items[1..];
      assert items == [items[0]] + items[1..];
    }
  }

  function Reverse<T>(s: seq<T>): (r: seq<T>)
    ensures |r| == |s|
  {
    if s == [] then [] else Reverse(s[1..]) + [s[0]]
  }

  lemma {:induction false} ReversePermutes<T>(s: seq<T>)
    ensures Permutation(Reverse(s), s)
  {
    if s == [] {
    } else {
      ReversePermutes(s[1..]);
      HeadAndTail(s);
    }
  }

  /** The part from `i` to `j` turned round. */
  function Turned<T>(s: seq<T>, i: int, j: int): (r: seq<T>)
    requires 0 <= i <= j < |s|
    ensures |r| == |s|
  {
    s[..i] + Reverse(s[i..j + 1]) + s[j + 1..]
  }

  lemma TurnedPermutes<T>(s: seq<T>, i: int, j: int)
    requires 0 <= i <= j < |s|
    ensures Permutation(Turned(s, i, j), s)
  {
    ReversePermutes(s[i..j + 1]);
    assert s == s[..i] + s[i..j + 1] + s[j + 1..];
  }

  // ---- what the pieces look like ----

  lemma {:induction false} BehindAt<T>(head: T, tails: seq<seq<T>>, k: int)
    ensures |Behind(head, tails)| == |tails|
    ensures 0 <= k < |tails| ==> Behind(head, tails)[k] == [head] + tails[k]
  {
    if tails == [] {
    } else {
      BehindAt(head, tails[1..], k - 1);
    }
  }

  lemma OneOrder<T>(items: seq<T>)
    requires |items| <= 1
    ensures Orders(items) == [items]
  {
  }

  /** The orders come in blocks: first those that begin with the first element, then those that begin with the
      second, and so on; in a block they follow the orders of the rest. */
  lemma GeneratedInTurn<T>(items: seq<T>, i: int, k: int)
    requires |items| > 1 && 0 <= i < |items|
    ensures Orders(items) == OrdersFrom(items, 0) && OrdersFrom(items, |items|) == []
    ensures var tails, later := Orders(Remove(items, i)), OrdersFrom(items, i + 1);
      && |OrdersFrom(items, i)| == |tails| + |later|
      && (0 <= k < |tails| ==> OrdersFrom(items, i)[k] == [items[i]] + tails[k])
      && (0 <= k < |later| ==> OrdersFrom(items, i)[|tails| + k] == later[k])
  {
    var tails := Orders(Remove(items, i));
    assert OrdersFrom(items, i) == Behind(items[i], tails) + OrdersFrom(items, i + 1);
    BehindAt(items[i], tails, k);
    hide Orders, Behind, Remove;
  }

  lemma {:induction false} ReverseAt<T>(s: seq<T>, k: int)
    requires 0 <= k < |s|
    ensures Reverse(s)[k] == s[|s| - 1 - k]
  {
    if k == |s| - 1 {
    } else {
      ReverseAt(s[1..], k);
    }
  }

  /** Turning a part round mirrors it in its place. */
  lemma TurnedAt<T>(s: seq<T>, i: int, j: int, k: int)
    requires 0 <= i <= j < |s| && 0 <= k < |s|
    ensures Turned(s, i, j)[k] == if i <= k <= j then s[i + j - k] else s[k]
  {
    if i <= k <= j { ReverseAt(s[i..j + 1], k - i); }
  }
}
