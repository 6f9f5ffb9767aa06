/** What a planned tour promises about the stops it was given. */
module TourPromises {
  import opened Durations
  import opened Options
  import opened Seqs
  import opened Arrangements
  import opened TourEvaluation
  import opened TourPlanner

  /** A plan visits exactly the given stops, pinned ones at their given place, and the others within
      their own segment. */
  lemma PinnedStopsStay(input: PlanInput, done: seq<Stop>)
    requires Planned(input, done)
    ensures Permutation(done, input.stops) && |done| == |input.stops|
    ensures forall k :: 0 <= k < |done| && input.stops[k].isPinned ==> done[k] == input.stops[k]
    ensures forall a, b :: Segment(input.stops, a, b) ==> Permutation(done[a..b], input.stops[a..b])
  {
    assert input.stops[..|input.stops|] == input.stops;
  }

  /** The order of a stretch is changed, everything around it stays. */
  ghost predicate OnlyWithin(stops: seq<Stop>, q: seq<Stop>, a: int, b: int)
    requires 0 <= a <= b <= |stops|
  {
    && |q| == |stops| && q[..a] == stops[..a] && q[b..] == stops[b..] && Permutation(q[a..b], stops[a..b])
  }

  /** The end of the stretch a segment is scored by: the next anchor included. */
  function AnchorEnd(stops: seq<Stop>, b: int): int { if b < |stops| then b + 1 else b }

  lemma AnchorStays(input: PlanInput, done: seq<Stop>, a: int, b: int)
    requires Planned(input, done) && Segment(input.stops, a, b)
    ensures |done| == |input.stops| && done[b..AnchorEnd(input.stops, b)] == AnchorAt(input.stops, b)
  {
    hide Arranged, Permutation;
  }

  lemma FourParts(done: seq<Stop>, q: seq<Stop>, a: int, b: int, e: int)
    requires 0 <= a <= b <= e <= |done| && OnlyWithin(done, q, a, b)
    ensures q[..e] == done[..a] + q[a..b] + done[b..e]
    ensures q[e..] == done[e..]
  {
    hide Permutation;
    assert q[..e] == q[..a] + q[a..b] + q[b..e];
    assert q[b..e] == q[b..][..e - b] && done[b..e] == done[b..][..e - b];
    assert q[e..] == q[b..][e - b..] && done[e..] == done[b..][e - b..];
  }

  /** A rearranged segment, driven from the start to the anchor behind it. */
  lemma UpToAnchor(input: PlanInput, done: seq<Stop>, a: int, b: int, q: seq<Stop>)
    requires Planned(input, done) && Segment(input.stops, a, b) && |done| == |input.stops|
    requires OnlyWithin(done, q, a, b)
    ensures q[..AnchorEnd(input.stops, b)] == done[..a] + q[a..b] + AnchorAt(input.stops, b)
    ensures q[AnchorEnd(input.stops, b)..] == done[AnchorEnd(input.stops, b)..]
  {
    AnchorStays(input, done, a, b);
    hide Planned, OnlyWithin, AnchorAt;
    FourParts(done, q, a, b, AnchorEnd(input.stops, b));
  }

  /** Driving on from two scores at the same anchor: no more conflicts and no later stays so. */
  lemma DriveOn(input: PlanInput, x: seq<Stop>, y: seq<Stop>, tail: seq<Stop>)
    requires Driven(input, x).position == Driven(input, y).position
    requires PartialScore(input, x).conflicts == PartialScore(input, y).conflicts
    requires PartialScore(input, x).endAt <= PartialScore(input, y).endAt
    ensures !BetterScore(PartialScore(input, y + tail), PartialScore(input, x + tail))
  {
    DriveConcat(input.matrix, Start(input), x, tail);
    DriveConcat(input.matrix, Start(input), y, tail);
    hide Drive;
    LaterStartIsNoBetter(input.matrix, Driven(input, x), Driven(input, y), tail);
  }

  /** Every flexible segment of at most seven stops is optimal: up to and including the anchor behind it, no
      rearrangement of it scores better. */
  lemma SegmentIsOptimal(input: PlanInput, done: seq<Stop>, a: int, b: int, q: seq<Stop>)
    requires Planned(input, done) && Segment(input.stops, a, b) && b - a <= 7
    requires |done| == |input.stops| && OnlyWithin(done, q, a, b)
    ensures var e := AnchorEnd(input.stops, b);
      !BetterScore(PartialScore(input, q[..e]), PartialScore(input, done[..e]))
  {
    UpToAnchor(input, done, a, b, q);
    UpToAnchor(input, done, a, b, done);
    var suffix := AnchorAt(input.stops, b);
    hide PartialScore, BetterScore, Orders;
    assert Arranged(input, done[..a], input.stops[a..b], done[a..b], suffix);
    var i :| FirstBestAt(input, done[..a], Orders(input.stops[a..b]), done[a..b], suffix, i);
    FirstBestIsBest(input, done[..a], input.stops[a..b], done[a..b], suffix, i);
  }

  /** So a rearrangement that raises no more conflicts up to that anchor does not improve the tour as a whole,
      whatever segments and anchors follow. */
  lemma SegmentIsOptimalInTheTour(input: PlanInput, done: seq<Stop>, a: int, b: int, q: seq<Stop>)
    requires Planned(input, done) && Segment(input.stops, a, b) && b - a <= 7
    requires |done| == |input.stops| && OnlyWithin(done, q, a, b)
    requires var e := AnchorEnd(input.stops, b);
      PartialScore(input, q[..e]).conflicts <= PartialScore(input, done[..e]).conflicts
    ensures !BetterScore(PartialScore(input, q), PartialScore(input, done))
  {
    var e := AnchorEnd(input.stops, b);
    SegmentIsOptimal(input, done, a, b, q);
    UpToAnchor(input, done, a, b, q);
    UpToAnchor(input, done, a, b, done);
    assert q == q[..e] + q[e..] && done == done[..e] + done[e..];
    hide Planned, Drive, Orders;
    if b < |input.stops| {
      DriveExtends(input.matrix, Start(input), q[..e]);
      DriveExtends(input.matrix, Start(input), done[..e]);
      DriveOn(input, done[..e], q[..e], done[e..]);
    } else {
      assert q[..e] == q && done[..e] == done;
    }
  }

  /** The last segment, with at most one anchor behind it, is optimal for the whole tour before the way back. */
  lemma LastSegmentIsOptimal(input: PlanInput, done: seq<Stop>, a: int, b: int, q: seq<Stop>)
    requires Planned(input, done) && Segment(input.stops, a, b)
    requires b - a <= 7 && b + 1 >= |input.stops|
    requires |done| == |input.stops| && OnlyWithin(done, q, a, b)
    ensures !BetterScore(PartialScore(input, q), PartialScore(input, done))
  {
    var e := AnchorEnd(input.stops, b);
    assert q[..e] == q && done[..e] == done;
    hide Planned, PartialScore, Orders;
    SegmentIsOptimal(input, done, a, b, q);
  }

  /** Beyond seven stops a segment is its nearest neighbour order or better, and no turned part of it helps unless
      every one of the fifty passes found a better order. */
  lemma LongSegmentIsLocallyBest(input: PlanInput, done: seq<Stop>, a: int, b: int) returns (g: seq<Stop>)
    requires Planned(input, done) && Segment(input.stops, a, b) && b - a > 7
    ensures |done| == |input.stops|
    ensures var prefix, best, suffix := done[..a], done[a..b], AnchorAt(input.stops, b);
      && NearestFirst(input.matrix, if a == 0 then input.originIndex else done[a - 1].matrixIndex, input.stops[a..b], g)
      && !BetterScore(PartialScore(input, prefix + g + suffix), PartialScore(input, prefix + best + suffix))
      && (NoTurnHelps(input, prefix, best, suffix) || EveryPassHelps(input, prefix, g, suffix, 50))
  {
    var prefix, suffix := done[..a], AnchorAt(input.stops, b);
    hide PartialScore, NearestFirst, Turns, NoTurnHelps, EveryPassHelps;
    g :| NearestFirst(input.matrix, PositionAfter(input, prefix), input.stops[a..b], g)
      && done[a..b] == Turns(input, prefix, g, suffix, MAX_PASSES);
    TurnsImprove(input, prefix, g, suffix, MAX_PASSES);
  }

  // ---- the plan is determined ----

  lemma FirstNearestIsUnique(m: Matrix, from: int, open: seq<Stop>, i: int, j: int)
    requires FirstNearest(m, from, open, i) && FirstNearest(m, from, open, j)
    ensures i == j
  {
    hide AsNear;
    assert AsNear(m, from, open[i], open[j]) && AsNear(m, from, open[j], open[i]);
  }

  lemma {:induction false} NearestFirstIsUnique(m: Matrix, from: int, open: seq<Stop>, g: seq<Stop>, h: seq<Stop>)
    requires NearestFirst(m, from, open, g) && NearestFirst(m, from, open, h)
    ensures g == h
    decreases |open|
  {
    if open == [] {
    } else {
      var i :| FirstNearest(m, from, open, i) && g[0] == open[i]
        && NearestFirst(m, open[i].matrixIndex, Remove(open, i), g[1..]);
      var j :| FirstNearest(m, from, open, j) && h[0] == open[j]
        && NearestFirst(m, open[j].matrixIndex, Remove(open, j), h[1..]);
      FirstNearestIsUnique(m, from, open, i, j);
      RemoveShortens(open, i);
      assert g == [g[0]] + g[1..] && h == [h[0]] + h[1..];
      hide AsNear, Remove, FirstNearest, NearestFirst;
      NearestFirstIsUnique(m, open[i].matrixIndex, Remove(open, i), g[1..], h[1..]);
    }
  }

  lemma ArrangedIsUnique(input: PlanInput, prefix: seq<Stop>, flexible: seq<Stop>, x: seq<Stop>, y: seq<Stop>,
                         suffix: seq<Stop>)
    requires Arranged(input, prefix, flexible, x, suffix) && Arranged(input, prefix, flexible, y, suffix)
    ensures x == y
  {
    hide PartialScore, Orders, NearestFirst, Turns, Permutation;
    if |flexible| <= TOUR_PLAN_FULL_PERMUTATION_MAX {
      var i :| FirstBestAt(input, prefix, Orders(flexible), x, suffix, i);
      var j :| FirstBestAt(input, prefix, Orders(flexible), y, suffix, j);
      assert i == j;
    } else {
      var at := PositionAfter(input, prefix);
      var g :| NearestFirst(input.matrix, at, flexible, g) && x == Turns(input, prefix, g, suffix, MAX_PASSES);
      var h :| NearestFirst(input.matrix, at, flexible, h) && y == Turns(input, prefix, h, suffix, MAX_PASSES);
      NearestFirstIsUnique(input.matrix, at, flexible, g, h);
    }
  }

  /** The flexible segment around a stop. */
  lemma SegmentAround(stops: seq<Stop>, k: int) returns (a: int, b: int)
    requires 0 <= k < |stops| && !stops[k].isPinned
    ensures Segment(stops, a, b) && a <= k < b
  {
    a, b := k, k + 1;
    while a > 0 && !stops[a - 1].isPinned
      invariant 0 <= a <= k && forall l :: a <= l <= k ==> !stops[l].isPinned
    {
      a := a - 1;
    }
    while b < |stops| && !stops[b].isPinned
      invariant k < b <= |stops| && forall l :: a <= l < b ==> !stops[l].isPinned
    {
      b := b + 1;
    }
  }

  lemma SegmentsAgree(input: PlanInput, x: seq<Stop>, y: seq<Stop>, a: int, b: int)
    requires Planned(input, x) && Planned(input, y) && Segment(input.stops, a, b)
    requires |x| == |y| == |input.stops| && x[..a] == y[..a]
    ensures x[..b] == y[..b]
  {
    var suffix := AnchorAt(input.stops, b);
    assert Arranged(input, x[..a], input.stops[a..b], x[a..b], suffix);
    assert Arranged(input, y[..a], input.stops[a..b], y[a..b], suffix);
    hide Planned, PlannedUpTo, Arranged, AnchorAt, Segment;
    ArrangedIsUnique(input, x[..a], input.stops[a..b], x[a..b], y[a..b], suffix);
    assert x[..b] == x[..a] + x[a..b] && y[..b] == y[..a] + y[a..b];
  }

  lemma {:induction false} SamePrefix(input: PlanInput, x: seq<Stop>, y: seq<Stop>, n: nat)
    requires Planned(input, x) && Planned(input, y) && n <= |input.stops|
    ensures |x| == |y| == |input.stops| && x[..n] == y[..n]
    decreases n
  {
    PinnedStopsStay(input, x);
    PinnedStopsStay(input, y);
    hide Planned, Permutation;
    if n == 0 {
    } else {
      var k := n - 1;
      if input.stops[k].isPinned {
        SamePrefix(input, x, y, k);
        assert x[..n] == x[..k] + [x[k]] && y[..n] == y[..k] + [y[k]];
      } else {
        var a, b := SegmentAround(input.stops, k);
        hide Segment;
        SamePrefix(input, x, y, a);
        SegmentsAgree(input, x, y, a, b);
        assert x[..n] == x[..b][..n] && y[..n] == y[..b][..n];
      }
    }
  }

  /** The planner is deterministic: an input has only one planned order. */
  lemma PlannedOrderIsUnique(input: PlanInput, x: seq<Stop>, y: seq<Stop>)
    requires Planned(input, x) && Planned(input, y)
    ensures x == y
  {
    hide Planned;
    SamePrefix(input, x, y, |input.stops|);
    assert x[..|x|] == x && y[..|y|] == y;
  }

  lemma NothingPinnedIsOneSegment(stops: seq<Stop>)
    requires stops != [] && forall k :: 0 <= k < |stops| ==> !stops[k].isPinned
    ensures Segment(stops, 0, |stops|)
  {
  }

  lemma UnpinnedOrdersScoreNoBetter(input: PlanInput, done: seq<Stop>, q: seq<Stop>)
    requires Planned(input, done) && Permutation(q, input.stops)
    requires |input.stops| <= 7
    requires forall k :: 0 <= k < |input.stops| ==> !input.stops[k].isPinned
    ensures !BetterScore(PartialScore(input, q), PartialScore(input, done))
  {
    SameElements(q, input.stops);
    if input.stops == [] {
      assert done == [] && q == [];
    } else {
      var n := |input.stops|;
      PinnedStopsStay(input, done);
      NothingPinnedIsOneSegment(input.stops);
      assert q[0..n] == q && done[0..n] == done && q[..0] == done[..0] && q[n..] == done[n..];
      hide PartialScore, Planned;
      LastSegmentIsOptimal(input, done, 0, n, q);
    }
  }

  /** Up to seven stops without pins: no order of them has fewer conflicts, and without a way back
      to the depot none with as few conflicts ends earlier. */
  lemma UnpinnedTourIsOptimal(input: PlanInput, done: seq<Stop>, q: seq<Stop>)
    requires Planned(input, done) && Permutation(q, input.stops)
    requires |input.stops| <= 7
    requires forall k :: 0 <= k < |input.stops| ==> !input.stops[k].isPinned
    ensures |Evaluation(input, done).conflicts| <= |Evaluation(input, q).conflicts|
    ensures input.depotIndex.None? ==> !BetterScore(ScoreOf(Evaluation(input, q)), ScoreOf(Evaluation(input, done)))
  {
    hide Drive, Planned, Permutation;
    UnpinnedOrdersScoreNoBetter(input, done, q);
  }
}
