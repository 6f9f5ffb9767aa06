/** A tour with a depot: segments are compared without the way back, so a plan need not end earliest. When it
    does is decided here, for the travel times a routing service answers with. */
module WayBack {
  import opened Arrangements
  import opened Division
  import opened Durations
  import opened Options
  import opened Seqs
  import opened TourEvaluation
  import opened TourPlanner
  import opened TourPromises

  /** Fastest ways: none to the point itself, and no way is longer than a way round over another point. */
  ghost predicate Routed(cells: seq<seq<Option<int>>>) {
    var n := |cells|;
    && (forall i :: 0 <= i < n ==> |cells[i]| == n && cells[i][i] == Some(0))
    && (forall i, j :: 0 <= i < n && 0 <= j < n && cells[i][j].Some? ==> cells[i][j].value >= 0)
    && (forall i, j, k :: 0 <= i < n && 0 <= j < n && 0 <= k < n && cells[i][j].Some? && cells[j][k].Some? ==>
          cells[i][k].Some? && cells[i][k].value <= cells[i][j].value + cells[j][k].value)
  }

  predicate ComesBackAfter(input: PlanInput, s: Stop, back: int) {
    input.depotIndex.Some? && Or0(Cell(input.matrix.durations, s.matrixIndex, input.depotIndex.value)) == back
  }

  lemma EndWithWayBack(input: PlanInput, stops: seq<Stop>, back: int)
    requires stops != [] && ComesBackAfter(input, stops[|stops| - 1], back)
    ensures var partial := PartialScore(input, stops);
      ScoreOf(Evaluation(input, stops)) == Score(partial.conflicts, partial.endAt + back * SECOND)
  {
    DriveExtends(input.matrix, Start(input), stops);
    hide Drive;
  }

  /** The way back does no harm where it takes equally long from every stop. */
  lemma EqualWaysBack(input: PlanInput, done: seq<Stop>, q: seq<Stop>, back: int)
    requires Planned(input, done) && Permutation(q, input.stops)
    requires 0 < |input.stops| <= 7
    requires forall s :: s in input.stops ==> !s.isPinned && ComesBackAfter(input, s, back)
    ensures !BetterScore(ScoreOf(Evaluation(input, q)), ScoreOf(Evaluation(input, done)))
  {
    PinnedStopsStay(input, done);
    SameElements(q, input.stops);
    SameElements(done, input.stops);
    hide PartialScore, Evaluation, Planned, Permutation, ComesBackAfter;
    UnpinnedOrdersScoreNoBetter(input, done, q);
    assert q[|q| - 1] in q && done[|done| - 1] in done;
    EndWithWayBack(input, q, back);
    EndWithWayBack(input, done, back);
  }

  // ---- a plan that does not end earliest ----

  const ROADS := [[Some(0), Some(10), Some(11)], [Some(1), Some(0), Some(10)], [Some(10), Some(10), Some(0)]]

  const ASYMMETRIC := Matrix(ROADS, ROADS)

  lemma RoadsAreRouted()
    ensures Routed(ROADS)
  {
  }

  const NEAR := Stop("near", 1, false, 0, None, None)
  const FAR := Stop("far", 2, false, 0, None, None)

  lemma TwoStops(m: Matrix, p: Progress, a: Stop, b: Stop)
    ensures Drive(m, p, [a, b]) == DriveTo(m, DriveTo(m, p, a), b)
  {
    hide DriveTo;
    assert [a, b][1..] == [b] && [b][1..] == [];
    assert Drive(m, p, [a, b]) == Drive(m, DriveTo(m, p, a), [b]);
  }

  lemma Leg(p: Progress, s: Stop)
    requires s in {NEAR, FAR} && p.position in {0, 1, 2}
    ensures var m := ASYMMETRIC.durations;
      m[p.position][s.matrixIndex].Some?
      && DriveTo(ASYMMETRIC, p, s).clock == p.clock + m[p.position][s.matrixIndex].value * 1000
      && DriveTo(ASYMMETRIC, p, s).position == s.matrixIndex
      && DriveTo(ASYMMETRIC, p, s).conflicts == p.conflicts
  {
  }

  lemma BothOrders(input: PlanInput)
    requires input == PlanInput(ASYMMETRIC, 0, Some(0), [NEAR, FAR], 0)
    ensures PartialScore(input, [NEAR, FAR]) == Score(0, 20_000) && PartialScore(input, [FAR, NEAR]) == Score(0, 21_000)
    ensures ScoreOf(Evaluation(input, [NEAR, FAR])) == Score(0, 30_000)
    ensures ScoreOf(Evaluation(input, [FAR, NEAR])) == Score(0, 22_000)
  {
    var m, p := ASYMMETRIC, Start(input);
    TwoStops(m, p, NEAR, FAR);
    TwoStops(m, p, FAR, NEAR);
    Leg(p, NEAR);
    Leg(p, FAR);
    hide Drive, DriveTo;
    Leg(DriveTo(m, p, NEAR), FAR);
    Leg(DriveTo(m, p, FAR), NEAR);
  }

  lemma OrdersOfTwo(a: Stop, b: Stop, q: seq<Stop>)
    requires Permutation(q, [a, b])
    ensures q == [a, b] || q == [b, a]
  {
    SameElements(q, [a, b]);
    assert q == [q[0], q[1]];
    assert q[0] in [a, b] && q[1] in [a, b];
    assert multiset(q) == multiset{q[0], q[1]} == multiset{a, b};
  }

  /** With a way back the end of the tour need not be minimal: here every planned order ends 8 seconds
      after another order that has no conflict either, because segments are compared without the way back. */
  lemma WayBackIsNotMinimised(input: PlanInput, done: seq<Stop>)
    requires input == PlanInput(ASYMMETRIC, 0, Some(0), [NEAR, FAR], 0)
    requires Planned(input, done)
    ensures Routed(input.matrix.durations) && Routed(input.matrix.distances)
    ensures done == [NEAR, FAR]
    ensures ScoreOf(Evaluation(input, done)) == Score(0, 30_000)
    ensures ScoreOf(Evaluation(input, [FAR, NEAR])) == Score(0, 22_000)
  {
    RoadsAreRouted();
    hide Routed;
    PinnedStopsStay(input, done);
    OrdersOfTwo(NEAR, FAR, done);
    BothOrders(input);
    hide Planned, PartialScore, Evaluation;
    UnpinnedOrdersScoreNoBetter(input, done, input.stops);
  }

  // ---- exactly when the plan ends earliest ----

  /** Every way between two points takes `road` seconds, except the ways back to the depot. */
  function EvenWay(i: int, j: int, road: nat, depot: int, ways: int -> nat): nat {
    if i == j then 0 else if j == depot then ways(i) else road
  }

  function EvenRoads(n: nat, road: nat, depot: int, ways: int -> nat): seq<seq<Option<int>>> {
    seq(n, (i: int) => seq(n, (j: int) => Some(EvenWay(i, j, road, depot, ways))))
  }

  function EvenMatrix(n: nat, road: nat, depot: int, ways: int -> nat): Matrix {
    Matrix(EvenRoads(n, road, depot, ways), EvenRoads(n, road, depot, ways))
  }

  /** Where no way back is longer than the other ways, the matrix is one of fastest ways. */
  lemma EvenRoadsAreRouted(n: nat, road: nat, depot: int, ways: int -> nat)
    requires forall i :: 0 <= i < n ==> ways(i) <= road
    ensures Routed(EvenRoads(n, road, depot, ways))
  {
  }

  predicate Free(s: Stop, n: int, depot: int) {
    !s.isPinned && 0 <= s.matrixIndex < n && s.matrixIndex != depot
  }

  /** Every appointment of the stop is over. */
  predicate Over(s: Stop, at: int) {
    (s.startAt.Some? ==> s.startAt.value < at) && (s.endAt.Some? ==> s.endAt.value < at)
  }

  /** What a stop adds to the clock besides the way to it. */
  function Pause(s: Stop): int { Max(0, s.bufferMinutes) * MINUTE }

  /** A stop with an appointment is missed by a tour that starts after it. */
  function Late(s: Stop): int { if s.startAt.Some? then 1 else 0 }

  /** How often the tour changes its place. */
  function Changes(from: int, stops: seq<Stop>): nat
    decreases |stops|
  {
    if stops == [] then 0
    else (if stops[0].matrixIndex == from then 0 else 1) + Changes(stops[0].matrixIndex, stops[1..])
  }

  lemma EvenLeg(m: Matrix, p: Progress, s: Stop, n: nat, road: nat, depot: int, ways: int -> nat)
    requires m == EvenMatrix(n, road, depot, ways) && 0 <= p.position < n
    requires Free(s, n, depot) && Over(s, p.clock)
    ensures var q := DriveTo(m, p, s);
      && q.position == s.matrixIndex
      && q.clock == p.clock + (if s.matrixIndex == p.position then 0 else road * SECOND) + Pause(s) >= p.clock
      && |q.conflicts| == |p.conflicts| + Late(s)
  {
  }

  lemma OneMoreChange(unit: int, from: int, stops: seq<Stop>)
    requires stops != []
    ensures unit * Changes(from, stops)
         == (if stops[0].matrixIndex == from then 0 else unit) + unit * Changes(stops[0].matrixIndex, stops[1..])
  {
    var first, rest := if stops[0].matrixIndex == from then 0 else 1, Changes(stops[0].matrixIndex, stops[1..]);
    assert Changes(from, stops) == first + rest;
    hide Changes;
    assert unit * (first + rest) == unit * first + unit * rest;
  }

  lemma {:induction false} EvenDrive(m: Matrix, p: Progress, stops: seq<Stop>, n: nat, road: nat, depot: int,
                                     ways: int -> nat)
    requires m == EvenMatrix(n, road, depot, ways) && 0 <= p.position < n
    requires forall s :: s in stops ==> Free(s, n, depot) && Over(s, p.clock)
    ensures Drive(m, p, stops).clock == p.clock + road * SECOND * Changes(p.position, stops) + Sum(Pause, stops)
    ensures |Drive(m, p, stops).conflicts| == |p.conflicts| + Sum(Late, stops)
    decreases |stops|
  {
    if stops == [] {
    } else {
      assert stops[0] in stops;
      EvenLeg(m, p, stops[0], n, road, depot, ways);
      hide DriveTo, EvenMatrix, Pause, Late;
      var q := DriveTo(m, p, stops[0]);
      forall s | s in stops[1..] ensures Free(s, n, depot) && Over(s, q.clock) {
        assert s in stops;
      }
      EvenDrive(m, q, stops[1..], n, road, depot, ways);
      OneMoreChange(road * SECOND, p.position, stops);
    }
  }

  /** Free stops on even roads, after all appointments. */
  ghost predicate Even(input: PlanInput, n: nat, road: nat, depot: int, ways: int -> nat) {
    && input.matrix == EvenMatrix(n, road, depot, ways)
    && 0 <= depot < n && input.originIndex == depot && input.depotIndex == Some(depot)
    && forall s :: s in input.stops ==> Free(s, n, depot) && Over(s, input.departureAt)
  }

  /** On even roads an order scores by its changes of place. */
  lemma EvenScore(input: PlanInput, q: seq<Stop>, n: nat, road: nat, depot: int, ways: int -> nat)
    requires Even(input, n, road, depot, ways) && Permutation(q, input.stops)
    ensures PartialScore(input, q) == Score(Sum(Late, input.stops),
              input.departureAt + road * SECOND * Changes(depot, q) + Sum(Pause, input.stops))
  {
    SameElements(q, input.stops);
    EvenDrive(input.matrix, Start(input), q, n, road, depot, ways);
    SumPermuted(Pause, q, input.stops);
    SumPermuted(Late, q, input.stops);
  }

  // ---- orders with as few changes of place as possible ----

  function Points(stops: seq<Stop>): set<int> { set s | s in stops :: s.matrixIndex }

  lemma PointsCons(x: Stop, g: seq<Stop>)
    ensures Points([x] + g) == {x.matrixIndex} + Points(g)
  {
    assert x in [x] + g;
    assert forall s :: s in [x] + g <==> s == x || s in g;
  }

  lemma Smaller(a: set<int>, b: set<int>)
    requires a <= b
    ensures |a| <= |b|
  {
    assert b == a + (b - a);
  }

  lemma AtMostOneMore(all: set<int>, others: set<int>, x: int, from: int)
    requires all <= others + (if x == from then {} else {x})
    ensures |all| <= |others| + (if x == from then 0 else 1)
  {
    if x == from {
      Smaller(all, others);
    } else {
      Smaller(all - {x}, others);
      assert all <= (all - {x}) + {x};
      Smaller(all, (all - {x}) + {x});
    }
  }

  /** Every point is come to at least once. */
  lemma {:induction false} ChangesAtLeast(from: int, stops: seq<Stop>)
    ensures Changes(from, stops) >= |Points(stops) - {from}|
    decreases |stops|
  {
    if stops == [] {
      assert Points(stops) == {};
    } else {
      var x, rest := stops[0], stops[1..];
      ChangesAtLeast(x.matrixIndex, rest);
      assert stops == [x] + rest;
      PointsCons(x, rest);
      hide Points;
      var others := Points(rest) - {x.matrixIndex};
      assert Points(stops) - {from} <= others + (if x.matrixIndex == from then {} else {x.matrixIndex});
      AtMostOneMore(Points(stops) - {from}, others, x.matrixIndex, from);
    }
  }

  /** Puts a stop to the first one at the same point, or in front. */
  function Join(x: Stop, g: seq<Stop>): seq<Stop> {
    if g == [] || g[0].matrixIndex == x.matrixIndex || x.matrixIndex !in Points(g) then [x] + g
    else [g[0]] + Join(x, g[1..])
  }

  lemma NotAlone(x: Stop, g: seq<Stop>)
    requires g != [] && g[0].matrixIndex != x.matrixIndex && x.matrixIndex in Points(g)
    ensures |g| > 1
  {
    var s :| s in g && s.matrixIndex == x.matrixIndex;
    var k :| 0 <= k < |g| && g[k] == s;
  }

  lemma {:induction false} JoinPermutes(x: Stop, g: seq<Stop>)
    ensures Permutation(Join(x, g), [x] + g)
    ensures g != [] ==> Join(x, g)[|Join(x, g)| - 1] == g[|g| - 1]
  {
    if g == [] || g[0].matrixIndex == x.matrixIndex || x.matrixIndex !in Points(g) {
    } else {
      var rest := g[1..];
      NotAlone(x, g);
      assert Join(x, g) == [g[0]] + Join(x, rest);
      hide Points, Join;
      JoinPermutes(x, rest);
      assert g == [g[0]] + rest;
    }
  }

  /** A stop at a point of the tour costs no change. */
  lemma {:induction false} JoinKeepsChanges(from: int, x: Stop, g: seq<Stop>)
    requires x.matrixIndex in Points(g)
    ensures Changes(from, Join(x, g)) == Changes(from, g)
    decreases |g|
  {
    assert g != [] by { assert Points([]) == {}; }
    if g[0].matrixIndex == x.matrixIndex {
      assert ([x] + g)[1..] == g;
    } else {
      assert g == [g[0]] + g[1..];
      PointsCons(g[0], g[1..]);
      JoinKeepsChanges(g[0].matrixIndex, x, g[1..]);
      assert ([g[0]] + Join(x, g[1..]))[1..] == Join(x, g[1..]);
    }
  }

  /** A stop at a new point costs one. */
  lemma JoinAddsChange(from: int, x: Stop, g: seq<Stop>)
    requires x.matrixIndex !in Points(g) && x.matrixIndex != from && from !in Points(g)
    ensures Changes(from, Join(x, g)) == Changes(from, g) + 1
  {
    assert ([x] + g)[1..] == g;
    if g != [] { assert g[0] in g; }
  }

  lemma SamePoints(a: seq<Stop>, b: seq<Stop>)
    requires Permutation(a, b)
    ensures Points(a) == Points(b)
  {
    SameElements(a, b);
  }

  lemma JoinCountsPoints(x: Stop, g: seq<Stop>, depot: int)
    requires Changes(depot, g) == |Points(g)| && depot !in Points(g) && x.matrixIndex != depot
    ensures Changes(depot, Join(x, g)) == |Points([x] + g)|
  {
    PointsCons(x, g);
    hide Points, Changes, Join;
    if x.matrixIndex in Points(g) {
      JoinKeepsChanges(depot, x, g);
      assert {x.matrixIndex} + Points(g) == Points(g);
    } else {
      JoinAddsChange(depot, x, g);
    }
  }

  /** All stops, those at the same point together and a given one last, with one change for each point. */
  lemma {:induction false} Together(rest: seq<Stop>, last: Stop, depot: int) returns (g: seq<Stop>)
    requires depot !in Points(rest + [last])
    ensures Permutation(g, rest + [last]) && g != [] && g[|g| - 1] == last
    ensures Changes(depot, g) == |Points(g)|
  {
    if rest == [] {
      g := [last];
      assert Points(g) == {last.matrixIndex} by { PointsCons(last, []); assert [last] + [] == [last]; }
      assert rest + [last] == g;
    } else {
      var x, others := rest[0], rest[1..] + [last];
      assert rest + [last] == [x] + others;
      PointsCons(x, others);
      hide Points, Changes, Join;
      var h := Together(rest[1..], last, depot);
      SamePoints(h, others);
      g := Join(x, h);
      JoinPermutes(x, h);
      JoinCountsPoints(x, h, depot);
      SamePoints(g, [x] + h);
    }
  }

  /** An order that no other beats is kept. */
  lemma UnbeatenStays(input: PlanInput, stops: seq<Stop>)
    requires forall p :: Permutation(p, stops) ==> !BetterScore(PartialScore(input, p), PartialScore(input, stops))
    ensures FirstBest(input, [], stops, stops, [])
  {
    GivenOrderFirst(stops);
    hide PartialScore, Orders, BetterScore;
    forall j | 0 <= j < |Orders(stops)|
      ensures !BetterScore(PartialScore(input, [] + Orders(stops)[j] + []), PartialScore(input, [] + stops + []))
    {
      var p := Orders(stops)[j];
      OrdersAreAllPermutations(stops, p);
      assert [] + p + [] == p && [] + stops + [] == stops;
    }
    assert FirstBestAt(input, [], Orders(stops), stops, [], 0);
  }

  lemma FewerChangesScoreNoWorse(conflicts: int, start: int, unit: int, x: int, y: int, pauses: int)
    requires unit >= 0 && x <= y
    ensures !BetterScore(Score(conflicts, start + unit * y + pauses), Score(conflicts, start + unit * x + pauses))
  {
    MulOrder(unit, x, y);
  }

  lemma DepotIsNoPoint(input: PlanInput, n: nat, road: nat, depot: int, ways: int -> nat)
    requires Even(input, n, road, depot, ways)
    ensures depot !in Points(input.stops)
  {
  }

  lemma NoneBetter(input: PlanInput, p: seq<Stop>, n: nat, road: nat, depot: int, ways: int -> nat)
    requires Even(input, n, road, depot, ways) && Permutation(p, input.stops)
    requires Changes(depot, input.stops) == |Points(input.stops)|
    ensures !BetterScore(PartialScore(input, p), PartialScore(input, input.stops))
  {
    hide Changes, Points, PartialScore, BetterScore, EvenMatrix, Late, Pause, Free, Over, Sum;
    EvenScore(input, p, n, road, depot, ways);
    EvenScore(input, input.stops, n, road, depot, ways);
    SamePoints(p, input.stops);
    DepotIsNoPoint(input, n, road, depot, ways);
    assert Points(p) - {depot} == Points(p);
    ChangesAtLeast(depot, p);
    FewerChangesScoreNoWorse(Sum(Late, input.stops), input.departureAt, road * SECOND,
      Changes(depot, input.stops), Changes(depot, p), Sum(Pause, input.stops));
  }

  /** Without pins and with an unbeaten order, that order is planned. */
  lemma UnbeatenIsPlanned(input: PlanInput)
    requires |input.stops| <= 7
    requires forall k :: 0 <= k < |input.stops| ==> !input.stops[k].isPinned
    requires FirstBest(input, [], input.stops, input.stops, [])
    ensures Planned(input, input.stops)
  {
    var stops := input.stops;
    assert stops[..|stops|] == stops;
    hide PartialScore, FirstBest, Turns, NearestFirst;
    forall a, b | Segment(stops, a, b) && b <= |stops|
      ensures Arranged(input, stops[..a], stops[a..b], stops[a..b], AnchorAt(stops, b))
    {
      assert a == 0 && b == |stops|;
      assert stops[a..b] == stops && stops[..a] == [] && AnchorAt(stops, b) == [];
    }
  }

  /** With one change for each point no order scores better, so the given one is planned. */
  lemma TogetherStays(input: PlanInput, n: nat, road: nat, depot: int, ways: int -> nat)
    requires Even(input, n, road, depot, ways) && |input.stops| <= 7
    requires Changes(depot, input.stops) == |Points(input.stops)|
    ensures Planned(input, input.stops)
  {
    assert forall k :: 0 <= k < |input.stops| ==> input.stops[k] in input.stops;
    hide PartialScore, FirstBest, Planned, Changes, Points, BetterScore;
    forall p | Permutation(p, input.stops)
      ensures !BetterScore(PartialScore(input, p), PartialScore(input, input.stops))
    {
      NoneBetter(input, p, n, road, depot, ways);
    }
    UnbeatenStays(input, input.stops);
    UnbeatenIsPlanned(input);
  }

  /** These stops in some order, with these ways back to the depot, on fastest ways. */
  ghost predicate Returning(input: PlanInput, stops: seq<Stop>, depot: int, ways: int -> nat) {
    && Permutation(input.stops, stops) && input.depotIndex == Some(depot)
    && Routed(input.matrix.durations) && Routed(input.matrix.distances)
    && forall s :: s in stops ==> ComesBackAfter(input, s, ways(s.matrixIndex))
  }

  /** No order of the stops has fewer conflicts, or as few and an earlier end at the depot. */
  ghost predicate EndsEarliest(input: PlanInput, done: seq<Stop>) {
    forall q :: Permutation(q, input.stops) ==>
      !BetterScore(ScoreOf(Evaluation(input, q)), ScoreOf(Evaluation(input, done)))
  }

  /** A matrix size that holds the stops and the depot, and an instant after every appointment. */
  lemma {:induction false} BoundsOf(stops: seq<Stop>, depot: int) returns (n: nat, at: int)
    requires depot >= 0
    ensures depot < n && forall s :: s in stops ==> s.matrixIndex < n && Over(s, at)
  {
    if stops == [] {
      n, at := depot + 1, 0;
    } else {
      n, at := BoundsOf(stops[1..], depot);
      n := Max(n, stops[0].matrixIndex + 1);
      at := Max(at, Max(Or0(stops[0].startAt), Or0(stops[0].endAt)) + 1);
      assert stops == [stops[0]] + stops[1..];
    }
  }

  /** A way at least as long as every way back. */
  lemma {:induction false} LongRoad(n: nat, ways: int -> nat) returns (road: nat)
    ensures road > 0 && forall i :: 0 <= i < n ==> ways(i) <= road
  {
    road := 1;
    for k := 0 to n
      invariant road > 0 && forall i :: 0 <= i < k ==> ways(i) <= road
    {
      road := Max(road, ways(k));
    }
  }

  lemma TogetherWithLast(stops: seq<Stop>, depot: int, i: int) returns (g: seq<Stop>)
    requires 0 <= i < |stops| && forall s :: s in stops ==> s.matrixIndex != depot
    ensures Permutation(g, stops) && |g| == |stops| && g[|g| - 1] == stops[i]
    ensures Changes(depot, g) == |Points(g)| == |Points(stops)|
  {
    var all := Remove(stops, i) + [stops[i]];
    RemoveOne(stops, i);
    SamePoints(all, stops);
    assert depot !in Points(stops);
    hide Changes, Points, Remove;
    g := Together(Remove(stops, i), stops[i], depot);
    SamePoints(g, all);
    SameElements(g, stops);
  }

  lemma EvenWayBack(input: PlanInput, s: Stop, n: nat, road: nat, depot: int, ways: int -> nat)
    requires Even(input, n, road, depot, ways) && s in input.stops
    ensures ComesBackAfter(input, s, ways(s.matrixIndex))
  {
  }

  /** Two orders with equally many changes differ by their ways back. */
  lemma LaterByTheWayBack(input: PlanInput, q: seq<Stop>, n: nat, road: nat, depot: int, ways: int -> nat)
    requires Even(input, n, road, depot, ways) && Permutation(q, input.stops) && q != [] && input.stops != []
    requires Changes(depot, q) == Changes(depot, input.stops)
    requires ways(q[|q| - 1].matrixIndex) < ways(input.stops[|input.stops| - 1].matrixIndex)
    ensures BetterScore(ScoreOf(Evaluation(input, q)), ScoreOf(Evaluation(input, input.stops)))
  {
    var s, t := input.stops[|input.stops| - 1], q[|q| - 1];
    hide Even, Evaluation, PartialScore, ComesBackAfter, Changes, Sum;
    EvenScore(input, q, n, road, depot, ways);
    EvenScore(input, input.stops, n, road, depot, ways);
    SameElements(q, input.stops);
    EvenWayBack(input, s, n, road, depot, ways);
    EvenWayBack(input, t, n, road, depot, ways);
    EndWithWayBack(input, input.stops, ways(s.matrixIndex));
    EndWithWayBack(input, q, ways(t.matrixIndex));
  }

  lemma BothPermute(a: seq<Stop>, b: seq<Stop>, c: seq<Stop>)
    requires Permutation(a, c) && Permutation(b, c)
    ensures Permutation(a, b)
  {
  }

  /** The stops on even roads, after all appointments. */
  lemma EvenTour(done: seq<Stop>, stops: seq<Stop>, depot: int, ways: int -> nat)
      returns (input: PlanInput, n: nat, road: nat)
    requires Permutation(done, stops) && depot >= 0
    requires forall s :: s in stops ==> !s.isPinned && s.matrixIndex >= 0 && s.matrixIndex != depot
    ensures input.stops == done
    ensures Even(input, n, road, depot, ways) && Returning(input, stops, depot, ways)
  {
    var at;
    n, at := BoundsOf(stops, depot);
    road := LongRoad(n, ways);
    EvenRoadsAreRouted(n, road, depot, ways);
    input := PlanInput(EvenMatrix(n, road, depot, ways), depot, Some(depot), done, at);
    SameElements(done, stops);
    hide Routed, Over, EvenRoads, ComesBackAfter, Permutation;
    assert Even(input, n, road, depot, ways);
    hide Even;
    forall s | s in stops ensures ComesBackAfter(input, s, ways(s.matrixIndex)) {
      EvenWayBack(input, s, n, road, depot, ways);
    }
  }

  /** Where one way back is longer than another, there is a tour whose plan does not end earliest: on even
      roads and after all appointments, with the stop of the longer way given last. */
  lemma LongerWayBackHurts(stops: seq<Stop>, depot: int, ways: int -> nat, i: int, j: int)
      returns (input: PlanInput, done: seq<Stop>)
    requires |stops| <= 7 && depot >= 0
    requires forall s :: s in stops ==> !s.isPinned && s.matrixIndex >= 0 && s.matrixIndex != depot
    requires 0 <= i < |stops| && 0 <= j < |stops| && ways(stops[i].matrixIndex) > ways(stops[j].matrixIndex)
    ensures Returning(input, stops, depot, ways) && Planned(input, done) && !EndsEarliest(input, done)
  {
    done := TogetherWithLast(stops, depot, i);
    var q := TogetherWithLast(stops, depot, j);
    BothPermute(q, done, stops);
    hide Even, Changes, Points, Evaluation, Planned, Returning, Permutation, BetterScore;
    var n, road;
    input, n, road := EvenTour(done, stops, depot, ways);
    TogetherStays(input, n, road, depot, ways);
    LaterByTheWayBack(input, q, n, road, depot, ways);
  }

  /** Up to seven stops without pins: the plan ends earliest on every network of fastest ways exactly when the way
      back to the depot takes equally long from all of them. */
  lemma EarliestExactlyWithEqualWaysBack(stops: seq<Stop>, depot: int, ways: int -> nat)
    requires 0 < |stops| <= 7 && depot >= 0
    requires forall s :: s in stops ==> !s.isPinned && s.matrixIndex >= 0 && s.matrixIndex != depot
    ensures (forall input, done ::
              Returning(input, stops, depot, ways) && Planned(input, done) ==> EndsEarliest(input, done))
       <==> (forall s, t :: s in stops && t in stops ==> ways(s.matrixIndex) == ways(t.matrixIndex))
  {
    hide Routed;
    if forall s, t :: s in stops && t in stops ==> ways(s.matrixIndex) == ways(t.matrixIndex) {
      var back := ways(stops[0].matrixIndex);
      forall input, done | Returning(input, stops, depot, ways) && Planned(input, done)
        ensures EndsEarliest(input, done)
      {
        SameElements(input.stops, stops);
        forall q | Permutation(q, input.stops)
          ensures !BetterScore(ScoreOf(Evaluation(input, q)), ScoreOf(Evaluation(input, done)))
        {
          hide Evaluation, Planned;
          EqualWaysBack(input, done, q, back);
        }
      }
    } else {
      var i, j :| 0 <= i < |stops| && 0 <= j < |stops| && ways(stops[i].matrixIndex) > ways(stops[j].matrixIndex);
      var input, done := LongerWayBackHurts(stops, depot, ways, i, j);
    }
  }
}
