/** The local planner: pinned stops are fixed anchors, every flexible segment
    between two anchors is arranged on its own - by trying all orders up to seven
    stops, otherwise by nearest neighbour and reversing parts while that helps. */
module TourPlanner {
  import opened Options
  import opened Seqs
  import opened Arrangements
  import opened TourEvaluation

  const TOUR_PLAN_FULL_PERMUTATION_MAX := 7
  const MAX_PASSES := 50

  /** Fewer conflicts first, then the earlier end. */
  datatype Score = Score(conflicts: int, endAt: int)

  predicate BetterScore(a: Score, b: Score) {
    if a.conflicts != b.conflicts then a.conflicts < b.conflicts else a.endAt < b.endAt
  }

  function ScoreOf(plan: Plan): Score { Score(|plan.conflicts|, plan.plannedEndAt) }

  /** The score of driving some stops without the way back. */
  function PartialScore(input: PlanInput, stops: seq<Stop>): Score {
    Score(|Driven(input, stops).conflicts|, Driven(input, stops).clock)
  }

  method EvaluatePartial(input: PlanInput, sequence: seq<Stop>) returns (score: Score)
    ensures score == PartialScore(input, sequence)
  {
    var plan := EvaluateOrder(input.(stops := sequence, depotIndex := None));
    hide Drive;
    score := ScoreOf(plan);
  }

  /** Fewer conflicts count first, then the earlier end. */
  lemma ScoreInFigures(a: Plan, b: Plan)
    ensures BetterScore(ScoreOf(a), ScoreOf(b)) <==>
      |a.conflicts| < |b.conflicts| || (|a.conflicts| == |b.conflicts| && a.plannedEndAt < b.plannedEndAt)
  {
  }

  // ---- up to seven stops: all orders ----

  /** No arrangement between `prefix` and `suffix` scores better than `best`. */
  ghost predicate BestBetween(input: PlanInput, prefix: seq<Stop>, best: seq<Stop>, suffix: seq<Stop>) {
    forall p :: Permutation(p, best) ==>
      !BetterScore(PartialScore(input, prefix + p + suffix), PartialScore(input, prefix + best + suffix))
  }

  /** `best` is the first of the best among the orders in which the generator yields them: it beats every
      earlier one and is beaten by none. */
  ghost predicate FirstBestAt(input: PlanInput, prefix: seq<Stop>, orders: seq<seq<Stop>>, best: seq<Stop>,
                              suffix: seq<Stop>, i: int)
  {
    && 0 <= i < |orders| && orders[i] == best
    && (forall j :: 0 <= j < i ==>
          BetterScore(PartialScore(input, prefix + best + suffix), PartialScore(input, prefix + orders[j] + suffix)))
    && (forall j :: 0 <= j < |orders| ==>
          !BetterScore(PartialScore(input, prefix + orders[j] + suffix), PartialScore(input, prefix + best + suffix)))
  }

  ghost predicate FirstBest(input: PlanInput, prefix: seq<Stop>, flexible: seq<Stop>, best: seq<Stop>,
                            suffix: seq<Stop>) {
    exists i :: FirstBestAt(input, prefix, Orders(flexible), best, suffix, i)
  }

  lemma FirstBestIsBest(input: PlanInput, prefix: seq<Stop>, flexible: seq<Stop>, best: seq<Stop>, suffix: seq<Stop>,
                        i: int)
    requires FirstBestAt(input, prefix, Orders(flexible), best, suffix, i)
    ensures FirstBest(input, prefix, flexible, best, suffix)
    ensures Permutation(best, flexible) && BestBetween(input, prefix, best, suffix)
  {
    hide PartialScore, Orders;
    OrdersAreAllPermutations(flexible, best);
    forall p | Permutation(p, best)
      ensures !BetterScore(PartialScore(input, prefix + p + suffix), PartialScore(input, prefix + best + suffix))
    {
      OrdersAreAllPermutations(flexible, p);
      var j :| 0 <= j < |Orders(flexible)| && Orders(flexible)[j] == p;
    }
  }

  /** The first best order of a segment. The generator begins with the given order, so that one is kept unless
      another is strictly better. */
  method BestOrder(input: PlanInput, prefix: seq<Stop>, flexible: seq<Stop>,
                   suffix: seq<Stop>) returns (best: seq<Stop>)
    ensures FirstBest(input, prefix, flexible, best, suffix)
    ensures Permutation(best, flexible)
    ensures BestBetween(input, prefix, best, suffix)
  {
    hide PartialScore, Orders, FirstBest, BestBetween, Permutation;
    best := flexible;
    var bestScore := EvaluatePartial(input, prefix + best + suffix);
    var candidates := Orders(flexible);
    ghost var at := 0;
    GivenOrderFirst(flexible);
    for i := 0 to |candidates|
      invariant 0 <= at < |candidates| && candidates[at] == best
      invariant bestScore == PartialScore(input, prefix + best + suffix)
      invariant at == 0 || at < i
      invariant forall j :: 0 <= j < at ==> BetterScore(bestScore, PartialScore(input, prefix + candidates[j] + suffix))
      invariant forall j :: 0 <= j < i ==> !BetterScore(PartialScore(input, prefix + candidates[j] + suffix), bestScore)
    {
      var candidate := candidates[i];
      var score := EvaluatePartial(input, prefix + candidate + suffix);
      if BetterScore(score, bestScore) {
        bestScore := score;
        best := candidate;
        at := i;
      }
    }
    assert FirstBestAt(input, prefix, candidates, best, suffix, at);
    FirstBestIsBest(input, prefix, flexible, best, suffix, at);
  }

  // ---- more stops: nearest neighbour, then reversing parts ----

  /** Shorter, where no connection is infinitely long. */
  predicate Closer(a: Option<int>, b: Option<int>) {
    a.Some? && (b.None? || a.value < b.value)
  }

  function Before(s: seq<Stop>, k: int, from: int): int
    requires 0 <= k < |s|
  {
    if k == 0 then from else s[k - 1].matrixIndex
  }

  /** From `position` the stop `s` is at least as near as `other`. */
  predicate AsNear(m: Matrix, position: int, s: Stop, other: Stop) {
    !Closer(Cell(m.durations, position, other.matrixIndex), Cell(m.durations, position, s.matrixIndex))
  }

  /** Every stop is a nearest one, among those still open, to the stop before it. */
  ghost predicate Greedy(m: Matrix, from: int, s: seq<Stop>) {
    forall k, j :: 0 <= k < j < |s| ==> AsNear(m, Before(s, k, from), s[k], s[j])
  }

  /** In matrix entries: what is connected is nearer than what is not, and a shorter time nearer than a longer. */
  lemma NearnessInEntries(m: Matrix, position: int, s: Stop, other: Stop)
    ensures AsNear(m, position, s, other) <==>
      (Connected(m.durations, position, other.matrixIndex) ==>
        && Connected(m.durations, position, s.matrixIndex)
        && m.durations[position][s.matrixIndex].value <= m.durations[position][other.matrixIndex].value)
  {
  }

  /** The nearest of the open stops; of equally near ones the first in the list. */
  ghost predicate FirstNearest(m: Matrix, position: int, open: seq<Stop>, i: int) {
    && 0 <= i < |open|
    && (forall j :: 0 <= j < |open| ==> AsNear(m, position, open[i], open[j]))
    && (forall j :: 0 <= j < i ==> !AsNear(m, position, open[j], open[i]))
  }

  /** `r` takes, from `from` on, always the first nearest of the stops still open. */
  ghost predicate NearestFirst(m: Matrix, from: int, open: seq<Stop>, r: seq<Stop>)
    decreases |open|
  {
    if open == [] then r == []
    else r != [] && exists i ::
      FirstNearest(m, from, open, i) && r[0] == open[i] && NearestFirst(m, open[i].matrixIndex, Remove(open, i), r[1..])
  }

  method Nearest(m: Matrix, position: int, remaining: seq<Stop>) returns (bestIdx: nat)
    requires remaining != []
    ensures FirstNearest(m, position, remaining, bestIdx)
  {
    bestIdx := 0;
    var bestDuration: Option<int> := None;
    for i := 0 to |remaining|
      invariant bestIdx < |remaining|
      invariant i > 0 ==> bestDuration == Cell(m.durations, position, remaining[bestIdx].matrixIndex)
      invariant bestDuration.None? ==> bestIdx == 0
      invariant i == 0 ==> bestDuration.None?
      invariant forall j :: 0 <= j < i ==> !Closer(Cell(m.durations, position, remaining[j].matrixIndex), bestDuration)
      invariant forall j :: 0 <= j < bestIdx ==>
        Closer(bestDuration, Cell(m.durations, position, remaining[j].matrixIndex))
    {
      var duration := Cell(m.durations, position, remaining[i].matrixIndex);
      if Closer(duration, bestDuration) {
        bestDuration := duration;
        bestIdx := i;
      }
    }
  }

  /** All stops of `s` are at least as near to their predecessors as every open one. */
  ghost predicate AheadOf(m: Matrix, from: int, s: seq<Stop>, open: seq<Stop>) {
    forall k, j :: 0 <= k < |s| && 0 <= j < |open| ==> AsNear(m, Before(s, k, from), s[k], open[j])
  }

  lemma BeforeExtended(s: seq<Stop>, x: Stop, from: int, k: int)
    requires 0 <= k <= |s|
    ensures Before(s + [x], k, from) ==
      if k < |s| then Before(s, k, from) else if s == [] then from else s[|s| - 1].matrixIndex
    ensures (s + [x])[k] == if k < |s| then s[k] else x
  {
  }

  lemma StillOpen(open: seq<Stop>, i: int, j: int) returns (l: int)
    requires 0 <= i < |open| && 0 <= j < |Remove(open, i)|
    ensures 0 <= l < |open| && Remove(open, i)[j] == open[l]
  {
    l := if j < i then j else j + 1;
  }

  lemma TakeNearest(m: Matrix, from: int, s: seq<Stop>, open: seq<Stop>, i: int)
    requires 0 <= i < |open| && Greedy(m, from, s) && AheadOf(m, from, s, open)
    requires forall j :: 0 <= j < |open| ==>
      AsNear(m, if s == [] then from else s[|s| - 1].matrixIndex, open[i], open[j])
    ensures Greedy(m, from, s + [open[i]]) && AheadOf(m, from, s + [open[i]], Remove(open, i))
  {
    hide AsNear, Before, Remove;
    var t, rest := s + [open[i]], Remove(open, i);
    forall k, j | 0 <= k < j < |t| ensures AsNear(m, Before(t, k, from), t[k], t[j]) {
      BeforeExtended(s, open[i], from, k);
      BeforeExtended(s, open[i], from, j);
      if j == |s| { assert AsNear(m, Before(s, k, from), s[k], open[i]); }
    }
    forall k, j | 0 <= k < |t| && 0 <= j < |rest| ensures AsNear(m, Before(t, k, from), t[k], rest[j]) {
      BeforeExtended(s, open[i], from, k);
      var l := StillOpen(open, i, j);
      if k < |s| { assert AsNear(m, Before(s, k, from), s[k], open[l]); }
    }
  }

  lemma MoveOne(s: seq<Stop>, open: seq<Stop>, i: int)
    requires 0 <= i < |open|
    ensures multiset(s + [open[i]] + Remove(open, i)) == multiset(s + open)
  {
    RemoveOne(open, i);
  }

  /** Taking the first nearest of the open stops from `position` on completes `done`. */
  ghost predicate Continues(m: Matrix, from: int, stops: seq<Stop>, done: seq<Stop>, position: int, open: seq<Stop>) {
    forall r :: NearestFirst(m, position, open, r) ==> NearestFirst(m, from, stops, done + r)
  }

  lemma ThenTheRest(m: Matrix, position: int, open: seq<Stop>, i: int, r: seq<Stop>)
    requires FirstNearest(m, position, open, i) && NearestFirst(m, open[i].matrixIndex, Remove(open, i), r)
    ensures NearestFirst(m, position, open, [open[i]] + r)
  {
    assert ([open[i]] + r)[1..] == r;
  }

  lemma ContinueNearest(m: Matrix, from: int, stops: seq<Stop>, done: seq<Stop>, position: int, open: seq<Stop>, i: int)
    requires Continues(m, from, stops, done, position, open) && FirstNearest(m, position, open, i)
    ensures Continues(m, from, stops, done + [open[i]], open[i].matrixIndex, Remove(open, i))
  {
    hide NearestFirst, AsNear, Remove;
    forall r | NearestFirst(m, open[i].matrixIndex, Remove(open, i), r)
      ensures NearestFirst(m, from, stops, done + [open[i]] + r)
    {
      ThenTheRest(m, position, open, i, r);
      assert done + ([open[i]] + r) == done + [open[i]] + r;
    }
  }

  lemma NoStopsLeft(m: Matrix, from: int, stops: seq<Stop>, done: seq<Stop>, position: int)
    requires Continues(m, from, stops, done, position, [])
    ensures NearestFirst(m, from, stops, done)
  {
    assert NearestFirst(m, position, [], []);
    assert done + [] == done;
  }

  lemma NothingTaken(m: Matrix, from: int, stops: seq<Stop>)
    ensures Greedy(m, from, []) && AheadOf(m, from, [], stops) && [] + stops == stops
    ensures Continues(m, from, stops, [], from, stops)
  {
    hide NearestFirst;
    assert forall r: seq<Stop> :: [] + r == r;
  }

  /** The nearest neighbour order from a starting point on. */
  method NearestNeighbourOrder(m: Matrix, from: int, stops: seq<Stop>) returns (result: seq<Stop>)
    ensures Permutation(result, stops)
    ensures Greedy(m, from, result)
    ensures NearestFirst(m, from, stops, result)
  {
    hide Greedy, AheadOf, AsNear, NearestFirst, Continues;
    var remaining := stops;
    result := [];
    var position := from;
    NothingTaken(m, from, stops);
    while |remaining| > 0
      invariant multiset(result + remaining) == multiset(stops)
      invariant position == if result == [] then from else result[|result| - 1].matrixIndex
      invariant Greedy(m, from, result) && AheadOf(m, from, result, remaining)
      invariant Continues(m, from, stops, result, position, remaining)
      decreases |remaining|
    {
      var bestIdx := Nearest(m, position, remaining);
      var next := remaining[bestIdx];
      ContinueNearest(m, from, stops, result, position, remaining, bestIdx);
      TakeNearest(m, from, result, remaining, bestIdx);
      MoveOne(result, remaining, bestIdx);
      remaining := Remove(remaining, bestIdx);
      result := result + [next];
      position := next.matrixIndex;
    }
    NoStopsLeft(m, from, stops, result, position);
    assert result + remaining == result;
  }

  /** No part of the order can be turned round to score better. */
  ghost predicate NoTurnHelps(input: PlanInput, prefix: seq<Stop>, best: seq<Stop>, suffix: seq<Stop>) {
    forall i, j :: 0 <= i < j < |best| ==>
      !BetterScore(PartialScore(input, prefix + Turned(best, i, j) + suffix),
                   PartialScore(input, prefix + best + suffix))
  }

  /** The rest of a pass, from the part `i..j` on: each part is turned round where that scores better. */
  ghost function PassFrom(input: PlanInput, prefix: seq<Stop>, best: seq<Stop>, suffix: seq<Stop>, i: int,
                          j: int): seq<Stop>
    requires 0 <= i < j
    decreases |best| - i, |best| - j
  {
    if i + 1 >= |best| then best
    else if j >= |best| then PassFrom(input, prefix, best, suffix, i + 1, i + 2)
    else
      var turned := Turned(best, i, j);
      var helps := BetterScore(PartialScore(input, prefix + turned + suffix),
                               PartialScore(input, prefix + best + suffix));
      PassFrom(input, prefix, if helps then turned else best, suffix, i, j + 1)
  }

  /** One pass over all parts. */
  ghost function Pass(input: PlanInput, prefix: seq<Stop>, best: seq<Stop>, suffix: seq<Stop>): seq<Stop> {
    PassFrom(input, prefix, best, suffix, 0, 1)
  }

  /** Passes until one changes nothing, at most `n`. */
  ghost function Turns(input: PlanInput, prefix: seq<Stop>, best: seq<Stop>, suffix: seq<Stop>, n: nat): seq<Stop>
    decreases n
  {
    if n == 0 || Pass(input, prefix, best, suffix) == best then best
    else Turns(input, prefix, Pass(input, prefix, best, suffix), suffix, n - 1)
  }

  /** A pass takes the parts row by row: after `i..j` comes `i..j + 1`, after the last of a row the next row. */
  lemma PassInRows(input: PlanInput, prefix: seq<Stop>, best: seq<Stop>, suffix: seq<Stop>, i: int, j: int)
    requires 0 <= i < j <= |best|
    ensures Pass(input, prefix, best, suffix) == PassFrom(input, prefix, best, suffix, 0, 1)
    ensures i + 1 < |best| == j ==>
      PassFrom(input, prefix, best, suffix, i, j) == PassFrom(input, prefix, best, suffix, i + 1, i + 2)
    ensures j < |best| ==>
      var turned := Turned(best, i, j);
      PassFrom(input, prefix, best, suffix, i, j) ==
        if BetterScore(PartialScore(input, prefix + turned + suffix), PartialScore(input, prefix + best + suffix))
        then PassFrom(input, prefix, turned, suffix, i, j + 1) else PassFrom(input, prefix, best, suffix, i, j + 1)
    ensures i + 1 == |best| ==> PassFrom(input, prefix, best, suffix, i, j) == best
  {
    hide PartialScore, Turned;
  }

  lemma {:induction false} PassKeeps(input: PlanInput, prefix: seq<Stop>, best: seq<Stop>, suffix: seq<Stop>, i: int,
                                     j: int)
    requires 0 <= i < j
    ensures var r := PassFrom(input, prefix, best, suffix, i, j);
      && Permutation(r, best)
      && (r == best
          || BetterScore(PartialScore(input, prefix + r + suffix), PartialScore(input, prefix + best + suffix)))
      && (r == best ==> forall k, l :: (k > i || (k == i && l >= j)) && k < l < |best| ==>
            !BetterScore(PartialScore(input, prefix + Turned(best, k, l) + suffix),
                         PartialScore(input, prefix + best + suffix)))
    decreases |best| - i, |best| - j
  {
    hide PartialScore, Turned;
    if i + 1 < |best| {
      if j >= |best| {
        PassKeeps(input, prefix, best, suffix, i + 1, i + 2);
      } else {
        var turned := Turned(best, i, j);
        TurnedPermutes(best, i, j);
        if BetterScore(PartialScore(input, prefix + turned + suffix), PartialScore(input, prefix + best + suffix)) {
          PassKeeps(input, prefix, turned, suffix, i, j + 1);
        } else {
          PassKeeps(input, prefix, best, suffix, i, j + 1);
        }
      }
    }
  }

  /** A pass permutes; it changes the order only for a better one, and keeps it only where no turn helps. */
  lemma PassImproves(input: PlanInput, prefix: seq<Stop>, best: seq<Stop>, suffix: seq<Stop>)
    ensures var r := Pass(input, prefix, best, suffix);
      && Permutation(r, best)
      && (r == best ==> NoTurnHelps(input, prefix, best, suffix))
      && (r != best ==>
          BetterScore(PartialScore(input, prefix + r + suffix), PartialScore(input, prefix + best + suffix)))
  {
    hide PartialScore, Turned, PassFrom, Permutation;
    PassKeeps(input, prefix, best, suffix, 0, 1);
  }

  /** Each of `n` passes finds a better order. */
  ghost predicate EveryPassHelps(input: PlanInput, prefix: seq<Stop>, best: seq<Stop>, suffix: seq<Stop>, n: nat)
    decreases n
  {
    n == 0 ||
      var r := Pass(input, prefix, best, suffix);
      BetterScore(PartialScore(input, prefix + r + suffix), PartialScore(input, prefix + best + suffix))
      && EveryPassHelps(input, prefix, r, suffix, n - 1)
  }

  /** Turning parts round never makes an order worse, and it ends where no turn helps unless every single one
      of the passes found a better order. */
  lemma {:induction false} TurnsImprove(input: PlanInput, prefix: seq<Stop>, best: seq<Stop>, suffix: seq<Stop>, n: nat)
    ensures var r := Turns(input, prefix, best, suffix, n);
      && Permutation(r, best)
      && !BetterScore(PartialScore(input, prefix + best + suffix), PartialScore(input, prefix + r + suffix))
      && (NoTurnHelps(input, prefix, r, suffix) || EveryPassHelps(input, prefix, best, suffix, n))
    decreases n
  {
    hide PartialScore, Pass, NoTurnHelps;
    PassImproves(input, prefix, best, suffix);
    if n > 0 && Pass(input, prefix, best, suffix) != best {
      TurnsImprove(input, prefix, Pass(input, prefix, best, suffix), suffix, n - 1);
    }
  }

  method OnePass(input: PlanInput, prefix: seq<Stop>, from: seq<Stop>, suffix: seq<Stop>, score: Score)
    returns (best: seq<Stop>, bestScore: Score, improved: bool)
    requires score == PartialScore(input, prefix + from + suffix)
    ensures best == Pass(input, prefix, from, suffix)
    ensures bestScore == PartialScore(input, prefix + best + suffix)
    ensures improved <==> best != from
  {
    hide PartialScore, Turned;
    best, bestScore, improved := from, score, false;
    var n := |from|;
    var i := 0;
    while i < n - 1
      invariant 0 <= i && |best| == n
      invariant bestScore == PartialScore(input, prefix + best + suffix)
      invariant if improved then BetterScore(bestScore, score) else best == from
      invariant Pass(input, prefix, from, suffix) == PassFrom(input, prefix, best, suffix, i, i + 1)
    {
      for j := i + 1 to n
        invariant |best| == n
        invariant bestScore == PartialScore(input, prefix + best + suffix)
        invariant if improved then BetterScore(bestScore, score) else best == from
        invariant Pass(input, prefix, from, suffix) == PassFrom(input, prefix, best, suffix, i, j)
      {
        var candidate := Turned(best, i, j);
        var candidateScore := EvaluatePartial(input, prefix + candidate + suffix);
        if BetterScore(candidateScore, bestScore) {
          bestScore := candidateScore;
          best := candidate;
          improved := true;
        }
      }
      i := i + 1;
    }
  }

  /** Turns parts round while that helps, for at most 50 passes. */
  method TurnParts(input: PlanInput, prefix: seq<Stop>, start: seq<Stop>, suffix: seq<Stop>) returns (best: seq<Stop>)
    ensures best == Turns(input, prefix, start, suffix, MAX_PASSES)
    ensures Permutation(best, start)
    ensures !BetterScore(PartialScore(input, prefix + start + suffix), PartialScore(input, prefix + best + suffix))
    ensures NoTurnHelps(input, prefix, best, suffix) || EveryPassHelps(input, prefix, start, suffix, MAX_PASSES)
  {
    hide PartialScore, Pass, Permutation, NoTurnHelps, EveryPassHelps;
    best := start;
    var bestScore := EvaluatePartial(input, prefix + best + suffix);
    var improved := true;
    var passes := 0;
    while improved && passes < MAX_PASSES
      invariant 0 <= passes <= MAX_PASSES
      invariant bestScore == PartialScore(input, prefix + best + suffix)
      invariant Turns(input, prefix, start, suffix, MAX_PASSES) ==
        if improved then Turns(input, prefix, best, suffix, MAX_PASSES - passes) else best
      decreases MAX_PASSES - passes
    {
      passes := passes + 1;
      best, bestScore, improved := OnePass(input, prefix, best, suffix, bestScore);
    }
    TurnsImprove(input, prefix, start, suffix, MAX_PASSES);
  }

  // ---- anchors and segments ----

  /** A maximal run of flexible stops: all of `stops[a..b]`, bounded by pinned stops or the ends. */
  ghost predicate Segment(stops: seq<Stop>, a: int, b: int) {
    && 0 <= a < b <= |stops|
    && (forall k :: a <= k < b ==> !stops[k].isPinned)
    && (a == 0 || stops[a - 1].isPinned)
    && (b == |stops| || stops[b].isPinned)
  }

  /** The anchor after a segment, if there is one. */
  function AnchorAt(stops: seq<Stop>, b: int): seq<Stop>
    requires 0 <= b <= |stops|
  {
    if b < |stops| then [stops[b]] else []
  }

  function PositionAfter(input: PlanInput, prefix: seq<Stop>): int {
    if prefix == [] then input.originIndex else prefix[|prefix| - 1].matrixIndex
  }

  /** What the planner makes of one flexible segment: up to seven stops the first best of all orders; beyond
      that the nearest neighbour order with its parts turned round while that helps. */
  ghost predicate Arranged(input: PlanInput, prefix: seq<Stop>, flexible: seq<Stop>, best: seq<Stop>,
                           suffix: seq<Stop>) {
    && Permutation(best, flexible)
    && if |flexible| <= TOUR_PLAN_FULL_PERMUTATION_MAX then FirstBest(input, prefix, flexible, best, suffix)
       else exists g :: NearestFirst(input.matrix, PositionAfter(input, prefix), flexible, g)
              && best == Turns(input, prefix, g, suffix, MAX_PASSES)
  }

  method ArrangeSegment(input: PlanInput, prefix: seq<Stop>, flexible: seq<Stop>,
                        suffix: seq<Stop>) returns (best: seq<Stop>)
    ensures Arranged(input, prefix, flexible, best, suffix)
  {
    hide PartialScore, Greedy, NearestFirst, FirstBest, BestBetween, Turns, NoTurnHelps, EveryPassHelps;
    if |flexible| <= TOUR_PLAN_FULL_PERMUTATION_MAX {
      best := BestOrder(input, prefix, flexible, suffix);
    } else {
      var greedy := NearestNeighbourOrder(input.matrix, PositionAfter(input, prefix), flexible);
      best := TurnParts(input, prefix, greedy, suffix);
    }
  }

  /** The first `n` stops of the plan: anchors in place, every finished segment arranged. */
  ghost predicate PlannedUpTo(input: PlanInput, done: seq<Stop>, n: int) {
    && 0 <= n <= |input.stops| && |done| == n
    && Permutation(done, input.stops[..n])
    && (forall k :: 0 <= k < n && input.stops[k].isPinned ==> done[k] == input.stops[k])
    && (forall a, b :: Segment(input.stops, a, b) && b <= n ==>
          Arranged(input, done[..a], input.stops[a..b], done[a..b], AnchorAt(input.stops, b)))
  }

  /** The planned order as a whole. */
  ghost predicate Planned(input: PlanInput, order: seq<Stop>) {
    PlannedUpTo(input, order, |input.stops|)
  }

  lemma AddAnchor(input: PlanInput, done: seq<Stop>, n: int)
    requires 0 <= n < |input.stops| && input.stops[n].isPinned && PlannedUpTo(input, done, n)
    ensures PlannedUpTo(input, done + [input.stops[n]], n + 1)
  {
    hide Arranged;
    var more := done + [input.stops[n]];
    assert input.stops[..n + 1] == input.stops[..n] + [input.stops[n]];
    forall a, b | Segment(input.stops, a, b) && b <= n + 1
      ensures Arranged(input, more[..a], input.stops[a..b], more[a..b], AnchorAt(input.stops, b))
    {
      assert b <= n;
      assert more[..a] == done[..a] && more[a..b] == done[a..b];
    }
  }

  /** Segments do not overlap: only the finished one ends here. */
  lemma OneSegmentEndsHere(stops: seq<Stop>, a: int, b: int, c: int, d: int)
    requires Segment(stops, a, b) && Segment(stops, c, d) && a < d <= b
    ensures c == a && d == b
  {
  }

  lemma SegmentPermutes(input: PlanInput, prefix: seq<Stop>, a: int, b: int, best: seq<Stop>)
    requires 0 <= a <= b <= |input.stops|
    requires Arranged(input, prefix, input.stops[a..b], best, AnchorAt(input.stops, b))
    ensures |best| == b - a && Permutation(best, input.stops[a..b])
  {
    hide FirstBest, Turns, NearestFirst;
    SameElements(best, input.stops[a..b]);
  }

  lemma PermutationsConcat(a: seq<Stop>, b: seq<Stop>, c: seq<Stop>, d: seq<Stop>)
    requires Permutation(a, b) && Permutation(c, d)
    ensures Permutation(a + c, b + d)
  {
  }

  lemma AddSegment(input: PlanInput, done: seq<Stop>, a: int, b: int, best: seq<Stop>)
    requires PlannedUpTo(input, done, a) && Segment(input.stops, a, b)
    requires Arranged(input, done, input.stops[a..b], best, AnchorAt(input.stops, b))
    ensures PlannedUpTo(input, done + best, b)
  {
    SegmentPermutes(input, done, a, b, best);
    hide Arranged, Permutation;
    var more := done + best;
    assert more[..a] == done && more[a..b] == best;
    PermutationsConcat(done, input.stops[..a], best, input.stops[a..b]);
    assert input.stops[..b] == input.stops[..a] + input.stops[a..b];
    forall k | 0 <= k < b && input.stops[k].isPinned ensures more[k] == input.stops[k] {
      assert k < a;
    }
    forall c, d | Segment(input.stops, c, d) && d <= b
      ensures Arranged(input, more[..c], input.stops[c..d], more[c..d], AnchorAt(input.stops, d))
    {
      if d <= a {
        assert more[..c] == done[..c] && more[c..d] == done[c..d];
      } else {
        OneSegmentEndsHere(input.stops, a, b, c, d);
      }
    }
  }

  /** Which places of `order` are filled while the planner stands at `index`. */
  ghost predicate Filled(stops: seq<Stop>, order: seq<Option<Stop>>, done: seq<Stop>, index: int) {
    && |order| == |stops| && 0 <= index <= |stops| && |done| == index
    && (forall k :: 0 <= k < index ==> order[k] == Some(done[k]))
    && (forall k :: index <= k < |stops| ==> order[k] == if stops[k].isPinned then Some(stops[k]) else None)
  }

  function Present(order: seq<Option<Stop>>): seq<Stop> {
    if order == [] then []
    else if order[0].Some? then [order[0].value] + Present(order[1..])
    else Present(order[1..])
  }

  lemma {:induction false} AllPresent(order: seq<Option<Stop>>, done: seq<Stop>)
    requires |order| == |done| && forall k :: 0 <= k < |done| ==> order[k] == Some(done[k])
    ensures Present(order) == done
  {
    if done == [] {
    } else {
      AllPresent(order[1..], done[1..]);
      assert done == [done[0]] + done[1..];
    }
  }

  method WriteBack(order: seq<Option<Stop>>, from: nat, best: seq<Stop>) returns (r: seq<Option<Stop>>)
    requires from + |best| <= |order|
    ensures |r| == |order|
    ensures forall k :: 0 <= k < |order| ==>
      r[k] == if from <= k < from + |best| then Some(best[k - from]) else order[k]
  {
    r := order;
    for i := 0 to |best|
      invariant |r| == |order|
      invariant forall k :: 0 <= k < |order| ==> r[k] == if from <= k < from + i then Some(best[k - from]) else order[k]
    {
      r := r[from + i := Some(best[i])];
    }
  }

  method PinnedOnly(stops: seq<Stop>) returns (order: seq<Option<Stop>>)
    ensures Filled(stops, order, [], 0)
  {
    order := [];
    for i := 0 to |stops|
      invariant |order| == i
      invariant forall k :: 0 <= k < i ==> order[k] == if stops[k].isPinned then Some(stops[k]) else None
    {
      order := order + [if stops[i].isPinned then Some(stops[i]) else None];
    }
  }

  lemma NothingPlanned(input: PlanInput)
    ensures PlannedUpTo(input, [], 0)
  {
  }

  lemma SameEvaluation(input: PlanInput, stops: seq<Stop>)
    ensures Evaluation(input.(stops := stops), stops) == Evaluation(input, stops)
  {
  }

  /** `planWithAnchors`: the plan of driving a planned order. */
  method PlanWithAnchors(input: PlanInput) returns (plan: Plan)
    ensures exists done :: Planned(input, done) && plan == Evaluation(input, done)
  {
    hide Arranged, Permutation, PlannedUpTo, Evaluation;
    var stops := input.stops;
    ghost var done: seq<Stop> := [];
    NothingPlanned(input);
    if stops == [] {
      plan := EvaluateOrder(input);
      assert Planned(input, done);
      return;
    }
    var order := PinnedOnly(stops);
    var index := 0;
    while index < |stops|
      invariant Filled(stops, order, done, index)
      invariant PlannedUpTo(input, done, index)
      invariant 0 < index < |stops| ==> stops[index - 1].isPinned || stops[index].isPinned
      decreases |stops| - index
    {
      if order[index].Some? {
        AddAnchor(input, done, index);
        done := done + [stops[index]];
        index := index + 1;
      } else {
        var segmentStart := index;
        while index < |stops| && order[index].None?
          invariant segmentStart <= index <= |stops|
          invariant segmentStart < |stops| && order[segmentStart].None?
          invariant forall k :: segmentStart <= k < index ==> !stops[k].isPinned
          decreases |stops| - index
        {
          index := index + 1;
        }
        var segmentEnd := index;
        assert Segment(stops, segmentStart, segmentEnd);
        var prefix := Present(order[..segmentStart]);
        AllPresent(order[..segmentStart], done);
        var best := ArrangeSegment(input, prefix, stops[segmentStart..segmentEnd], AnchorAt(stops, segmentEnd));
        AddSegment(input, done, segmentStart, segmentEnd, best);
        SegmentPermutes(input, done, segmentStart, segmentEnd, best);
        order := WriteBack(order, segmentStart, best);
        done := done + best;
      }
    }
    var finalOrder := Present(order);
    AllPresent(order, done);
    plan := EvaluateOrder(input.(stops := finalOrder));
    SameEvaluation(input, finalOrder);
    assert Planned(input, done);
  }
}
