/** Times, distances and conflicts of a tour driven in exactly one order. Instants
    and durations are whole milliseconds and seconds. */
module TourEvaluation {
  import opened Division
  import opened Durations
  import opened Options
  import opened Seqs

  datatype Stop = Stop(id: string, matrixIndex: int, isPinned: bool, bufferMinutes: int,
                       startAt: Option<int>, endAt: Option<int>)

  /** Rows of seconds and of metres; `None` is no connection. */
  datatype Matrix = Matrix(durations: seq<seq<Option<int>>>, distances: seq<seq<Option<int>>>)

  datatype PlanInput = PlanInput(matrix: Matrix, originIndex: int, depotIndex: Option<int>, stops: seq<Stop>,
                                 departureAt: int)

  datatype ConflictCode = TimeWindowMissed | Unreachable

  datatype Conflict = Conflict(stopId: string, code: ConflictCode)

  datatype Visit = Visit(stopId: string, arrivalAt: int, departureAt: int, waitingSeconds: int,
                         legDistanceMeters: int, legDurationSeconds: int)

  datatype ReturnLeg = ReturnLeg(distanceMeters: int, durationSeconds: int)

  datatype Plan = Plan(order: seq<string>, visits: seq<Visit>, totalDistanceMeters: int, totalDurationSeconds: int,
                       plannedStartAt: int, plannedEndAt: int, returnLeg: Option<ReturnLeg>, conflicts: seq<Conflict>,
                       feasible: bool)

  /** `matrixCell`: a missing row or column is no connection. */
  function Cell(cells: seq<seq<Option<int>>>, from: int, to: int): Option<int> {
    if 0 <= from < |cells| && 0 <= to < |cells[from]| then cells[from][to] else None
  }

  function Or0(x: Option<int>): int { if x.Some? then x.value else 0 }

  /** `Math.round(ms / 1000)` */
  function RoundSeconds(ms: int): int { (2 * ms + SECOND) / (2 * SECOND) }

  function Max(a: int, b: int): int { if a < b then b else a }

  /** Window end, else the exact time; an unplanned stop has none. */
  function StopDeadline(s: Stop): Option<int> {
    if s.startAt.None? then None else if s.endAt.Some? then s.endAt else s.startAt
  }

  // ---- one stop after the other ----

  /** Where a tour stands after some stops. */
  datatype Progress = Progress(clock: int, position: int, distance: int, visits: seq<Visit>, conflicts: seq<Conflict>)

  function ReachedAt(m: Matrix, p: Progress, s: Stop): int {
    p.clock + Or0(Cell(m.durations, p.position, s.matrixIndex)) * SECOND
  }

  function ArrivalAt(m: Matrix, p: Progress, s: Stop): int {
    if s.startAt.Some? then Max(ReachedAt(m, p, s), s.startAt.value) else ReachedAt(m, p, s)
  }

  function DepartureAt(m: Matrix, p: Progress, s: Stop): int {
    ArrivalAt(m, p, s) + Max(0, s.bufferMinutes) * MINUTE
  }

  predicate NotConnected(m: Matrix, from: int, s: Stop) {
    Cell(m.durations, from, s.matrixIndex).None? || Cell(m.distances, from, s.matrixIndex).None?
  }

  predicate TooLate(m: Matrix, p: Progress, s: Stop) {
    StopDeadline(s).Some? && ArrivalAt(m, p, s) > StopDeadline(s).value
  }

  function VisitOf(m: Matrix, p: Progress, s: Stop): Visit {
    Visit(s.id, ArrivalAt(m, p, s), DepartureAt(m, p, s), RoundSeconds(ArrivalAt(m, p, s) - ReachedAt(m, p, s)),
          Or0(Cell(m.distances, p.position, s.matrixIndex)), Or0(Cell(m.durations, p.position, s.matrixIndex)))
  }

  function ConflictsOf(m: Matrix, p: Progress, s: Stop): seq<Conflict> {
    (if NotConnected(m, p.position, s) then [Conflict(s.id, Unreachable)] else [])
      + (if TooLate(m, p, s) then [Conflict(s.id, TimeWindowMissed)] else [])
  }

  function DriveTo(m: Matrix, p: Progress, s: Stop): Progress {
    Progress(DepartureAt(m, p, s), s.matrixIndex, p.distance + Or0(Cell(m.distances, p.position, s.matrixIndex)),
             p.visits + [VisitOf(m, p, s)], p.conflicts + ConflictsOf(m, p, s))
  }

  function Drive(m: Matrix, p: Progress, stops: seq<Stop>): Progress
    decreases |stops|
  {
    if stops == [] then p else Drive(m, DriveTo(m, p, stops[0]), stops[1..])
  }

  function Start(input: PlanInput): Progress { Progress(input.departureAt, input.originIndex, 0, [], []) }

  function Driven(input: PlanInput, stops: seq<Stop>): Progress { Drive(input.matrix, Start(input), stops) }

  function IdOf(s: Stop): string { s.id }

  function ReturnOf(input: PlanInput, stops: seq<Stop>): Option<ReturnLeg> {
    if input.depotIndex.None? || stops == [] then None
    else
      var from := Driven(input, stops).position;
      Some(ReturnLeg(Or0(Cell(input.matrix.distances, from, input.depotIndex.value)),
                     Or0(Cell(input.matrix.durations, from, input.depotIndex.value))))
  }

  /** The plan of driving the stops in the given order. */
  function Evaluation(input: PlanInput, stops: seq<Stop>): Plan {
    var p := Driven(input, stops);
    var back := ReturnOf(input, stops);
    var endAt := if back.Some? then p.clock + back.value.durationSeconds * SECOND else p.clock;
    Plan(Map(IdOf, stops), p.visits, if back.Some? then p.distance + back.value.distanceMeters else p.distance,
         Max(0, RoundSeconds(endAt - input.departureAt)), input.departureAt, endAt, back, p.conflicts,
         p.conflicts == [])
  }

  // ---- the computation ----

  lemma {:induction false} DriveConcat(m: Matrix, p: Progress, a: seq<Stop>, b: seq<Stop>)
    ensures Drive(m, p, a + b) == Drive(m, Drive(m, p, a), b)
    decreases |a|
  {
    if a == [] {
      assert a + b == b;
    } else {
      assert (a + b)[1..] == a[1..] + b;
      hide DriveTo;
      DriveConcat(m, DriveTo(m, p, a[0]), a[1..], b);
    }
  }

  lemma DriveSnoc(m: Matrix, p: Progress, stops: seq<Stop>, i: int)
    requires 0 <= i < |stops|
    ensures Drive(m, p, stops[..i + 1]) == DriveTo(m, Drive(m, p, stops[..i]), stops[i])
  {
    hide DriveTo;
    assert stops[..i + 1] == stops[..i] + [stops[i]];
    DriveConcat(m, p, stops[..i], [stops[i]]);
    assert [stops[i]][1..] == [];
  }

  /** One stop: its visit, and a conflict where it cannot be reached or is reached too late. */
  method VisitStop(m: Matrix, clock: int, position: int, stop: Stop, ghost p: Progress)
    returns (visit: Visit, conflicts: seq<Conflict>)
    requires p.clock == clock && p.position == position
    ensures DriveTo(m, p, stop) == Progress(visit.departureAt, stop.matrixIndex, p.distance + visit.legDistanceMeters,
                                            p.visits + [visit], p.conflicts + conflicts)
  {
    var duration := Cell(m.durations, position, stop.matrixIndex);
    var distance := Cell(m.distances, position, stop.matrixIndex);
    conflicts := [];
    if duration.None? || distance.None? {
      conflicts := conflicts + [Conflict(stop.id, Unreachable)];
    }
    var arrival := clock + Or0(duration) * SECOND;
    var waitingSeconds := 0;
    if stop.startAt.Some? && arrival < stop.startAt.value {
      waitingSeconds := RoundSeconds(stop.startAt.value - arrival);
      arrival := stop.startAt.value;
    }
    var deadline := StopDeadline(stop);
    if deadline.Some? && arrival > deadline.value {
      conflicts := conflicts + [Conflict(stop.id, TimeWindowMissed)];
    }
    var departure := arrival + Max(0, stop.bufferMinutes) * MINUTE;
    visit := Visit(stop.id, arrival, departure, waitingSeconds, Or0(distance), Or0(duration));
    assert conflicts == ConflictsOf(m, p, stop);
  }

  /** `evaluateOrder` */
  method EvaluateOrder(input: PlanInput) returns (plan: Plan)
    ensures plan == Evaluation(input, input.stops)
  {
    var order: seq<string>, visits: seq<Visit>, conflicts: seq<Conflict> := [], [], [];
    var clock, position, totalDistance := input.departureAt, input.originIndex, 0;
    for i := 0 to |input.stops|
      invariant order == Map(IdOf, input.stops[..i])
      invariant Progress(clock, position, totalDistance, visits, conflicts) == Driven(input, input.stops[..i])
    {
      var stop := input.stops[i];
      ghost var before := Progress(clock, position, totalDistance, visits, conflicts);
      hide DriveTo, Drive;
      var visit, found := VisitStop(input.matrix, clock, position, stop, before);
      visits := visits + [visit];
      conflicts := conflicts + found;
      totalDistance := totalDistance + visit.legDistanceMeters;
      clock := visit.departureAt;
      position := stop.matrixIndex;
      order := order + [stop.id];
      DriveSnoc(input.matrix, Start(input), input.stops, i);
      MapSnoc(IdOf, input.stops, i);
    }
    assert input.stops[..|input.stops|] == input.stops;
    hide Drive;
    var returnLeg := None;
    if input.depotIndex.Some? && |input.stops| > 0 {
      var duration := Or0(Cell(input.matrix.durations, position, input.depotIndex.value));
      var distance := Or0(Cell(input.matrix.distances, position, input.depotIndex.value));
      returnLeg := Some(ReturnLeg(distance, duration));
      totalDistance := totalDistance + distance;
      clock := clock + duration * SECOND;
    }
    plan := Plan(order, visits, totalDistance, Max(0, RoundSeconds(clock - input.departureAt)), input.departureAt,
                 clock, returnLeg, conflicts, conflicts == []);
  }

  // ---- what an evaluation says ----

  lemma {:induction false} DriveExtends(m: Matrix, p: Progress, stops: seq<Stop>)
    ensures |Drive(m, p, stops).visits| == |p.visits| + |stops|
    ensures p.visits <= Drive(m, p, stops).visits && p.conflicts <= Drive(m, p, stops).conflicts
    ensures stops != [] ==> Drive(m, p, stops).position == stops[|stops| - 1].matrixIndex
    decreases |stops|
  {
    if stops == [] {
    } else {
      var q := DriveTo(m, p, stops[0]);
      DriveExtends(m, q, stops[1..]);
      assert p.visits <= q.visits <= Drive(m, q, stops[1..]).visits;
      assert p.conflicts <= q.conflicts <= Drive(m, q, stops[1..]).conflicts;
    }
  }

  /** Where the tour stands before its k-th stop. */
  function PositionBefore(input: PlanInput, k: int): int
    requires 0 <= k < |input.stops|
  {
    if k == 0 then input.originIndex else input.stops[k - 1].matrixIndex
  }

  lemma SplitAt(m: Matrix, p: Progress, stops: seq<Stop>, k: int)
    requires 0 <= k <= |stops|
    ensures Drive(m, p, stops[..k]).visits <= Drive(m, p, stops).visits
  {
    assert stops == stops[..k] + stops[k..];
    DriveConcat(m, p, stops[..k], stops[k..]);
    DriveExtends(m, Drive(m, p, stops[..k]), stops[k..]);
  }

  /** The k-th visit starts where and when the one before it ended. */
  lemma VisitAt(input: PlanInput, k: int)
    requires 0 <= k < |input.stops|
    ensures var visits, before := Driven(input, input.stops).visits, Driven(input, input.stops[..k]);
      && |visits| == |input.stops|
      && visits[k] == VisitOf(input.matrix, before, input.stops[k])
      && before.position == PositionBefore(input, k)
      && before.clock == if k == 0 then input.departureAt else visits[k - 1].departureAt
  {
    var m, p, stops := input.matrix, Start(input), input.stops;
    var before := Drive(m, p, stops[..k]);
    DriveExtends(m, p, stops);
    DriveExtends(m, p, stops[..k]);
    DriveSnoc(m, p, stops, k);
    SplitAt(m, p, stops, k + 1);
    if k > 0 {
      DriveSnoc(m, p, stops, k - 1);
      assert stops[..k][k - 1] == stops[k - 1];
    }
    hide Drive;
    var after := DriveTo(m, before, stops[k]);
    assert after.visits[k] == VisitOf(m, before, stops[k]);
    assert Drive(m, p, stops).visits[k] == after.visits[k];
    if k > 0 {
      var earlier := Drive(m, p, stops[..k - 1]);
      DriveExtends(m, p, stops[..k - 1]);
      assert before.visits[k - 1] == VisitOf(m, earlier, stops[k - 1]);
      assert after.visits[k - 1] == before.visits[k - 1];
    }
  }

  /** Whole seconds nearest to a span in milliseconds, halves up. */
  predicate NearestSecond(seconds: int, ms: int) { 1000 * seconds - 500 <= ms < 1000 * seconds + 500 }

  lemma RoundedToSeconds(ms: int)
    ensures NearestSecond(RoundSeconds(ms), ms)
  {
    QuotientFacts(2 * ms + 1000, 2000);
  }

  /** The entry of a matrix, or 0 where it has none. */
  predicate IsLeg(value: int, cells: seq<seq<Option<int>>>, from: int, to: int) {
    if 0 <= from < |cells| && 0 <= to < |cells[from]| && cells[from][to].Some? then value == cells[from][to].value
    else value == 0
  }

  /** The k-th visit is the k-th stop: reached by the matrix time from the stop before (or the origin),
      waited for until its window opens, and left after its buffer. */
  lemma Timeline(input: PlanInput, k: int)
    requires 0 <= k < |input.stops|
    ensures |Evaluation(input, input.stops).visits| == |input.stops|
    ensures var visits, s := Evaluation(input, input.stops).visits, input.stops[k];
      var leftAt := if k == 0 then input.departureAt else visits[k - 1].departureAt;
      var reached := leftAt + 1000 * visits[k].legDurationSeconds;
      && visits[k].stopId == s.id
      && visits[k].arrivalAt == (if s.startAt.Some? && s.startAt.value > reached then s.startAt.value else reached)
      && NearestSecond(visits[k].waitingSeconds, visits[k].arrivalAt - reached)
      && visits[k].departureAt == visits[k].arrivalAt + (if s.bufferMinutes > 0 then 60_000 * s.bufferMinutes else 0)
      && IsLeg(visits[k].legDurationSeconds, input.matrix.durations, PositionBefore(input, k), s.matrixIndex)
      && IsLeg(visits[k].legDistanceMeters, input.matrix.distances, PositionBefore(input, k), s.matrixIndex)
  {
    VisitAt(input, k);
    var reached := ReachedAt(input.matrix, Driven(input, input.stops[..k]), input.stops[k]);
    hide Drive;
    RoundedToSeconds(Driven(input, input.stops).visits[k].arrivalAt - reached);
  }

  // ---- what a conflict says ----

  predicate Connected(cells: seq<seq<Option<int>>>, from: int, to: int) {
    0 <= from < |cells| && 0 <= to < |cells[from]| && cells[from][to].Some?
  }

  /** The k-th stop lacks a duration or a distance from where the tour stands. */
  predicate Unconnected(input: PlanInput, k: int)
    requires 0 <= k < |input.stops|
  {
    var from, to := PositionBefore(input, k), input.stops[k].matrixIndex;
    !Connected(input.matrix.durations, from, to) || !Connected(input.matrix.distances, from, to)
  }

  /** The k-th visit comes after the end of the window of its stop, or after the appointed time where the window has
      no end. */
  predicate Missed(input: PlanInput, visits: seq<Visit>, k: int)
    requires 0 <= k < |input.stops| == |visits|
  {
    var s := input.stops[k];
    s.startAt.Some? && visits[k].arrivalAt > if s.endAt.Some? then s.endAt.value else s.startAt.value
  }

  function UnconnectedBefore(input: PlanInput, n: int): set<int>
    requires 0 <= n <= |input.stops|
  {
    set k | 0 <= k < n && Unconnected(input, k)
  }

  function MissedBefore(input: PlanInput, visits: seq<Visit>, n: int): set<int>
    requires 0 <= n <= |input.stops| == |visits|
  {
    set k | 0 <= k < n && Missed(input, visits, k)
  }

  function ConflictsAt(input: PlanInput, visits: seq<Visit>, k: int): seq<Conflict>
    requires 0 <= k < |input.stops| == |visits|
  {
    (if Unconnected(input, k) then [Conflict(input.stops[k].id, Unreachable)] else [])
      + (if Missed(input, visits, k) then [Conflict(input.stops[k].id, TimeWindowMissed)] else [])
  }

  /** Some stop before the n-th is the reason for a conflict. */
  ghost predicate HasReason(input: PlanInput, visits: seq<Visit>, c: Conflict, n: int)
    requires 0 <= n <= |input.stops| == |visits|
  {
    exists k :: 0 <= k < n && c in ConflictsAt(input, visits, k)
  }

  lemma ConflictsOfOne(input: PlanInput, visits: seq<Visit>, k: int)
    requires 0 <= k < |input.stops| == |visits| && visits == Driven(input, input.stops).visits
    ensures ConflictsOf(input.matrix, Driven(input, input.stops[..k]), input.stops[k]) == ConflictsAt(input, visits, k)
  {
    VisitAt(input, k);
    hide Drive;
  }

  lemma UnconnectedSnoc(input: PlanInput, k: int)
    requires 0 <= k < |input.stops|
    ensures |UnconnectedBefore(input, k + 1)|
      == |UnconnectedBefore(input, k)| + (if Unconnected(input, k) then 1 else 0)
  {
    hide Unconnected;
    var before := UnconnectedBefore(input, k);
    if Unconnected(input, k) {
      assert UnconnectedBefore(input, k + 1) == before + {k};
    } else {
      assert UnconnectedBefore(input, k + 1) == before;
    }
  }

  lemma MissedSnoc(input: PlanInput, visits: seq<Visit>, k: int)
    requires 0 <= k < |input.stops| == |visits|
    ensures |MissedBefore(input, visits, k + 1)|
         == |MissedBefore(input, visits, k)| + (if Missed(input, visits, k) then 1 else 0)
  {
    hide Missed;
    var before := MissedBefore(input, visits, k);
    if Missed(input, visits, k) {
      assert MissedBefore(input, visits, k + 1) == before + {k};
    } else {
      assert MissedBefore(input, visits, k + 1) == before;
    }
  }

  lemma FailuresSnoc(input: PlanInput, visits: seq<Visit>, k: int)
    requires 0 <= k < |input.stops| == |visits|
    ensures |UnconnectedBefore(input, k + 1)|
      == |UnconnectedBefore(input, k)| + (if Unconnected(input, k) then 1 else 0)
    ensures |MissedBefore(input, visits, k + 1)|
         == |MissedBefore(input, visits, k)| + (if Missed(input, visits, k) then 1 else 0)
  {
    hide UnconnectedBefore, MissedBefore, Unconnected, Missed;
    UnconnectedSnoc(input, k);
    MissedSnoc(input, visits, k);
  }

  lemma ReasonSnoc(input: PlanInput, visits: seq<Visit>, c: Conflict, k: int)
    requires 0 <= k < |input.stops| == |visits|
    ensures HasReason(input, visits, c, k + 1) <==> HasReason(input, visits, c, k) || c in ConflictsAt(input, visits, k)
  {
    hide ConflictsAt;
  }

  lemma {:induction false} ConflictsOfPrefix(input: PlanInput, visits: seq<Visit>, n: int)
    requires 0 <= n <= |input.stops| == |visits| && visits == Driven(input, input.stops).visits
    ensures var conflicts := Driven(input, input.stops[..n]).conflicts;
      && |conflicts| == |UnconnectedBefore(input, n)| + |MissedBefore(input, visits, n)|
      && forall c: Conflict :: c in conflicts <==> HasReason(input, visits, c, n)
    decreases n
  {
    if n == 0 {
    } else {
      var k := n - 1;
      ConflictsOfPrefix(input, visits, k);
      ConflictsOfOne(input, visits, k);
      DriveSnoc(input.matrix, Start(input), input.stops, k);
      FailuresSnoc(input, visits, k);
      assert |ConflictsAt(input, visits, k)|
        == (if Unconnected(input, k) then 1 else 0) + (if Missed(input, visits, k) then 1 else 0);
      hide Drive, ConflictsAt, ConflictsOf, UnconnectedBefore, MissedBefore, Unconnected, Missed;
      var before, at := Driven(input, input.stops[..k]).conflicts, ConflictsAt(input, visits, k);
      assert Driven(input, input.stops[..n]).conflicts == before + at;
      hide HasReason;
      forall c: Conflict ensures c in before + at <==> HasReason(input, visits, c, n) {
        ReasonSnoc(input, visits, c, k);
      }
    }
  }

  /** The conflicts of a plan name exactly the stops that are not connected and those reached after their
      deadline, one conflict each; the plan is feasible exactly when there is no such stop. */
  lemma ConflictsAreTheFailures(input: PlanInput)
    ensures var plan, n := Evaluation(input, input.stops), |input.stops|;
      && |plan.visits| == n
      && |plan.conflicts| == |UnconnectedBefore(input, n)| + |MissedBefore(input, plan.visits, n)|
      && (forall c: Conflict :: c in plan.conflicts <==> HasReason(input, plan.visits, c, n))
      && (plan.feasible <==> forall k :: 0 <= k < n ==> !Unconnected(input, k) && !Missed(input, plan.visits, k))
  {
    var visits, n := Driven(input, input.stops).visits, |input.stops|;
    DriveExtends(input.matrix, Start(input), input.stops);
    assert input.stops[..n] == input.stops;
    hide Drive, Unconnected, Missed;
    ConflictsOfPrefix(input, visits, n);
    hide HasReason;
    if k :| 0 <= k < n && (Unconnected(input, k) || Missed(input, visits, k)) {
      assert k in UnconnectedBefore(input, n) || k in MissedBefore(input, visits, n);
    }
  }

  /** Leaving later never gets there earlier and never misses fewer windows, whatever the matrix. */
  lemma {:induction false} LaterStartIsNoBetter(m: Matrix, p: Progress, q: Progress, stops: seq<Stop>)
    requires p.position == q.position && p.clock <= q.clock && |p.conflicts| <= |q.conflicts|
    ensures Drive(m, p, stops).clock <= Drive(m, q, stops).clock
    ensures |Drive(m, p, stops).conflicts| <= |Drive(m, q, stops).conflicts|
    decreases |stops|
  {
    if stops == [] {
    } else {
      LaterStartIsNoBetter(m, DriveTo(m, p, stops[0]), DriveTo(m, q, stops[0]), stops[1..]);
    }
  }

  function LegDistance(v: Visit): int { v.legDistanceMeters }

  lemma {:induction false} DistanceIsTheSumOfLegs(m: Matrix, p: Progress, stops: seq<Stop>)
    requires p.distance == Sum(LegDistance, p.visits)
    ensures Drive(m, p, stops).distance == Sum(LegDistance, Drive(m, p, stops).visits)
    decreases |stops|
  {
    if stops == [] {
    } else {
      var v := VisitOf(m, p, stops[0]);
      SumConcat(LegDistance, p.visits, [v]);
      SumOne(LegDistance, v);
      DistanceIsTheSumOfLegs(m, DriveTo(m, p, stops[0]), stops[1..]);
    }
  }

  /** The total distance is the sum of all legs and the way back. */
  lemma TotalDistanceAddsUp(input: PlanInput)
    ensures var plan := Evaluation(input, input.stops);
      plan.totalDistanceMeters == Sum(LegDistance, plan.visits)
        + (if plan.returnLeg.Some? then plan.returnLeg.value.distanceMeters else 0)
  {
    DistanceIsTheSumOfLegs(input.matrix, Start(input), input.stops);
  }

  /** The conflicts stand in the order of the stops, a missing connection before a missed deadline. */
  lemma ConflictsInTurn(input: PlanInput, k: int)
    requires 0 <= k < |input.stops|
    ensures var visits := Driven(input, input.stops).visits;
      && |visits| == |input.stops|
      && Driven(input, input.stops[..k + 1]).conflicts == Driven(input, input.stops[..k]).conflicts
        + (if Unconnected(input, k) then [Conflict(input.stops[k].id, Unreachable)] else [])
        + (if Missed(input, visits, k) then [Conflict(input.stops[k].id, TimeWindowMissed)] else [])
    ensures Driven(input, []).conflicts == []
    ensures Evaluation(input, input.stops).conflicts == Driven(input, input.stops[..|input.stops|]).conflicts
  {
    DriveExtends(input.matrix, Start(input), input.stops);
    ConflictsOfOne(input, Driven(input, input.stops).visits, k);
    DriveSnoc(input.matrix, Start(input), input.stops, k);
    assert input.stops[..|input.stops|] == input.stops;
    hide Drive, Unconnected, Missed;
  }

  /** The order of a plan is that of its visits. */
  lemma OrderIsThatOfTheVisits(input: PlanInput, stops: seq<Stop>, k: int)
    ensures var plan := Evaluation(input, stops);
      && |plan.order| == |plan.visits| == |stops|
      && (0 <= k < |stops| ==> plan.order[k] == plan.visits[k].stopId == stops[k].id)
  {
    var same := input.(stops := stops);
    DriveExtends(input.matrix, Start(input), stops);
    MapAt(IdOf, stops, k);
    if 0 <= k < |stops| {
      assert Driven(same, stops) == Driven(input, stops);
      VisitAt(same, k);
    }
    hide Drive, Map;
  }

  lemma LastDeparture(input: PlanInput)
    ensures var end, n := Driven(input, input.stops), |input.stops|;
      && |end.visits| == n
      && end.clock == (if n == 0 then input.departureAt else end.visits[n - 1].departureAt)
      && (n > 0 ==> end.position == input.stops[n - 1].matrixIndex)
  {
    var stops, n := input.stops, |input.stops|;
    DriveExtends(input.matrix, Start(input), stops);
    if n > 0 {
      VisitAt(input, n - 1);
      DriveSnoc(input.matrix, Start(input), stops, n - 1);
      assert stops[..n - 1 + 1] == stops;
    }
    hide Drive;
  }

  /** A plan starts at the departure and ends with the last departure, or back at the depot where there is one. */
  lemma StartAndEnd(input: PlanInput)
    ensures |Evaluation(input, input.stops).visits| == |input.stops|
    ensures var plan, n := Evaluation(input, input.stops), |input.stops|;
      var lastAt := if n == 0 then input.departureAt else plan.visits[n - 1].departureAt;
      && plan.plannedStartAt == input.departureAt
      && (plan.returnLeg.Some? <==> input.depotIndex.Some? && n > 0)
      && (plan.returnLeg.None? ==> plan.plannedEndAt == lastAt)
      && (plan.returnLeg.Some? ==>
          var back, from, to := plan.returnLeg.value, input.stops[n - 1].matrixIndex, input.depotIndex.value;
          && IsLeg(back.durationSeconds, input.matrix.durations, from, to)
          && IsLeg(back.distanceMeters, input.matrix.distances, from, to)
          && plan.plannedEndAt == lastAt + 1000 * back.durationSeconds)
      && (plan.plannedEndAt >= plan.plannedStartAt ==>
          NearestSecond(plan.totalDurationSeconds, plan.plannedEndAt - plan.plannedStartAt))
      && plan.totalDurationSeconds >= 0
  {
    var stops, n := input.stops, |input.stops|;
    LastDeparture(input);
    DriveExtends(input.matrix, Start(input), stops);
    hide Driven, Drive;
    RoundedToSeconds(Evaluation(input, stops).plannedEndAt - input.departureAt);
  }
}
