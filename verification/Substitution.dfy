/** Who is responsible at an instant, given the substitutions on record. Ranges
    are half open; an early end shortens a range and may even empty it. */
module Substitution {

  import opened Options

  type UserId = string

  datatype Sub = Sub(originalUserId: UserId, substituteUserId: UserId,
                     startsAt: int, endsAt: int, endedEarlyAt: Option<int>)

  function EffectiveEnd(s: Sub): int {
    if s.endedEarlyAt.Some? && s.endedEarlyAt.value < s.endsAt then s.endedEarlyAt.value else s.endsAt
  }

  predicate ActiveAt(s: Sub, at: int) {
    s.startsAt <= at && at < EffectiveEnd(s)
  }

  predicate RangesOverlap(a: Sub, b: Sub) {
    a.startsAt < EffectiveEnd(b) && b.startsAt < EffectiveEnd(a)
  }

  predicate NonEmpty(s: Sub) { s.startsAt < EffectiveEnd(s) }

  predicate Answers(s: Sub, user: UserId, at: int) {
    s.originalUserId == user && ActiveAt(s, at)
  }

  /** `substitutions.find(...)`: the first entry that answers for the user. */
  function FindActive(user: UserId, at: int, subs: seq<Sub>): Option<Sub> {
    if subs == [] then None
    else if Answers(subs[0], user, at) then Some(subs[0])
    else FindActive(user, at, subs[1..])
  }

  function ResolveEffectiveAssigneeId(owner: Option<UserId>, at: int, subs: seq<Sub>): Option<UserId> {
    if owner.None? then None
    else
      var active := FindActive(owner.value, at, subs);
      if active.Some? then Some(active.value.substituteUserId) else owner
  }

  /** No two substitutions of the same person overlap. */
  ghost predicate NoOverlaps(subs: seq<Sub>) {
    forall i, j :: 0 <= i < j < |subs| && subs[i].originalUserId == subs[j].originalUserId
      ==> !RangesOverlap(subs[i], subs[j])
  }

  /** A substitution answers for its original user from its start until its end, or until it was ended early. */
  lemma AnswersInItsRange(s: Sub, user: UserId, at: int)
    ensures Answers(s, user, at) <==>
      && s.originalUserId == user && s.startsAt <= at < s.endsAt
      && (s.endedEarlyAt.Some? ==> at < s.endedEarlyAt.value)
  {
  }

  /** Two ranges share an instant exactly when they overlap and neither is empty. */
  lemma OverlapMeansCommonInstant(a: Sub, b: Sub)
    ensures (exists at :: ActiveAt(a, at) && ActiveAt(b, at)) <==> RangesOverlap(a, b) && NonEmpty(a) && NonEmpty(b)
  {
    if RangesOverlap(a, b) && NonEmpty(a) && NonEmpty(b) {
      var later := if a.startsAt < b.startsAt then b.startsAt else a.startsAt;
      assert ActiveAt(a, later) && ActiveAt(b, later);
    }
  }

  /** The overlap rule alone is not enough: a range ended before it began still "overlaps"
      one that lies around it, although no instant has both active. */
  lemma EmptiedRangeOverlaps()
    ensures var emptied, around := Sub("a", "b", 5, 9, Some(4)), Sub("a", "c", 3, 8, None);
      RangesOverlap(emptied, around) && !exists at :: ActiveAt(emptied, at)
  {
  }

  /** The first entry that answers for the user. */
  ghost predicate FirstToAnswer(user: UserId, at: int, subs: seq<Sub>, i: int) {
    0 <= i < |subs| && Answers(subs[i], user, at) && forall j :: 0 <= j < i ==> !Answers(subs[j], user, at)
  }

  lemma {:induction false} FindActiveFinds(user: UserId, at: int, subs: seq<Sub>)
    ensures match FindActive(user, at, subs)
      case None => forall s :: s in subs ==> !Answers(s, user, at)
      case Some(s) => exists i :: FirstToAnswer(user, at, subs, i) && subs[i] == s
  {
    if subs == [] {
    } else {
      FindActiveFinds(user, at, subs[1..]);
      assert subs == [subs[0]] + subs[1..];
      if Answers(subs[0], user, at) {
        assert FirstToAnswer(user, at, subs, 0);
      } else if FindActive(user, at, subs).Some? {
        var i :| FirstToAnswer(user, at, subs[1..], i) && subs[1..][i] == FindActive(user, at, subs).value;
        assert FirstToAnswer(user, at, subs, i + 1);
      }
    }
  }

  /** Without overlaps at most one substitution of a person is active at any instant. */
  lemma AtMostOneActive(user: UserId, at: int, subs: seq<Sub>, i: int, j: int)
    requires NoOverlaps(subs)
    requires 0 <= i < |subs| && 0 <= j < |subs|
    requires Answers(subs[i], user, at) && Answers(subs[j], user, at)
    ensures i == j
  {
    OverlapMeansCommonInstant(subs[i], subs[j]);
  }

  lemma SameAnswer(user: UserId, at: int, subs: seq<Sub>, other: seq<Sub>)
    requires NoOverlaps(subs)
    requires multiset(subs) == multiset(other)
    ensures FindActive(user, at, subs) == FindActive(user, at, other)
  {
    FindActiveFinds(user, at, subs);
    FindActiveFinds(user, at, other);
    assert forall s :: s in subs <==> s in multiset(subs);
    assert forall s :: s in other <==> s in multiset(other);
    var here, there := FindActive(user, at, subs), FindActive(user, at, other);
    if here.Some? && there.Some? {
      var i :| FirstToAnswer(user, at, subs, i) && subs[i] == here.value;
      var k :| FirstToAnswer(user, at, other, k) && other[k] == there.value;
      assert other[k] in subs;
      var j :| 0 <= j < |subs| && subs[j] == there.value;
      AtMostOneActive(user, at, subs, i, j);
    }
  }

  /** Without overlaps the responsible person does not depend on the order of the list. */
  lemma OrderDoesNotMatter(owner: Option<UserId>, at: int, subs: seq<Sub>, other: seq<Sub>)
    requires NoOverlaps(subs)
    requires multiset(subs) == multiset(other)
    ensures ResolveEffectiveAssigneeId(owner, at, subs) == ResolveEffectiveAssigneeId(owner, at, other)
  {
    if owner.Some? { SameAnswer(owner.value, at, subs, other); }
  }

  /** Outside every active substitution of the assigned person the assignment stands; inside one,
      a single hop leads to the substitute of the first on record. */
  lemma SingleHop(owner: Option<UserId>, at: int, subs: seq<Sub>)
    ensures var r := ResolveEffectiveAssigneeId(owner, at, subs);
      if owner.Some? && exists s :: s in subs && Answers(s, owner.value, at)
      then exists i :: FirstToAnswer(owner.value, at, subs, i) && r == Some(subs[i].substituteUserId)
      else r == owner
  {
    if owner.Some? { FindActiveFinds(owner.value, at, subs); }
  }
}
