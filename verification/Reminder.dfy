/** Appointment reminders: due from `lead` before the begin until the begin,
    while none was sent. A run is a series of scans that mark what they send. */
module Reminder {
  import opened Durations
  import opened Options

  datatype Appointment = Appointment(startAt: Option<int>, scheduled: bool, reminderSentAt: Option<int>)

  predicate IsReminderDue(a: Appointment, reminderMinutes: int, now: int) {
    if !a.scheduled then false
    else if a.startAt.None? then false
    else if a.reminderSentAt.Some? then false
    else a.startAt.value - reminderMinutes * MINUTE <= now < a.startAt.value
  }

  /** One scan: a due reminder is sent and marked. */
  function Scan(a: Appointment, reminderMinutes: int, now: int): Appointment {
    if IsReminderDue(a, reminderMinutes, now) then a.(reminderSentAt := Some(now)) else a
  }

  /** The instants at which a run of scans sends a reminder, in order. */
  function Fired(a: Appointment, reminderMinutes: int, scans: seq<int>): seq<int>
    decreases |scans|
  {
    if scans == [] then []
    else
      var now := scans[0];
      (if IsReminderDue(a, reminderMinutes, now) then [now] else [])
        + Fired(Scan(a, reminderMinutes, now), reminderMinutes, scans[1..])
  }

  ghost predicate GapsAtMost(scans: seq<int>, lead: int) {
    forall i :: 0 <= i < |scans| - 1 ==> scans[i + 1] - scans[i] <= lead
  }

  lemma {:induction false} SentStaysSent(a: Appointment, reminderMinutes: int, scans: seq<int>)
    requires a.reminderSentAt.Some?
    ensures Fired(a, reminderMinutes, scans) == []
  {
    if scans == [] {
    } else {
      SentStaysSent(a, reminderMinutes, scans[1..]);
    }
  }

  ghost predicate FirstDue(a: Appointment, reminderMinutes: int, scans: seq<int>, i: int) {
    && 0 <= i < |scans|
    && IsReminderDue(a, reminderMinutes, scans[i])
    && forall j :: 0 <= j < i ==> !IsReminderDue(a, reminderMinutes, scans[j])
  }

  /** Any run, dense or not: at most one reminder fires, and it is the first scan inside
      [begin - lead, begin). None fires exactly when no scan falls into that window. */
  lemma {:induction false} FirstScanInTheWindow(a: Appointment, reminderMinutes: int, scans: seq<int>)
    ensures var f := Fired(a, reminderMinutes, scans);
      if forall i :: 0 <= i < |scans| ==> !IsReminderDue(a, reminderMinutes, scans[i]) then f == []
      else exists i :: FirstDue(a, reminderMinutes, scans, i) && f == [scans[i]]
  {
    if scans == [] {
    } else {
      var rest := scans[1..];
      if IsReminderDue(a, reminderMinutes, scans[0]) {
        SentStaysSent(Scan(a, reminderMinutes, scans[0]), reminderMinutes, rest);
        assert FirstDue(a, reminderMinutes, scans, 0);
      } else {
        FirstScanInTheWindow(a, reminderMinutes, rest);
        assert Fired(a, reminderMinutes, scans) == Fired(a, reminderMinutes, rest);
        if i :| 0 <= i < |scans| && IsReminderDue(a, reminderMinutes, scans[i]) {
          assert IsReminderDue(a, reminderMinutes, rest[i - 1]);
          var k :| FirstDue(a, reminderMinutes, rest, k) && Fired(a, reminderMinutes, rest) == [rest[k]];
          assert FirstDue(a, reminderMinutes, scans, k + 1);
        } else {
          assert forall i :: 0 <= i < |rest| ==> rest[i] == scans[i + 1];
        }
      }
    }
  }

  /** Scans with gaps of at most the lead cannot step over the window. */
  lemma {:induction false} DenseScansHitTheWindow(begin: int, lead: int, scans: seq<int>) returns (i: int)
    requires |scans| > 0 && scans[0] < begin <= scans[|scans| - 1]
    requires GapsAtMost(scans, lead)
    ensures 0 <= i < |scans| && begin - lead <= scans[i] < begin
  {
    i := 0;
    while scans[i + 1] < begin
      invariant 0 <= i < |scans| - 1 && scans[i] < begin
      decreases |scans| - i
    {
      i := i + 1;
    }
    assert scans[i + 1] - scans[i] <= lead;
  }

  /** In a run of scans that never rest longer than the lead, start before a scheduled appointment
      and end at or after its begin, exactly one reminder fires, inside the lead and before the begin. */
  lemma ExactlyOneReminder(a: Appointment, reminderMinutes: int, scans: seq<int>)
    requires a.scheduled && a.startAt.Some? && a.reminderSentAt.None?
    requires |scans| > 0 && scans[0] < a.startAt.value <= scans[|scans| - 1]
    requires GapsAtMost(scans, reminderMinutes * MINUTE)
    ensures var f := Fired(a, reminderMinutes, scans);
      |f| == 1 && f[0] in scans && a.startAt.value - reminderMinutes * MINUTE <= f[0] < a.startAt.value
  {
    var i := DenseScansHitTheWindow(a.startAt.value, reminderMinutes * MINUTE, scans);
    assert IsReminderDue(a, reminderMinutes, scans[i]);
    FirstScanInTheWindow(a, reminderMinutes, scans);
  }

  /** No reminder fires for an appointment that is not scheduled, has no begin or was reminded of already. */
  lemma OnlyForOpenAppointments(a: Appointment, reminderMinutes: int, scans: seq<int>)
    requires !a.scheduled || a.startAt.None? || a.reminderSentAt.Some?
    ensures Fired(a, reminderMinutes, scans) == []
  {
    FirstScanInTheWindow(a, reminderMinutes, scans);
  }

  /** For an open appointment it is the first scan from the lead (in minutes) before the begin until the begin. */
  lemma WindowInFigures(a: Appointment, reminderMinutes: int, scans: seq<int>, i: int)
    requires a.scheduled && a.startAt.Some? && a.reminderSentAt.None? && 0 <= i < |scans|
    requires forall j :: 0 <= j < i ==> !(a.startAt.value - reminderMinutes * 60_000 <= scans[j] < a.startAt.value)
    ensures a.startAt.value - reminderMinutes * 60_000 <= scans[i] < a.startAt.value
       ==> Fired(a, reminderMinutes, scans) == [scans[i]]
  {
    FirstScanInTheWindow(a, reminderMinutes, scans);
    if a.startAt.value - reminderMinutes * 60_000 <= scans[i] < a.startAt.value {
      assert FirstDue(a, reminderMinutes, scans, i);
    }
  }
}
