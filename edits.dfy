/**
 * Single-interval edits of the stored timer logs: adding manual time,
 * moving one entry, and deleting entries named by their 12-hour times.
 */
module Edits {
  import opened Wrappers
  import opened Text
  import opened Clock
  import opened Timelog

  /** The rate recorded for the activity sample that accompanies manually added time. */
  const ManualActivityRate: nat := 50

  /**
   * The overlap test of add and edit: the new start lies in [start, stop),
   * the new stop lies in (start, stop], or the new interval spans the entry.
   */
  predicate Conflicts(e: Interval, s: TimeOfDay, t: TimeOfDay) {
    (s >= e.start && s < e.stop) || (t > e.start && t <= e.stop) || (s <= e.start && t >= e.stop)
  }

  /** Two intervals share a moment when both are read as half-open [start, stop). */
  predicate Overlap(a: Interval, b: Interval) {
    a.start < b.stop && b.start < a.stop
  }

  predicate WellFormed(e: Interval) { e.start < e.stop }

  /** For entries of positive length the three clauses are exactly half-open overlap. */
  lemma ConflictsIsOverlap(e: Interval, n: Interval)
    requires WellFormed(e) && WellFormed(n)
    ensures Conflicts(e, n.start, n.stop) <==> Overlap(e, n)
  {
  }

  /** Back-to-back intervals do not conflict, on either side. */
  lemma BackToBackAccepted(e: Interval, t: TimeOfDay, u: TimeOfDay)
    requires WellFormed(e)
    ensures e.stop < t ==> !Conflicts(e, e.stop, t)
    ensures u < e.start ==> !Conflicts(e, u, e.start)
  {
  }

  /** An interval of zero length inside an entry, or at its start, is still rejected. */
  lemma EmptyIntervalInside(e: Interval, s: TimeOfDay)
    requires e.start <= s < e.stop
    ensures Conflicts(e, s, s)
  {
  }

  /** No two entries of a log share a moment. */
  predicate Disjoint(logs: seq<Interval>) {
    forall i, j :: 0 <= i < |logs| && 0 <= j < |logs| && i != j ==> !Overlap(logs[i], logs[j])
  }

  predicate AllWellFormed(logs: seq<Interval>) {
    forall i :: 0 <= i < |logs| ==> WellFormed(logs[i])
  }

  /** Some entry of some document conflicts with [s, t]. */
  predicate ConflictIn(docs: seq<DayLog>, s: TimeOfDay, t: TimeOfDay) {
    exists d, k :: 0 <= d < |docs| && 0 <= k < |docs[d].logs| && Conflicts(docs[d].logs[k], s, t)
  }

  /** The snapshots of a list of stored documents. */
  function Snapshots(docs: seq<TimerLog>): (r: seq<DayLog>)
    reads set d | d in docs
    ensures |r| == |docs| && forall i :: 0 <= i < |docs| ==> r[i] == docs[i].Snapshot()
  {
    if |docs| == 0 then [] else [docs[0].Snapshot()] + Snapshots(docs[1..])
  }

  /** The nested loop over every document and entry that looks for a conflict. */
  method FindConflict(docs: seq<TimerLog>, s: TimeOfDay, t: TimeOfDay) returns (found: bool)
    ensures found <==> ConflictIn(Snapshots(docs), s, t)
  {
    var d := 0;
    while d < |docs|
      invariant 0 <= d <= |docs|
      invariant forall d', k :: 0 <= d' < d && 0 <= k < |docs[d'].logs| ==> !Conflicts(docs[d'].logs[k], s, t)
    {
      var logs := docs[d].logs;
      var k := 0;
      while k < |logs|
        invariant 0 <= k <= |logs|
        invariant forall k' :: 0 <= k' < k ==> !Conflicts(logs[k'], s, t)
      {
        if Conflicts(logs[k], s, t) {
          assert Snapshots(docs)[d].logs[k] == logs[k];
          return true;
        }
        k := k + 1;
      }
      d := d + 1;
    }
    return false;
  }

  /**
   * Manual time for one day: rejected with no change when [s, t] conflicts
   * with an entry of any manual browser log of the day (whatever its
   * project); otherwise appended, reason included, to the log of the same
   * project or stored as a new one-entry log.  Also returns the activity
   * sample recorded over the same times.
   */
  method AddTime(existing: seq<TimerLog>, target: TimerLog?, date: Day, project: ProjectId,
                 s: TimeOfDay, t: TimeOfDay, reason: Option<string>)
    returns (outcome: Result<(TimerLog, ActivitySample)>)
    requires target != null ==> target in existing
    requires target != null ==> target.date == date && target.project == Some(project)
    requires target != null ==> target.source == "browser" && target.timeType == "manual"
    modifies target
    ensures outcome.Err? <==> ConflictIn(old(Snapshots(existing)), s, t)
    ensures outcome.Err? ==> outcome.error == Conflict && (target != null ==> unchanged(target))
    ensures outcome.Ok? ==> outcome.value.1 == ActivitySample(s, t, ManualActivityRate)
    ensures outcome.Ok? && target != null ==>
              outcome.value.0 == target && target.logs == old(target.logs) + [Interval(s, t, reason)]
    ensures outcome.Ok? && target == null ==>
              fresh(outcome.value.0) && outcome.value.0.logs == [Interval(s, t, reason)]
              && outcome.value.0.date == date && outcome.value.0.project == Some(project)
              && outcome.value.0.source == "browser" && outcome.value.0.timeType == "manual"
  {
    var clash := FindConflict(existing, s, t);
    if clash {
      return Err(Conflict);
    }
    var entry := Interval(s, t, reason);
    var doc: TimerLog;
    if target != null {
      target.logs := target.logs + [entry];
      doc := target;
    } else {
      doc := new TimerLog(date, Some(project), "browser", "manual", [entry]);
    }
    outcome := Ok((doc, ActivitySample(s, t, ManualActivityRate)));
  }

  /** An accepted addition keeps a disjoint log disjoint. */
  lemma AddKeepsDisjoint(logs: seq<Interval>, n: Interval)
    requires Disjoint(logs) && AllWellFormed(logs) && WellFormed(n)
    requires forall k :: 0 <= k < |logs| ==> !Conflicts(logs[k], n.start, n.stop)
    ensures Disjoint(logs + [n]) && AllWellFormed(logs + [n])
  {
    var r := logs + [n];
    forall i, j | 0 <= i < |r| && 0 <= j < |r| && i != j ensures !Overlap(r[i], r[j]) {
      if i == |logs| {
        ConflictsIsOverlap(r[j], n);
      } else if j == |logs| {
        ConflictsIsOverlap(r[i], n);
      } else {
        assert r[i] == logs[i] && r[j] == logs[j];
      }
    }
  }

  /** The manual sample recorded with added time matches that time in the timesheet join. */
  lemma AddedSampleMatches(s: TimeOfDay, t: TimeOfDay, reason: Option<string>)
    requires s <= t
    ensures InclusiveMatch(ActivitySample(s, t, ManualActivityRate), Interval(s, t, reason))
  {
  }

  // ---------------------------------------------------------------------------
  // Edit
  // ---------------------------------------------------------------------------

  /** The first entry with exactly these start and stop times, or `|logs|` when there is none. */
  function FindEntry(logs: seq<Interval>, s: TimeOfDay, t: TimeOfDay): (i: nat)
    ensures i <= |logs|
    ensures i < |logs| ==> logs[i].start == s && logs[i].stop == t
    ensures forall k :: 0 <= k < i ==> !(logs[k].start == s && logs[k].stop == t)
  {
    if |logs| == 0 then 0
    else if logs[0].start == s && logs[0].stop == t then 0
    else 1 + FindEntry(logs[1..], s, t)
  }

  /** Some entry other than the `skip`-th conflicts with [s, t]. */
  predicate ConflictElsewhere(logs: seq<Interval>, skip: nat, s: TimeOfDay, t: TimeOfDay) {
    exists k :: 0 <= k < |logs| && k != skip && Conflicts(logs[k], s, t)
  }

  /**
   * Moves the first entry with times (oldS, oldT) to (newS, newT), keeping
   * its reason: NotFound when there is no log or no such entry; Conflict,
   * with no change, when the new times conflict with another entry.
   */
  method EditTime(doc: TimerLog?, oldS: TimeOfDay, oldT: TimeOfDay, newS: TimeOfDay, newT: TimeOfDay)
    returns (outcome: Result<Interval>)
    modifies doc
    ensures doc == null ==> outcome == Err(NotFound)
    ensures doc != null && FindEntry(old(doc.logs), oldS, oldT) == |old(doc.logs)| ==>
              outcome == Err(NotFound) && unchanged(doc)
    ensures doc != null && FindEntry(old(doc.logs), oldS, oldT) < |old(doc.logs)| ==>
              var i := FindEntry(old(doc.logs), oldS, oldT);
              if ConflictElsewhere(old(doc.logs), i, newS, newT) then
                outcome == Err(Conflict) && unchanged(doc)
              else
                outcome == Ok(Interval(newS, newT, old(doc.logs)[i].reason))
                && doc.logs == old(doc.logs)[i := Interval(newS, newT, old(doc.logs)[i].reason)]
  {
    if doc == null {
      return Err(NotFound);
    }
    var i := FindEntry(doc.logs, oldS, oldT);
    if i == |doc.logs| {
      return Err(NotFound);
    }
    var k := 0;
    while k < |doc.logs|
      invariant 0 <= k <= |doc.logs|
      invariant forall k' :: 0 <= k' < k && k' != i ==> !Conflicts(doc.logs[k'], newS, newT)
    {
      if k != i && Conflicts(doc.logs[k], newS, newT) {
        return Err(Conflict);
      }
      k := k + 1;
    }
    var moved := Interval(newS, newT, doc.logs[i].reason);
    doc.logs := doc.logs[i := moved];
    outcome := Ok(moved);
  }

  /** An accepted edit keeps a disjoint log disjoint. */
  lemma EditKeepsDisjoint(logs: seq<Interval>, i: nat, n: Interval)
    requires i < |logs| && Disjoint(logs) && AllWellFormed(logs) && WellFormed(n)
    requires !ConflictElsewhere(logs, i, n.start, n.stop)
    ensures Disjoint(logs[i := n]) && AllWellFormed(logs[i := n])
  {
    var r := logs[i := n];
    forall a, b | 0 <= a < |r| && 0 <= b < |r| && a != b ensures !Overlap(r[a], r[b]) {
      if a == i {
        ConflictsIsOverlap(r[b], n);
      } else if b == i {
        ConflictsIsOverlap(r[a], n);
      }
    }
  }

  // ---------------------------------------------------------------------------
  // Delete
  // ---------------------------------------------------------------------------

  /** The entries whose stored "HH:MM:SS" start and stop are not both the given texts, in order. */
  function Remove(logs: seq<Interval>, startText: string, stopText: string): (r: seq<Interval>)
    ensures |r| <= |logs|
    ensures forall e :: e in r <==> e in logs && !(FormatTime(e.start) == startText && FormatTime(e.stop) == stopText)
  {
    if |logs| == 0 then []
    else
      var rest := Remove(logs[1..], startText, stopText);
      if FormatTime(logs[0].start) == startText && FormatTime(logs[0].stop) == stopText then rest
      else [logs[0]] + rest
  }

  /** Removal works entry by entry, so it keeps the survivors in their order. */
  lemma {:induction false} RemoveAppend(a: seq<Interval>, b: seq<Interval>, startText: string, stopText: string)
    ensures Remove(a + b, startText, stopText) == Remove(a, startText, stopText) + Remove(b, startText, stopText)
  {
    if |a| > 0 {
      assert (a + b)[1..] == a[1..] + b;
      RemoveAppend(a[1..], b, startText, stopText);
    } else {
      assert a + b == b;
    }
  }

  /** Removing times that no entry has changes nothing. */
  lemma {:induction false} RemoveAbsent(logs: seq<Interval>, startText: string, stopText: string)
    requires forall e :: e in logs ==> !(FormatTime(e.start) == startText && FormatTime(e.stop) == stopText)
    ensures Remove(logs, startText, stopText) == logs
  {
    if |logs| > 0 {
      assert logs[0] in logs;
      assert forall e :: e in logs[1..] ==> e in logs;
      RemoveAbsent(logs[1..], startText, stopText);
    }
  }

  /** Removing by rendered times removes exactly the entries with those times in seconds. */
  lemma RemoveBySeconds(logs: seq<Interval>, s: TimeOfDay, t: TimeOfDay)
    ensures forall e :: e in Remove(logs, FormatTime(s), FormatTime(t)) <==> e in logs && !(e.start == s && e.stop == t)
  {
    forall e | e in logs ensures FormatTime(e.start) == FormatTime(s) && FormatTime(e.stop) == FormatTime(t) <==> e.start == s && e.stop == t {
      FormatTimeInjective(e.start, s);
      FormatTimeInjective(e.stop, t);
    }
  }

  /**
   * Deletes every entry whose start and stop equal the given 12-hour times
   * after conversion to 24-hour text.  A time without a space separating
   * the period makes the conversion throw before the handler's try block,
   * so no response is sent at all (Unanswered); no log is NotFound.
   */
  method DeleteEntry(doc: TimerLog?, startText: string, stopText: string) returns (outcome: Result<()>)
    modifies doc
    ensures To24Hour(startText).None? || To24Hour(stopText).None? ==> outcome == Err(Unanswered) && (doc != null ==> unchanged(doc))
    ensures To24Hour(startText).Some? && To24Hour(stopText).Some? && doc == null ==> outcome == Err(NotFound)
    ensures To24Hour(startText).Some? && To24Hour(stopText).Some? && doc != null ==>
              outcome == Ok(()) && doc.logs == Remove(old(doc.logs), To24Hour(startText).value, To24Hour(stopText).value)
  {
    var start24 := To24Hour(startText);
    var stop24 := To24Hour(stopText);
    if start24.None? || stop24.None? {
      return Err(Unanswered);
    }
    if doc == null {
      return Err(NotFound);
    }
    doc.logs := Remove(doc.logs, start24.value, stop24.value);
    outcome := Ok(());
  }

  /** The first entry of a disjoint log overlaps none of the others, and the others are disjoint. */
  lemma DisjointUncons(logs: seq<Interval>)
    requires |logs| > 0 && Disjoint(logs)
    ensures Disjoint(logs[1..])
    ensures forall y :: y in logs[1..] ==> !Overlap(logs[0], y) && !Overlap(y, logs[0])
  {
    var rest := logs[1..];
    forall i, j | 0 <= i < |rest| && 0 <= j < |rest| && i != j ensures !Overlap(rest[i], rest[j]) {
      assert rest[i] == logs[i + 1] && rest[j] == logs[j + 1];
    }
    forall y | y in rest ensures !Overlap(logs[0], y) && !Overlap(y, logs[0]) {
      var k :| 0 <= k < |rest| && rest[k] == y;
      assert logs[k + 1] == y;
    }
  }

  /** An entry that overlaps none of a disjoint log can be put in front of it. */
  lemma DisjointCons(x: Interval, tail: seq<Interval>)
    requires Disjoint(tail)
    requires forall y :: y in tail ==> !Overlap(x, y) && !Overlap(y, x)
    ensures Disjoint([x] + tail)
  {
    var r := [x] + tail;
    forall i, j | 0 <= i < |r| && 0 <= j < |r| && i != j ensures !Overlap(r[i], r[j]) {
      if i == 0 {
        assert r[j] == tail[j - 1] && r[j] in tail;
      } else if j == 0 {
        assert r[i] == tail[i - 1] && r[i] in tail;
      } else {
        assert r[i] == tail[i - 1] && r[j] == tail[j - 1];
      }
    }
  }

  /** Removal keeps a disjoint log disjoint. */
  lemma {:induction false} RemoveKeepsDisjoint(logs: seq<Interval>, startText: string, stopText: string)
    requires Disjoint(logs)
    ensures Disjoint(Remove(logs, startText, stopText))
  {
    if |logs| > 0 {
      DisjointUncons(logs);
      RemoveKeepsDisjoint(logs[1..], startText, stopText);
      var tail := Remove(logs[1..], startText, stopText);
      if Remove(logs, startText, stopText) != tail {
        DisjointCons(logs[0], tail);
      }
    }
  }

  /**
   * An entry added with times s and t is deleted again by the 12-hour labels
   * that the daily view shows for it, and nothing else is touched when the
   * log held no other entry with those times.
   */
  lemma DeleteUndoesAdd(logs: seq<Interval>, s: TimeOfDay, t: TimeOfDay, reason: Option<string>)
    requires forall e :: e in logs ==> !(e.start == s && e.stop == t)
    ensures To24Hour(Format12(s)) == Some(FormatTime(s)) && To24Hour(Format12(t)) == Some(FormatTime(t))
    ensures Remove(logs + [Interval(s, t, reason)], FormatTime(s), FormatTime(t)) == logs
  {
    To24HourOfFormat12(s);
    To24HourOfFormat12(t);
    RemoveAppend(logs, [Interval(s, t, reason)], FormatTime(s), FormatTime(t));
    RemoveBySeconds(logs, s, t);
    forall e | e in logs ensures !(FormatTime(e.start) == FormatTime(s) && FormatTime(e.stop) == FormatTime(t)) {
      FormatTimeInjective(e.start, s);
      FormatTimeInjective(e.stop, t);
    }
    RemoveAbsent(logs, FormatTime(s), FormatTime(t));
    assert Remove([Interval(s, t, reason)], FormatTime(s), FormatTime(t)) == [];
  }
}
