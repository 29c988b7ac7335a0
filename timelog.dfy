/**
 * Timer-log records and the activity join shared by the timesheet views.
 *
 * A stored timer log is one document per (user, date, project): a list of
 * intervals whose start and stop are canonical "HH:MM:SS" strings.  `Clock`
 * proves that those strings are in order-preserving bijection with seconds
 * since midnight, so an interval is kept here as two `TimeOfDay` values.
 * A calendar date is a day number; day 0 is a Monday.
 */
module Timelog {
  import opened Wrappers
  import opened Clock

  /** A calendar date as a day number; day 0 is a Monday. */
  type Day = int

  /** A reference to a project document. */
  type ProjectId = nat

  /** One entry of a timer log: start, stop and the optional reason given for manual time. */
  datatype Interval = Interval(start: TimeOfDay, stop: TimeOfDay, reason: Option<string>)

  /** A value snapshot of a stored timer-log document, as the read-only views receive it. */
  datatype DayLog = DayLog(date: Day, project: Option<ProjectId>, source: string, timeType: string, logs: seq<Interval>)

  /** One activity-tracker sample: a time window and its activity rate in percent. */
  datatype ActivitySample = ActivitySample(start: TimeOfDay, end: TimeOfDay, rate: nat)

  /** A stored timer-log document; the handlers change its `logs` in place and then save it. */
  class TimerLog {
    const date: Day
    const project: Option<ProjectId>
    const source: string
    const timeType: string
    var logs: seq<Interval>

    constructor (date: Day, project: Option<ProjectId>, source: string, timeType: string, logs: seq<Interval>)
      ensures this.date == date && this.project == project
      ensures this.source == source && this.timeType == timeType
      ensures this.logs == logs
    {
      this.date := date;
      this.project := project;
      this.source := source;
      this.timeType := timeType;
      this.logs := logs;
    }

    /** The document as the views read it. */
    function Snapshot(): DayLog
      reads this
    {
      DayLog(date, project, source, timeType, logs)
    }
  }

  /** The populated project name of a log; None when the log has no project or the project does not exist. */
  function ProjectOf(log: DayLog, names: map<ProjectId, string>): Option<string> {
    if log.project.Some? && log.project.value in names then Some(names[log.project.value]) else None
  }

  // ---------------------------------------------------------------------------
  // ISO 8601 weeks (Monday to Sunday, ISO 8601:2004 section 4.1.4)
  // ---------------------------------------------------------------------------

  /** The ISO weekday of a date: 1 is Monday and 7 is Sunday. */
  function IsoWeekday(d: Day): (w: int)
    ensures 1 <= w <= 7
  {
    d % 7 + 1
  }

  predicate IsMonday(d: Day) { IsoWeekday(d) == 1 }

  /** The Monday that opens the ISO week containing `d`. */
  function StartOfIsoWeek(d: Day): (m: Day)
    ensures IsMonday(m) && m <= d < m + 7
  {
    d - d % 7
  }

  /** The Monday of a week is the only Monday in the seven days ending at `d`. */
  lemma StartOfIsoWeekUnique(d: Day, m: Day)
    requires IsMonday(m) && m <= d < m + 7
    ensures m == StartOfIsoWeek(d)
  {
    assert m % 7 == 0;
    assert (d - m) % 7 == d - m;
  }

  /** Consecutive days of one ISO week carry consecutive weekdays. */
  lemma WeekdayOfOffset(d: Day, i: int)
    requires 0 <= i < 7
    ensures IsoWeekday(StartOfIsoWeek(d) + i) == i + 1
  {
    var m := StartOfIsoWeek(d);
    assert m % 7 == 0;
    assert (m + i) % 7 == i;
  }

  // ---------------------------------------------------------------------------
  // Activity join and mean rate
  // ---------------------------------------------------------------------------

  /**
   * The matched rates of one interval: their sum and how many there are.
   * JavaScript divides and rounds to two decimals; the model keeps the exact
   * fraction and compares against a threshold without rounding.
   */
  datatype Mean = Mean(total: nat, count: nat) {
    /** The average, or 0 when nothing matched. */
    function Value(): real {
      if count == 0 then 0.0 else total as real / count as real
    }

    /** The average is strictly below `t` percent. */
    predicate Below(t: nat) {
      if count == 0 then 0 < t else total < t * count
    }
  }

  /** The integer threshold test is the comparison of the exact average with the threshold. */
  lemma BelowIsValueLess(m: Mean, t: nat)
    ensures m.Below(t) <==> m.Value() < t as real
  {
    if m.count > 0 {
      var c := m.count as real;
      assert m.Value() * c == m.total as real;
      if m.total < t * m.count {
        assert m.total as real < (t as real) * c;
      } else {
        assert m.total as real >= (t as real) * c;
      }
    }
  }

  /** An activity filter: 0 stands for "no threshold given", which lets everything through. */
  predicate Passes(m: Mean, threshold: nat) {
    threshold == 0 || !m.Below(threshold)
  }

  /** Samples of `samples`, in order, that satisfy `p`. */
  function Select(samples: seq<ActivitySample>, p: ActivitySample -> bool): (r: seq<ActivitySample>)
    ensures |r| <= |samples|
    ensures forall a :: a in r <==> a in samples && p(a)
  {
    if |samples| == 0 then []
    else if p(samples[0]) then [samples[0]] + Select(samples[1..], p)
    else Select(samples[1..], p)
  }

  /** `filter` keeps each accepted sample as often as it occurs and drops every other one. */
  lemma {:induction false} SelectCounts(samples: seq<ActivitySample>, p: ActivitySample -> bool)
    ensures forall a :: multiset(Select(samples, p))[a] == if p(a) then multiset(samples)[a] else 0
  {
    if |samples| > 0 {
      SelectCounts(samples[1..], p);
      assert samples == [samples[0]] + samples[1..];
    }
  }

  /** `filter` works sample by sample: selecting from a concatenation selects from each part, in order. */
  lemma {:induction false} SelectAppend(a: seq<ActivitySample>, b: seq<ActivitySample>, p: ActivitySample -> bool)
    ensures Select(a + b, p) == Select(a, p) + Select(b, p)
  {
    if |a| > 0 {
      assert (a + b)[1..] == a[1..] + b;
      SelectAppend(a[1..], b, p);
    } else {
      assert a + b == b;
    }
  }

  /** The sum and count of the rates of `samples`. */
  function MeanOf(samples: seq<ActivitySample>): (m: Mean)
    ensures m.count == |samples|
  {
    if |samples| == 0 then Mean(0, 0)
    else
      var rest := MeanOf(samples[1..]);
      Mean(samples[0].rate + rest.total, rest.count + 1)
  }

  /** A sample overlaps an entry when the two closed windows share a point. */
  predicate InclusiveMatch(a: ActivitySample, e: Interval) {
    a.start <= e.stop && a.end >= e.start
  }

  /** The mean rate of the samples that overlap `e` in the closed sense. */
  function InclusiveMean(samples: seq<ActivitySample>, e: Interval): Mean {
    MeanOf(Select(samples, a => InclusiveMatch(a, e)))
  }

  /** The mean counts exactly the overlapping samples, and is 0 when none overlaps. */
  lemma InclusiveMeanCount(samples: seq<ActivitySample>, e: Interval)
    ensures InclusiveMean(samples, e).count <= |samples|
    ensures InclusiveMean(samples, e).count == 0 <==> forall a :: a in samples ==> !InclusiveMatch(a, e)
  {
    var sel := Select(samples, a => InclusiveMatch(a, e));
    if |sel| > 0 {
      assert sel[0] in sel;
    }
  }

  /** Rates are percentages, so the average never exceeds 100. */
  lemma InclusiveMeanAtMost100(samples: seq<ActivitySample>, e: Interval)
    requires forall a :: a in samples ==> a.rate <= 100
    ensures InclusiveMean(samples, e).Value() <= 100.0
  {
    var sel := Select(samples, a => InclusiveMatch(a, e));
    assert forall a :: a in sel ==> a.rate <= 100;
    MeanOfBound(sel);
    MeanAtMost100(MeanOf(sel));
  }

  /** Rates of at most 100 sum to at most 100 per sample. */
  lemma {:induction false} MeanOfBound(samples: seq<ActivitySample>)
    requires forall a :: a in samples ==> a.rate <= 100
    ensures MeanOf(samples).total <= 100 * MeanOf(samples).count
  {
    if |samples| > 0 {
      assert samples[0] in samples;
      MeanOfBound(samples[1..]);
    }
  }

  lemma MeanAtMost100(m: Mean)
    requires m.total <= 100 * m.count
    ensures m.Value() <= 100.0
  {
    if m.count > 0 {
      assert m.total as real <= 100.0 * m.count as real;
    }
  }

  /** Entries of `logs`, in order, whose mean rate passes the threshold. */
  function PassingEntries(logs: seq<Interval>, samples: seq<ActivitySample>, threshold: nat): (r: seq<Interval>)
    ensures |r| <= |logs|
    ensures forall e :: e in r <==> e in logs && Passes(InclusiveMean(samples, e), threshold)
    ensures threshold == 0 ==> r == logs
  {
    if |logs| == 0 then []
    else
      var rest := PassingEntries(logs[1..], samples, threshold);
      if Passes(InclusiveMean(samples, logs[0]), threshold) then [logs[0]] + rest else rest
  }

  /** The signed length of an entry in seconds; a stop before the start gives a negative length. */
  function Duration(e: Interval): int {
    e.stop - e.start
  }

  /** The sum of the durations of `logs`. */
  function SumDurations(logs: seq<Interval>): int {
    if |logs| == 0 then 0 else Duration(logs[0]) + SumDurations(logs[1..])
  }

  /** Summing durations distributes over concatenation. */
  lemma {:induction false} SumDurationsAppend(a: seq<Interval>, b: seq<Interval>)
    ensures SumDurations(a + b) == SumDurations(a) + SumDurations(b)
  {
    if |a| > 0 {
      assert (a + b)[1..] == a[1..] + b;
      SumDurationsAppend(a[1..], b);
    } else {
      assert a + b == b;
    }
  }

  /** Well-formed entries have nonnegative durations, and so has their sum. */
  lemma {:induction false} SumDurationsNonnegative(logs: seq<Interval>)
    requires forall e :: e in logs ==> e.start <= e.stop
    ensures SumDurations(logs) >= 0
  {
    if |logs| > 0 {
      assert logs[0] in logs;
      SumDurationsNonnegative(logs[1..]);
    }
  }

  /** How many entries the logs of date `d` hold. */
  function EntryCountOn(logs: seq<DayLog>, d: Day): nat {
    if |logs| == 0 then 0
    else (if logs[0].date == d then |logs[0].logs| else 0) + EntryCountOn(logs[1..], d)
  }

  /** One more log adds its entries to the count of its own date only. */
  lemma {:induction false} EntryCountOnSnoc(logs: seq<DayLog>, log: DayLog, d: Day)
    ensures EntryCountOn(logs + [log], d) == EntryCountOn(logs, d) + (if log.date == d then |log.logs| else 0)
  {
    if |logs| > 0 {
      assert (logs + [log])[1..] == logs[1..] + [log];
      EntryCountOnSnoc(logs[1..], log, d);
    } else {
      assert (logs + [log])[1..] == [];
    }
  }
}
