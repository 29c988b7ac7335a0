/**
 * The daily timesheet and the total worked time of a day.  The stored logs,
 * the activity samples and the project names are inputs; an activity
 * threshold of 0 stands for "not given".
 */
module Timesheet {
  import opened Wrappers
  import opened Text
  import opened Clock
  import opened Timelog

  /** One column of a daily row: a fixed text, or the mean rate shown as a percentage. */
  datatype Cell = Fixed(text: string) | AveragePercent(mean: Mean)

  /** One row of the daily view, for one timer-log entry. */
  datatype DailyEntry = DailyEntry(projectName: string, activity: Cell, idle: Cell, manual: Cell,
                                   start: string, end: string, duration: string)

  /** The rows of one date. */
  datatype DateGroup = DateGroup(date: Day, entries: seq<DailyEntry>)

  /** The project name a daily row shows: the stored name, or "Unknown" when there is no project, no such project or an empty name. */
  function ProjectName(project: Option<ProjectId>, names: map<ProjectId, string>): (n: string)
    ensures n != ""
    ensures n == "Unknown" || (project.Some? && project.value in names && n == names[project.value])
    ensures project.Some? && project.value in names && names[project.value] != "" ==> n == names[project.value]
  {
    if project.Some? && project.value in names && names[project.value] != "" then names[project.value]
    else "Unknown"
  }

  /** The duration column: stop minus start as `H:mm:ss`. */
  function DurationText(e: Interval): string {
    FormatDuration(Duration(e))
  }

  /** The row of entry `e` of `log`, whose matched samples have mean `m`. */
  function EntryFor(log: DayLog, e: Interval, m: Mean, names: map<ProjectId, string>): DailyEntry {
    var base := DailyEntry(ProjectName(log.project, names), Fixed("0%"), Fixed("0%"), Fixed("0%"),
                           Format12(e.start), Format12(e.stop), DurationText(e));
    if log.timeType == "manual" then base.(activity := AveragePercent(m), manual := Fixed("100%"))
    else if log.timeType == "idle" then base.(idle := Fixed(DurationText(e)))
    else base.(activity := AveragePercent(m))
  }

  /**
   * The columns of a row by time type: manual time shows the mean and 100%
   * manual; idle time shows its duration as idle and 0% activity; anything
   * else shows the mean; every column not named stays at "0%".
   */
  lemma EntryColumns(log: DayLog, e: Interval, m: Mean, names: map<ProjectId, string>)
    ensures var r := EntryFor(log, e, m, names);
      && (r.manual == Fixed("100%") <==> log.timeType == "manual")
      && (r.manual != Fixed("100%") ==> r.manual == Fixed("0%"))
      && (r.idle != Fixed("0%") <==> log.timeType == "idle" && DurationText(e) != "0%")
      && (r.activity == AveragePercent(m) <==> log.timeType != "idle")
      && (log.timeType == "idle" ==> r.activity == Fixed("0%") && r.idle == Fixed(DurationText(e)))
      && r.duration == DurationText(e)
  {
  }

  /** The start and end labels of a row read back, through the 24-hour conversion, as the stored times. */
  lemma EntryLabelsReadBack(log: DayLog, e: Interval, m: Mean, names: map<ProjectId, string>)
    ensures To24Hour(EntryFor(log, e, m, names).start) == Some(FormatTime(e.start))
    ensures To24Hour(EntryFor(log, e, m, names).end) == Some(FormatTime(e.stop))
  {
    To24HourOfFormat12(e.start);
    To24HourOfFormat12(e.stop);
  }

  /** The rows of the given entries of `log`, in order. */
  function EntryRows(log: DayLog, es: seq<Interval>, samples: seq<ActivitySample>, names: map<ProjectId, string>)
    : (r: seq<DailyEntry>)
    ensures |r| == |es|
    ensures forall i :: 0 <= i < |es| ==> r[i] == EntryFor(log, es[i], InclusiveMean(samples, es[i]), names)
  {
    if |es| == 0 then []
    else [EntryFor(log, es[0], InclusiveMean(samples, es[0]), names)] + EntryRows(log, es[1..], samples, names)
  }

  /** The rows one timer log contributes: one per entry whose mean rate passes the threshold. */
  function LogRows(log: DayLog, samples: seq<ActivitySample>, names: map<ProjectId, string>, threshold: nat)
    : seq<DailyEntry>
  {
    EntryRows(log, PassingEntries(log.logs, samples, threshold), samples, names)
  }

  /** The rows of date `d`: the logs of that date in order, each contributing its rows. */
  function EntriesOn(logs: seq<DayLog>, d: Day, samples: seq<ActivitySample>, names: map<ProjectId, string>,
                     threshold: nat): seq<DailyEntry>
  {
    if |logs| == 0 then []
    else
      (if logs[0].date == d then LogRows(logs[0], samples, names, threshold) else [])
      + EntriesOn(logs[1..], d, samples, names, threshold)
  }

  /** Some log of date `d` has an entry passing the threshold. */
  predicate HasPassingLog(logs: seq<DayLog>, d: Day, samples: seq<ActivitySample>, threshold: nat) {
    exists k :: 0 <= k < |logs| && logs[k].date == d && PassingEntries(logs[k].logs, samples, threshold) != []
  }

  /** Some group is for date `d`. */
  predicate HasDate(gs: seq<DateGroup>, d: Day) {
    exists g :: g in gs && g.date == d
  }

  /** A date has rows only when some log of that date has an entry passing the threshold. */
  lemma {:induction false} EntriesOnNonEmpty(logs: seq<DayLog>, d: Day, samples: seq<ActivitySample>,
                                             names: map<ProjectId, string>, threshold: nat)
    ensures EntriesOn(logs, d, samples, names, threshold) != [] <==> HasPassingLog(logs, d, samples, threshold)
  {
    if |logs| > 0 {
      EntriesOnNonEmpty(logs[1..], d, samples, names, threshold);
      if exists k :: 0 <= k < |logs[1..]| && logs[1..][k].date == d && PassingEntries(logs[1..][k].logs, samples, threshold) != [] {
        var k :| 0 <= k < |logs[1..]| && logs[1..][k].date == d && PassingEntries(logs[1..][k].logs, samples, threshold) != [];
        assert logs[k + 1] == logs[1..][k];
      }
      if exists k :: 0 <= k < |logs| && logs[k].date == d && PassingEntries(logs[k].logs, samples, threshold) != [] {
        var k :| 0 <= k < |logs| && logs[k].date == d && PassingEntries(logs[k].logs, samples, threshold) != [];
        if k > 0 {
          assert logs[1..][k - 1] == logs[k];
        }
      }
    }
  }

  /** With no threshold every entry of every log of the date becomes a row. */
  lemma {:induction false} EntriesOnCount(logs: seq<DayLog>, d: Day, samples: seq<ActivitySample>, names: map<ProjectId, string>)
    ensures |EntriesOn(logs, d, samples, names, 0)| == EntryCountOn(logs, d)
  {
    if |logs| > 0 {
      EntriesOnCount(logs[1..], d, samples, names);
    }
  }

  /** The index of the first log of date `d`, or `|logs|` when there is none. */
  function FirstLogOf(logs: seq<DayLog>, d: Day): (r: nat)
    ensures r <= |logs|
    ensures r < |logs| ==> logs[r].date == d
    ensures forall k :: 0 <= k < r ==> logs[k].date != d
  {
    if |logs| == 0 then 0
    else if logs[0].date == d then 0
    else 1 + FirstLogOf(logs[1..], d)
  }

  /** A date met within the first `n` logs is first met at the same index in all of them. */
  lemma FirstLogOfPrefix(logs: seq<DayLog>, n: nat, d: Day)
    requires n <= |logs|
    ensures FirstLogOf(logs[..n], d) < n ==> FirstLogOf(logs, d) == FirstLogOf(logs[..n], d)
    ensures FirstLogOf(logs[..n], d) == n ==> FirstLogOf(logs, d) >= n
  {
    var a := FirstLogOf(logs[..n], d);
    if a < n {
      assert logs[a] == logs[..n][a];
    }
    assert forall k :: 0 <= k < n ==> logs[..n][k] == logs[k];
  }

  /**
   * The dates of the logs, each once, in the order of first appearance: the
   * grouping object is keyed by the stored 'YYYY-MM-DD' strings, which are
   * never array indices, so its keys keep their insertion order.
   */
  function DatesOf(logs: seq<DayLog>): (ds: seq<Day>)
    ensures forall d :: d in ds <==> exists k :: 0 <= k < |logs| && logs[k].date == d
    ensures forall i, j :: 0 <= i < j < |ds| ==> ds[i] != ds[j]
  {
    if |logs| == 0 then []
    else
      var p := logs[..|logs| - 1];
      var prior := DatesOf(p);
      var d := logs[|logs| - 1].date;
      assert forall k :: 0 <= k < |p| ==> p[k] == logs[k];
      if d in prior then prior else prior + [d]
  }

  /** A date already logged before the last log keeps its first log. */
  lemma FirstLogsKept(logs: seq<DayLog>)
    requires |logs| > 0
    ensures var p := logs[..|logs| - 1];
            forall x :: x in DatesOf(p) ==> FirstLogOf(logs, x) == FirstLogOf(p, x) < |p|
  {
    var p := logs[..|logs| - 1];
    forall x | x in DatesOf(p) ensures FirstLogOf(logs, x) == FirstLogOf(p, x) < |p| {
      var k :| 0 <= k < |p| && p[k].date == x;
      FirstLogOfPrefix(logs, |p|, x);
    }
  }

  /** The dates come out in the order of their first logs. */
  lemma {:induction false} DatesOfOrdered(logs: seq<DayLog>)
    ensures DaysInLogOrder(DatesOf(logs), logs)
  {
    if |logs| > 0 {
      var p := logs[..|logs| - 1];
      var prior, ds := DatesOf(p), DatesOf(logs);
      var d := logs[|logs| - 1].date;
      DatesOfOrdered(p);
      FirstLogsKept(logs);
      if d !in prior {
        FirstLogOfPrefix(logs, |p|, d);
        assert ds == prior + [d];
        forall i, j | 0 <= i < j < |ds| ensures FirstLogOf(logs, ds[i]) < FirstLogOf(logs, ds[j]) {
          assert ds[i] == prior[i] && ds[i] in prior;
          if j < |prior| {
            assert ds[j] == prior[j] && ds[j] in prior;
          }
        }
      } else {
        assert ds == prior;
        forall i, j | 0 <= i < j < |ds| ensures FirstLogOf(logs, ds[i]) < FirstLogOf(logs, ds[j]) {
          assert ds[i] in prior && ds[j] in prior;
        }
      }
    }
  }

  /** The groups of `ds` that have at least one row. */
  function NonEmptyGroups(ds: seq<Day>, logs: seq<DayLog>, samples: seq<ActivitySample>,
                          names: map<ProjectId, string>, threshold: nat): (gs: seq<DateGroup>)
    ensures forall g :: g in gs ==> g.date in ds && g.entries != [] && g.entries == EntriesOn(logs, g.date, samples, names, threshold)
    ensures forall d :: d in ds && EntriesOn(logs, d, samples, names, threshold) != [] ==> HasDate(gs, d)
    ensures (forall i, j :: 0 <= i < j < |ds| ==> ds[i] != ds[j]) ==> forall i, j :: 0 <= i < j < |gs| ==> gs[i].date != gs[j].date
  {
    if |ds| == 0 then []
    else
      var g := DateGroup(ds[0], EntriesOn(logs, ds[0], samples, names, threshold));
      var rest := NonEmptyGroups(ds[1..], logs, samples, names, threshold);
      if g.entries != [] then [g] + rest else rest
  }

  /** The days `ds` come in the order of their first logs. */
  predicate DaysInLogOrder(ds: seq<Day>, logs: seq<DayLog>) {
    forall i, j :: 0 <= i < j < |ds| ==> FirstLogOf(logs, ds[i]) < FirstLogOf(logs, ds[j])
  }

  /** The groups `gs` come in the order of their dates' first logs. */
  predicate GroupsInLogOrder(gs: seq<DateGroup>, logs: seq<DayLog>) {
    forall i, j :: 0 <= i < j < |gs| ==> FirstLogOf(logs, gs[i].date) < FirstLogOf(logs, gs[j].date)
  }

  /** A group for the first day put in front of ordered groups for later days keeps the order. */
  lemma GroupsInLogOrderCons(g: DateGroup, rest: seq<DateGroup>, ds: seq<Day>, logs: seq<DayLog>)
    requires |ds| > 0 && g.date == ds[0] && DaysInLogOrder(ds, logs)
    requires forall h :: h in rest ==> h.date in ds[1..]
    requires GroupsInLogOrder(rest, logs)
    ensures GroupsInLogOrder([g] + rest, logs)
  {
    var gs := [g] + rest;
    forall i, j | 0 <= i < j < |gs| ensures FirstLogOf(logs, gs[i].date) < FirstLogOf(logs, gs[j].date) {
      var h := rest[j - 1];
      assert gs[j] == h && h in rest;
      var b :| 0 <= b < |ds[1..]| && ds[1..][b] == h.date;
      assert ds[b + 1] == h.date;
      if i > 0 {
        assert gs[i] == rest[i - 1];
      }
    }
  }

  /** Dropping the dates without rows keeps the others in the order of their first logs. */
  lemma {:induction false} NonEmptyGroupsOrdered(ds: seq<Day>, logs: seq<DayLog>, samples: seq<ActivitySample>,
                                                 names: map<ProjectId, string>, threshold: nat)
    requires DaysInLogOrder(ds, logs)
    ensures GroupsInLogOrder(NonEmptyGroups(ds, logs, samples, names, threshold), logs)
  {
    if |ds| > 0 {
      var rest := NonEmptyGroups(ds[1..], logs, samples, names, threshold);
      NonEmptyGroupsOrdered(ds[1..], logs, samples, names, threshold);
      var g := DateGroup(ds[0], EntriesOn(logs, ds[0], samples, names, threshold));
      if g.entries != [] {
        GroupsInLogOrderCons(g, rest, ds, logs);
      }
    }
  }

  /**
   * The daily view: Invalid without both ends of the date range, NotFound
   * when no log was found; otherwise one group per date that has rows.
   */
  function DailyView(startDate: Option<Day>, endDate: Option<Day>, logs: seq<DayLog>, samples: seq<ActivitySample>,
                     names: map<ProjectId, string>, threshold: nat)
    : Result<seq<DateGroup>>
  {
    if startDate.None? || endDate.None? then Err(Invalid)
    else if |logs| == 0 then Err(NotFound)
    else Ok(NonEmptyGroups(DatesOf(logs), logs, samples, names, threshold))
  }

  /**
   * Without a start or an end date the view is Invalid; with both it is
   * NotFound exactly when no log was found.  Otherwise it holds each date
   * once, in the order of the date's first log; a date is present exactly
   * when one of its logs has an entry passing the threshold, and then with
   * all of that date's rows; no group is empty.
   */
  lemma DailyViewCharacterized(startDate: Option<Day>, endDate: Option<Day>, logs: seq<DayLog>, samples: seq<ActivitySample>,
                               names: map<ProjectId, string>, threshold: nat)
    ensures var r := DailyView(startDate, endDate, logs, samples, names, threshold);
            r.Err? <==> startDate.None? || endDate.None? || |logs| == 0
    ensures var r := DailyView(startDate, endDate, logs, samples, names, threshold);
            r.Err? ==> r.error == if startDate.None? || endDate.None? then Invalid else NotFound
    ensures var r := DailyView(startDate, endDate, logs, samples, names, threshold);
            r.Ok? ==>
              var gs := r.value;
              && (forall g :: g in gs ==> g.entries != [] && g.entries == EntriesOn(logs, g.date, samples, names, threshold))
              && (forall i, j :: 0 <= i < j < |gs| ==> gs[i].date != gs[j].date)
              && GroupsInLogOrder(gs, logs)
              && (forall d :: HasDate(gs, d) <==> HasPassingLog(logs, d, samples, threshold))
  {
    if startDate.Some? && endDate.Some? && |logs| > 0 {
      var gs := NonEmptyGroups(DatesOf(logs), logs, samples, names, threshold);
      DatesOfOrdered(logs);
      NonEmptyGroupsOrdered(DatesOf(logs), logs, samples, names, threshold);
      forall d ensures HasDate(gs, d) <==> HasPassingLog(logs, d, samples, threshold) {
        EntriesOnNonEmpty(logs, d, samples, names, threshold);
        if HasPassingLog(logs, d, samples, threshold) {
          var k :| 0 <= k < |logs| && logs[k].date == d && PassingEntries(logs[k].logs, samples, threshold) != [];
          assert d in DatesOf(logs);
        }
      }
    }
  }

  // ---------------------------------------------------------------------------
  // Total worked time
  // ---------------------------------------------------------------------------

  /** The sum of the durations of every entry of every log. */
  function TotalSeconds(logs: seq<DayLog>): int {
    if |logs| == 0 then 0 else SumDurations(logs[0].logs) + TotalSeconds(logs[1..])
  }

  /** Total worked time of a day as `H:mm:ss`; Invalid without a date, NotFound when no log was found. */
  function TotalWorked(date: Option<Day>, logs: seq<DayLog>): Result<string> {
    if date.None? then Err(Invalid)
    else if |logs| == 0 then Err(NotFound)
    else Ok(FormatDuration(TotalSeconds(logs)))
  }

  /** The total is additive over the logs. */
  lemma {:induction false} TotalSecondsAppend(a: seq<DayLog>, b: seq<DayLog>)
    ensures TotalSeconds(a + b) == TotalSeconds(a) + TotalSeconds(b)
  {
    if |a| > 0 {
      assert (a + b)[1..] == a[1..] + b;
      TotalSecondsAppend(a[1..], b);
    } else {
      assert a + b == b;
    }
  }

  /** With well-formed entries the total is not negative. */
  lemma {:induction false} TotalSecondsNonnegative(logs: seq<DayLog>)
    requires forall k, e :: 0 <= k < |logs| && e in logs[k].logs ==> e.start <= e.stop
    ensures TotalSeconds(logs) >= 0
  {
    if |logs| > 0 {
      SumDurationsNonnegative(logs[0].logs);
      TotalSecondsNonnegative(logs[1..]);
    }
  }

  /**
   * Without a date the total is Invalid, with no log NotFound; otherwise the
   * rendered total reads back, through `timeStringToSeconds`, as the sum of
   * the durations.
   */
  lemma TotalWorkedReadsBack(date: Option<Day>, logs: seq<DayLog>)
    requires forall k, e :: 0 <= k < |logs| && e in logs[k].logs ==> e.start <= e.stop
    ensures TotalWorked(date, logs).Err? <==> date.None? || |logs| == 0
    ensures TotalWorked(date, logs).Err? ==> TotalWorked(date, logs).error == if date.None? then Invalid else NotFound
    ensures TotalWorked(date, logs).Ok? ==> TimeStringToSeconds(TotalWorked(date, logs).value) == Some(TotalSeconds(logs))
  {
    TotalSecondsNonnegative(logs);
    DurationReadsBack(TotalSeconds(logs));
  }

  /** Half an hour in one log and a quarter of an hour in another make 0:45:00. */
  lemma TotalWorkedExample()
    ensures TotalWorked(Some(0), [DayLog(0, None, "browser", "manual", [Interval(32400, 34200, None)]),
                         DayLog(0, Some(1), "desktop", "auto", [Interval(36000, 36900, None)])])
            == Ok("0:45:00")
  {
    var a := DayLog(0, None, "browser", "manual", [Interval(32400, 34200, None)]);
    var b := DayLog(0, Some(1), "desktop", "auto", [Interval(36000, 36900, None)]);
    assert TotalSeconds([a, b]) == 2700 by {
      assert [a, b][1..] == [b] && [b][1..] == [];
      assert a.logs[1..] == [] && b.logs[1..] == [];
      assert SumDurations(a.logs) == 1800;
      assert SumDurations(b.logs) == 900;
      assert TotalSeconds([b]) == 900;
    }
    assert 2700 / 3600 == 0 && 2700 / 60 % 60 == 45 && 2700 % 60 == 0;
    assert NatToString(0) == "0";
    assert NatToString(45) == "45" by { assert NatToString(4) == "4"; }
    assert PadStart2(0) == "00";
    assert FormatDuration(2700) == "0" + ":" + "45" + ":" + "00";
    assert "0" + ":" + "45" + ":" + "00" == "0:45:00";
  }
}
