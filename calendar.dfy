/**
 * The calendar view: the seven days of the ISO week around a date, each
 * with the tasks (entries that pass the activity threshold) logged on it,
 * in the order the logs and their entries are read.
 */
module Calendar {
  import opened Wrappers
  import opened Clock
  import opened Timelog

  /** One task on the calendar: start and end as "HH:mm", and the project name. */
  datatype Task = Task(startTime: string, endTime: string, project: string)

  /** One day of the calendar and its tasks. */
  datatype DayTasks = DayTasks(date: Day, tasks: seq<Task>)

  /** The calendar task of entry `e` of project `name`. */
  function TaskOf(e: Interval, name: string): Task {
    Task(FormatHHmm(e.start), FormatHHmm(e.stop), name)
  }

  /** The project name a task of `log` carries; only read when the project resolves. */
  function TaskProject(log: DayLog, names: map<ProjectId, string>): string {
    var n := ProjectOf(log, names);
    if n.Some? then n.value else ""
  }

  /** The tasks of `entries`, in order, all of project `name`. */
  function TasksOf(entries: seq<Interval>, name: string): (ts: seq<Task>)
    ensures |ts| == |entries|
  {
    if |entries| == 0 then []
    else TasksOf(entries[..|entries| - 1], name) + [TaskOf(entries[|entries| - 1], name)]
  }

  /** The tasks of those of the first `n` entries of `es` whose mean rate passes the threshold, in entry order. */
  function EntryTasks(es: seq<Interval>, n: nat, samples: seq<ActivitySample>, name: string, threshold: nat)
    : seq<Task>
    requires n <= |es|
  {
    if n == 0 then []
    else
      EntryTasks(es, n - 1, samples, name, threshold)
      + (if Passes(InclusiveMean(samples, es[n - 1]), threshold) then [TaskOf(es[n - 1], name)] else [])
  }

  /** The tasks of the passing entries of `log`, in entry order. */
  function LogTasks(log: DayLog, samples: seq<ActivitySample>, names: map<ProjectId, string>, threshold: nat)
    : seq<Task>
  {
    EntryTasks(log.logs, |log.logs|, samples, TaskProject(log, names), threshold)
  }

  /** The tasks shown on `day`: those of every log dated `day`, in log order. */
  function TasksOn(logs: seq<DayLog>, samples: seq<ActivitySample>, names: map<ProjectId, string>, threshold: nat,
                   day: Day): seq<Task>
  {
    if |logs| == 0 then []
    else
      TasksOn(logs[..|logs| - 1], samples, names, threshold, day)
      + (if logs[|logs| - 1].date == day then LogTasks(logs[|logs| - 1], samples, names, threshold) else [])
  }

  /** Days of the week that opens on `monday`. */
  predicate InWeek(d: Day, monday: Day) {
    monday <= d < monday + 7
  }

  /**
   * Reading `log` makes the handler throw: an entry is read while the log has
   * no populated project, or an entry passes the threshold while the log's
   * date is not one of the week's days.
   */
  predicate Crashes(log: DayLog, samples: seq<ActivitySample>, names: map<ProjectId, string>, threshold: nat,
                    monday: Day)
  {
    (|log.logs| > 0 && ProjectOf(log, names).None?)
    || (|PassingEntries(log.logs, samples, threshold)| > 0 && !InWeek(log.date, monday))
  }

  predicate AnyCrash(logs: seq<DayLog>, samples: seq<ActivitySample>, names: map<ProjectId, string>, threshold: nat,
                     monday: Day)
  {
    exists k :: 0 <= k < |logs| && Crashes(logs[k], samples, names, threshold, monday)
  }

  /** The entries that pass grow by one more entry exactly when it passes. */
  lemma {:induction false} PassingEntriesSnoc(es: seq<Interval>, e: Interval, samples: seq<ActivitySample>, threshold: nat)
    ensures PassingEntries(es + [e], samples, threshold) ==
            PassingEntries(es, samples, threshold)
            + (if Passes(InclusiveMean(samples, e), threshold) then [e] else [])
  {
    if |es| > 0 {
      assert (es + [e])[1..] == es[1..] + [e];
      PassingEntriesSnoc(es[1..], e, samples, threshold);
    } else {
      assert (es + [e])[1..] == [];
    }
  }

  /** One more log adds its tasks to its own day only. */
  lemma TasksOnSnoc(p: seq<DayLog>, log: DayLog, samples: seq<ActivitySample>, names: map<ProjectId, string>,
                    threshold: nat)
    ensures forall day :: (TasksOn(p + [log], samples, names, threshold, day)
                           == TasksOn(p, samples, names, threshold, day)
                              + (if log.date == day then LogTasks(log, samples, names, threshold) else []))
  {
    assert (p + [log])[..|p|] == p;
  }

  /** Task `i` is the task of entry `i`. */
  lemma {:induction false} TaskAt(entries: seq<Interval>, name: string, i: nat)
    requires i < |entries|
    ensures TasksOf(entries, name)[i] == TaskOf(entries[i], name)
  {
    var n := |entries| - 1;
    var init, last := entries[..n], entries[n];
    var prior := TasksOf(init, name);
    assert TasksOf(entries, name) == prior + [TaskOf(last, name)];
    if i == n {
      assert (prior + [TaskOf(last, name)])[n] == TaskOf(last, name);
    } else {
      TaskAt(init, name, i);
      assert entries[i] == init[i];
      assert (prior + [TaskOf(last, name)])[i] == prior[i];
    }
  }

  /** Task `i` is the task of entry `i`: one task per entry, in the entries' order. */
  lemma TasksOfEntries(entries: seq<Interval>, name: string)
    ensures forall i :: 0 <= i < |entries| ==> TasksOf(entries, name)[i] == TaskOf(entries[i], name)
  {
    forall i | 0 <= i < |entries| ensures TasksOf(entries, name)[i] == TaskOf(entries[i], name) {
      TaskAt(entries, name, i);
    }
  }

  lemma TasksOfSnoc(ps: seq<Interval>, e: Interval, name: string)
    ensures TasksOf(ps + [e], name) == TasksOf(ps, name) + [TaskOf(e, name)]
  {
    assert (ps + [e])[..|ps|] == ps;
  }

  /** The tasks of the first `n` entries are those of the entries `PassingEntries` keeps of them. */
  lemma {:induction false} EntryTasksArePassing(es: seq<Interval>, n: nat, samples: seq<ActivitySample>, name: string,
                                                threshold: nat)
    requires n <= |es|
    ensures EntryTasks(es, n, samples, name, threshold) == TasksOf(PassingEntries(es[..n], samples, threshold), name)
  {
    if n > 0 {
      var p := es[..n - 1];
      var e := es[n - 1];
      assert es[..n] == p + [e];
      var ps := PassingEntries(p, samples, threshold);
      EntryTasksArePassing(es, n - 1, samples, name, threshold);
      PassingEntriesSnoc(p, e, samples, threshold);
      if Passes(InclusiveMean(samples, e), threshold) {
        assert PassingEntries(es[..n], samples, threshold) == ps + [e];
        TasksOfSnoc(ps, e, name);
        assert EntryTasks(es, n, samples, name, threshold) == EntryTasks(es, n - 1, samples, name, threshold) + [TaskOf(e, name)];
        assert TasksOf(PassingEntries(es[..n], samples, threshold), name) == TasksOf(ps, name) + [TaskOf(e, name)];
      } else {
        assert PassingEntries(es[..n], samples, threshold) == ps;
        assert EntryTasks(es, n, samples, name, threshold) == EntryTasks(es, n - 1, samples, name, threshold) + [];
        assert TasksOf(PassingEntries(es[..n], samples, threshold), name) == TasksOf(ps, name);
      }
    }
  }

  /** The first day of `week` dated `d`, as the handler's `find` looks it up. */
  method FindDay(week: seq<DayTasks>, d: Day) returns (i: Option<nat>)
    ensures i.None? <==> forall x :: 0 <= x < |week| ==> week[x].date != d
    ensures i.Some? ==> i.value < |week| && week[i.value].date == d
                        && forall x :: 0 <= x < i.value ==> week[x].date != d
  {
    var x := 0;
    while x < |week|
      invariant 0 <= x <= |week|
      invariant forall y :: 0 <= y < x ==> week[y].date != d
    {
      if week[x].date == d {
        return Some(x);
      }
      x := x + 1;
    }
    return None;
  }

  /** The seven days of the week opening on `monday`, each with the tasks of `logs` on that day. */
  predicate WeekHolds(week: seq<DayTasks>, monday: Day, logs: seq<DayLog>, samples: seq<ActivitySample>,
                      names: map<ProjectId, string>, threshold: nat)
  {
    |week| == 7
    && forall i :: 0 <= i < 7 ==>
         week[i].date == monday + i && week[i].tasks == TasksOn(logs, samples, names, threshold, monday + i)
  }

  /** Seven days from `monday`, with no tasks yet. */
  method EmptyWeek(monday: Day) returns (week: seq<DayTasks>)
    ensures |week| == 7
    ensures forall i :: 0 <= i < 7 ==> week[i] == DayTasks(monday + i, [])
  {
    week := [];
    var i := 0;
    while i < 7
      invariant 0 <= i <= 7 && |week| == i
      invariant forall x :: 0 <= x < i ==> week[x] == DayTasks(monday + x, [])
    {
      week := week + [DayTasks(monday + i, [])];
      i := i + 1;
    }
  }

  /** `week0` with the tasks `pending` appended to the day dated `date`, if the week has that day. */
  function WithPending(week0: seq<DayTasks>, monday: Day, date: Day, pending: seq<Task>): (week: seq<DayTasks>)
    requires |week0| == 7
    ensures |week| == 7
  {
    if InWeek(date, monday) then
      var x := date - monday;
      week0[x := DayTasks(week0[x].date, week0[x].tasks + pending)]
    else week0
  }

  /** Appending one more task to the day dated `date` extends the pending tasks by it. */
  lemma WithPendingPush(week0: seq<DayTasks>, monday: Day, date: Day, pending: seq<Task>, t: Task)
    requires |week0| == 7 && InWeek(date, monday)
    ensures var week := WithPending(week0, monday, date, pending);
            var x := date - monday;
            week[x := DayTasks(week[x].date, week[x].tasks + [t])] == WithPending(week0, monday, date, pending + [t])
  {
    var x := date - monday;
    assert week0[x].tasks + pending + [t] == week0[x].tasks + (pending + [t]);
  }

  /** After every entry of the `k`th log, the week holds the tasks of the first `k + 1` logs. */
  lemma WithPendingDone(week0: seq<DayTasks>, monday: Day, logs: seq<DayLog>, k: nat,
                        samples: seq<ActivitySample>, names: map<ProjectId, string>, threshold: nat)
    requires k < |logs|
    requires WeekHolds(week0, monday, logs[..k], samples, names, threshold)
    requires LogTasks(logs[k], samples, names, threshold) != [] ==> InWeek(logs[k].date, monday)
    ensures WeekHolds(WithPending(week0, monday, logs[k].date, LogTasks(logs[k], samples, names, threshold)),
                      monday, logs[..k + 1], samples, names, threshold)
  {
    TasksOnSnoc(logs[..k], logs[k], samples, names, threshold);
    assert logs[..k + 1] == logs[..k] + [logs[k]];
  }

  /**
   * Reads the entries of `log` in order, appending each passing one to the
   * day of the log; reports a crash exactly when the log crashes.
   */
  method ReadEntries(week0: seq<DayTasks>, monday: Day, log: DayLog, samples: seq<ActivitySample>,
                     names: map<ProjectId, string>, threshold: nat) returns (week: seq<DayTasks>, crashed: bool)
    requires |week0| == 7 && forall i :: 0 <= i < 7 ==> week0[i].date == monday + i
    ensures !crashed ==> LogTasks(log, samples, names, threshold) != [] ==> InWeek(log.date, monday)
    ensures crashed <==> (|log.logs| > 0 && ProjectOf(log, names).None?)
                         || (|LogTasks(log, samples, names, threshold)| > 0 && !InWeek(log.date, monday))
    ensures !crashed ==> week == WithPending(week0, monday, log.date, LogTasks(log, samples, names, threshold))
  {
    week := week0;
    var dayData := FindDay(week, log.date);
    assert dayData.None? <==> !InWeek(log.date, monday) by {
      if InWeek(log.date, monday) {
        assert week0[log.date - monday].date == log.date;
      }
    }
    ghost var name := TaskProject(log, names);
    ghost var pending: seq<Task> := [];
    if InWeek(log.date, monday) {
      var x := log.date - monday;
      assert week0[x].tasks + [] == week0[x].tasks;
      assert week0[x := DayTasks(week0[x].date, week0[x].tasks)] == week0;
    }
    var j := 0;
    while j < |log.logs|
      invariant 0 <= j <= |log.logs|
      invariant j > 0 ==> ProjectOf(log, names).Some?
      invariant dayData.None? <==> !InWeek(log.date, monday)
      invariant dayData.Some? ==> dayData.value == log.date - monday
      invariant |pending| > 0 ==> InWeek(log.date, monday)
      invariant pending == EntryTasks(log.logs, j, samples, name, threshold)
      invariant week == WithPending(week0, monday, log.date, pending)
    {
      var e := log.logs[j];
      var project := ProjectOf(log, names);
      if project.None? {
        return week, true;
      }
      if Passes(InclusiveMean(samples, e), threshold) {
        if dayData.None? {
          EntryTasksGrow(log.logs, j, |log.logs|, samples, name, threshold);
          return week, true;
        }
        var x := dayData.value;
        var task := TaskOf(e, project.value);
        assert EntryTasks(log.logs, j + 1, samples, name, threshold) == pending + [task];
        WithPendingPush(week0, monday, log.date, pending, task);
        week := week[x := DayTasks(week[x].date, week[x].tasks + [task])];
        pending := pending + [task];
      } else {
        assert EntryTasks(log.logs, j + 1, samples, name, threshold) == pending + [];
      }
      j := j + 1;
    }
    return week, false;
  }

  /** Reads the `k`th log: the week then holds the tasks of the first `k + 1` logs, unless the log crashes. */
  method ReadLog(week0: seq<DayTasks>, monday: Day, logs: seq<DayLog>, k: nat, samples: seq<ActivitySample>,
                 names: map<ProjectId, string>, threshold: nat) returns (week: seq<DayTasks>, crashed: bool)
    requires k < |logs|
    requires WeekHolds(week0, monday, logs[..k], samples, names, threshold)
    ensures crashed <==> Crashes(logs[k], samples, names, threshold, monday)
    ensures !crashed ==> WeekHolds(week, monday, logs[..k + 1], samples, names, threshold)
  {
    week, crashed := ReadEntries(week0, monday, logs[k], samples, names, threshold);
    EntryTasksArePassing(logs[k].logs, |logs[k].logs|, samples, TaskProject(logs[k], names), threshold);
    assert logs[k].logs[..|logs[k].logs|] == logs[k].logs;
    if !crashed {
      WithPendingDone(week0, monday, logs, k, samples, names, threshold);
    }
  }

  /**
   * The calendar as the handler builds it: seven empty days from the Monday
   * of the week of `date`, then every log's entries in order, each passing
   * entry appended as a task to the day of its log.  A missing date is
   * rejected (Invalid); a crash while reading the logs is a ServerError.
   */
  method CalendarView(date: Option<Day>, logs: seq<DayLog>, samples: seq<ActivitySample>,
                      names: map<ProjectId, string>, threshold: nat) returns (r: Result<seq<DayTasks>>)
    ensures date.None? ==> r == Err(Invalid)
    ensures date.Some? ==> (r.Err? <==> AnyCrash(logs, samples, names, threshold, StartOfIsoWeek(date.value)))
    ensures date.Some? && r.Err? ==> r.error == ServerError
    ensures r.Ok? ==> date.Some? && WeekHolds(r.value, StartOfIsoWeek(date.value), logs, samples, names, threshold)
  {
    if date.None? {
      return Err(Invalid);
    }
    var monday := StartOfIsoWeek(date.value);
    var week := EmptyWeek(monday);
    assert WeekHolds(week, monday, logs[..0], samples, names, threshold);
    var k := 0;
    while k < |logs|
      invariant 0 <= k <= |logs|
      invariant !AnyCrash(logs[..k], samples, names, threshold, monday)
      invariant WeekHolds(week, monday, logs[..k], samples, names, threshold)
    {
      var crashed;
      week, crashed := ReadLog(week, monday, logs, k, samples, names, threshold);
      if crashed {
        return Err(ServerError);
      }
      assert logs[..k + 1] == logs[..k] + [logs[k]];
      k := k + 1;
    }
    assert logs[..k] == logs;
    return Ok(week);
  }

  /** Once an entry passes, the tasks of every longer prefix are non-empty. */
  lemma {:induction false} EntryTasksGrow(es: seq<Interval>, j: nat, n: nat, samples: seq<ActivitySample>,
                                          name: string, threshold: nat)
    requires j < n <= |es| && Passes(InclusiveMean(samples, es[j]), threshold)
    ensures |EntryTasks(es, n, samples, name, threshold)| > 0
  {
    if j < n - 1 {
      EntryTasksGrow(es, j, n - 1, samples, name, threshold);
    }
  }

  /** The passing entries of the logs dated `day`, counted. */
  function PassingCountOn(logs: seq<DayLog>, samples: seq<ActivitySample>, threshold: nat, day: Day): nat {
    if |logs| == 0 then 0
    else
      PassingCountOn(logs[..|logs| - 1], samples, threshold, day)
      + (if logs[|logs| - 1].date == day then |PassingEntries(logs[|logs| - 1].logs, samples, threshold)| else 0)
  }

  /** A day shows one task per passing entry of the logs dated that day. */
  lemma {:induction false} TasksOnCount(logs: seq<DayLog>, samples: seq<ActivitySample>, names: map<ProjectId, string>,
                                        threshold: nat, day: Day)
    ensures |TasksOn(logs, samples, names, threshold, day)| == PassingCountOn(logs, samples, threshold, day)
  {
    if |logs| > 0 {
      var last := logs[|logs| - 1];
      TasksOnCount(logs[..|logs| - 1], samples, names, threshold, day);
      EntryTasksArePassing(last.logs, |last.logs|, samples, TaskProject(last, names), threshold);
      assert last.logs[..|last.logs|] == last.logs;
    }
  }

  /** Without a threshold every entry of a log dated `day` is a task of that day. */
  lemma {:induction false} NoThresholdShowsEveryEntry(logs: seq<DayLog>, samples: seq<ActivitySample>,
                                                      names: map<ProjectId, string>, day: Day)
    ensures |TasksOn(logs, samples, names, 0, day)| == EntryCountOn(logs, day)
  {
    TasksOnCount(logs, samples, names, 0, day);
    NoThresholdCount(logs, samples, day);
  }

  lemma {:induction false} NoThresholdCount(logs: seq<DayLog>, samples: seq<ActivitySample>, day: Day)
    ensures PassingCountOn(logs, samples, 0, day) == EntryCountOn(logs, day)
  {
    if |logs| > 0 {
      var p, last := logs[..|logs| - 1], logs[|logs| - 1];
      NoThresholdCount(p, samples, day);
      EntryCountOnSnoc(p, last, day);
      assert logs == p + [last];
    }
  }

  /** A task's times are its entry's times cut to the minute: read back with ":00" they give the truncated seconds. */
  lemma TaskTimesReadBack(e: Interval, name: string)
    ensures TimeStringToSeconds(TaskOf(e, name).startTime + ":00") == Some(e.start - e.start % 60)
    ensures TimeStringToSeconds(TaskOf(e, name).endTime + ":00") == Some(e.stop - e.stop % 60)
    ensures TaskOf(e, name).project == name
  {
    FormatHHmmTruncates(e.start);
    FormatHHmmTruncates(e.stop);
  }
}
