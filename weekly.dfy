/**
 * The weekly timesheet: the seven dates of the ISO week around a date, and
 * one row per project with a duration cell for each weekday.
 */
module Weekly {
  import opened Wrappers
  import opened Text
  import opened Clock
  import opened Timelog
  import opened Objects

  /** One project's row: its name, the upper-cased first letter, and seven cells Monday to Sunday. */
  datatype WeekRow = WeekRow(projectName: string, projectInitial: string, cells: seq<string>)

  datatype WeekView = WeekView(weekDates: seq<Day>, rows: seq<WeekRow>)

  /** What an untouched cell shows. */
  const Unset: string := "-"

  /** The seven dates from the Monday of the ISO week of `anchor`. */
  method BuildWeekDates(anchor: Day) returns (dates: seq<Day>)
    ensures |dates| == 7
    ensures forall i :: 0 <= i < 7 ==> dates[i] == StartOfIsoWeek(anchor) + i && IsoWeekday(dates[i]) == i + 1
    ensures anchor in dates
  {
    var monday := StartOfIsoWeek(anchor);
    dates := [];
    var i := 0;
    while i < 7
      invariant 0 <= i <= 7 && |dates| == i
      invariant forall j :: 0 <= j < i ==> dates[j] == monday + j && IsoWeekday(dates[j]) == j + 1
    {
      WeekdayOfOffset(anchor, i);
      dates := dates + [monday + i];
      i := i + 1;
    }
    assert dates[anchor - monday] == anchor;
  }

  /** Every log has a populated project. */
  predicate AllResolved(logs: seq<DayLog>, names: map<ProjectId, string>) {
    forall k :: 0 <= k < |logs| ==> ProjectOf(logs[k], names).Some?
  }

  /** `charAt(0).toUpperCase()`. */
  function Initial(name: string): string {
    if |name| == 0 then "" else Upper(name[..1])
  }

  /** The seconds a log contributes: the sum of its entries whose mean rate passes the threshold. */
  function PassingSeconds(log: DayLog, samples: seq<ActivitySample>, threshold: nat): int {
    SumDurations(PassingEntries(log.logs, samples, threshold))
  }

  /** `log` belongs to project `name` and falls on ISO weekday `w`. */
  predicate LogAt(log: DayLog, names: map<ProjectId, string>, name: string, w: int) {
    ProjectOf(log, names) == Some(name) && IsoWeekday(log.date) == w
  }

  /** The last log for project `name` on weekday `w`. */
  function LastLogFor(logs: seq<DayLog>, names: map<ProjectId, string>, name: string, w: int): (r: Option<nat>)
    ensures r.None? <==> forall k :: 0 <= k < |logs| ==> !LogAt(logs[k], names, name, w)
    ensures r.Some? ==> r.value < |logs| && LogAt(logs[r.value], names, name, w)
                        && forall k :: r.value < k < |logs| ==> !LogAt(logs[k], names, name, w)
  {
    if |logs| == 0 then None
    else if LogAt(logs[|logs| - 1], names, name, w) then Some(|logs| - 1)
    else
      var p := logs[..|logs| - 1];
      assert forall k :: 0 <= k < |p| ==> p[k] == logs[k];
      LastLogFor(p, names, name, w)
  }

  /** The text of the cell of project `name` on weekday `w`: "-" when no log is there, else the passing time of the last such log. */
  function CellText(logs: seq<DayLog>, samples: seq<ActivitySample>, names: map<ProjectId, string>, threshold: nat,
                    name: string, w: int): string
  {
    var last := LastLogFor(logs, names, name, w);
    if last.None? then Unset else FormatDuration(PassingSeconds(logs[last.value], samples, threshold))
  }

  /**
   * The project names that get a row, each once, in the order their rows
   * are added: a name the dictionary inherits from `Object.prototype`
   * already looks present, so it never gets a row of its own.
   */
  function ProjectOrder(logs: seq<DayLog>, names: map<ProjectId, string>): (order: seq<string>)
    ensures forall i, j :: 0 <= i < j < |order| ==> order[i] != order[j]
    ensures forall n :: n in order <==> n !in InheritedNames && exists k :: 0 <= k < |logs| && ProjectOf(logs[k], names) == Some(n)
  {
    if |logs| == 0 then []
    else
      var p := logs[..|logs| - 1];
      var prior := ProjectOrder(p, names);
      assert forall k :: 0 <= k < |p| ==> p[k] == logs[k];
      var n := ProjectOf(logs[|logs| - 1], names);
      if n.None? || n.value in prior || n.value in InheritedNames then prior else prior + [n.value]
  }

  /** The row of project `name` after the logs `logs`. */
  predicate RowIs(row: WeekRow, logs: seq<DayLog>, samples: seq<ActivitySample>, names: map<ProjectId, string>,
                  threshold: nat, name: string)
  {
    row.projectName == name && row.projectInitial == Initial(name) && |row.cells| == 7
    && forall w :: 0 <= w < 7 ==> row.cells[w] == CellText(logs, samples, names, threshold, name, w + 1)
  }

  /** Every row of `projectData` is the row of its name after `logs`. */
  predicate RowsHold(projectData: map<string, WeekRow>, logs: seq<DayLog>, samples: seq<ActivitySample>,
                     names: map<ProjectId, string>, threshold: nat)
  {
    forall n :: n in projectData ==> RowIs(projectData[n], logs, samples, names, threshold, n)
  }

  /** A new row: the project's name and initial, and seven unset cells. */
  function BlankRow(name: string): (row: WeekRow)
    ensures |row.cells| == 7
  {
    WeekRow(name, Initial(name), [Unset, Unset, Unset, Unset, Unset, Unset, Unset])
  }

  /** One more log moves only the cell of its own project and weekday. */
  lemma CellTextAppend(p: seq<DayLog>, log: DayLog, samples: seq<ActivitySample>, names: map<ProjectId, string>,
                       threshold: nat, name: string, w: int)
    ensures CellText(p + [log], samples, names, threshold, name, w) ==
            if LogAt(log, names, name, w) then FormatDuration(PassingSeconds(log, samples, threshold))
            else CellText(p, samples, names, threshold, name, w)
  {
    assert (p + [log])[..|p|] == p;
  }

  /** A name not seen before has every cell unset. */
  lemma CellTextUnseen(p: seq<DayLog>, samples: seq<ActivitySample>, names: map<ProjectId, string>, threshold: nat,
                       name: string, w: int)
    requires name !in ProjectOrder(p, names) && name !in InheritedNames
    ensures CellText(p, samples, names, threshold, name, w) == Unset
  {
  }

  /** The project order grows by a log's name exactly when the name is new and not inherited. */
  lemma ProjectOrderAppend(p: seq<DayLog>, log: DayLog, names: map<ProjectId, string>, name: string)
    requires ProjectOf(log, names) == Some(name)
    ensures ProjectOrder(p + [log], names) ==
            if name in ProjectOrder(p, names) || name in InheritedNames then ProjectOrder(p, names)
            else ProjectOrder(p, names) + [name]
  {
    assert (p + [log])[..|p|] == p;
  }

  /** A blank row is the row of a name no log mentions yet. */
  lemma BlankRowHolds(p: seq<DayLog>, samples: seq<ActivitySample>, names: map<ProjectId, string>, threshold: nat,
                      name: string)
    requires name !in ProjectOrder(p, names) && name !in InheritedNames
    ensures RowIs(BlankRow(name), p, samples, names, threshold, name)
  {
    forall w | 0 <= w < 7 ensures BlankRow(name).cells[w] == CellText(p, samples, names, threshold, name, w + 1) {
      CellTextUnseen(p, samples, names, threshold, name, w + 1);
    }
  }

  /** Setting the cell of the log's weekday in the log's row keeps every row up to date. */
  lemma RowsHoldStep(projectData: map<string, WeekRow>, p: seq<DayLog>, log: DayLog, samples: seq<ActivitySample>,
                     names: map<ProjectId, string>, threshold: nat, name: string)
    requires RowsHold(projectData, p, samples, names, threshold)
    requires ProjectOf(log, names) == Some(name) && name in projectData
    ensures var row := projectData[name];
            RowsHold(projectData[name := row.(cells := row.cells[IsoWeekday(log.date) - 1 :=
                       FormatDuration(PassingSeconds(log, samples, threshold))])],
                     p + [log], samples, names, threshold)
  {
    var row := projectData[name];
    var m := projectData[name := row.(cells := row.cells[IsoWeekday(log.date) - 1 :=
               FormatDuration(PassingSeconds(log, samples, threshold))])];
    forall n | n in m ensures RowIs(m[n], p + [log], samples, names, threshold, n) {
      forall w | 0 <= w < 7 ensures m[n].cells[w] == CellText(p + [log], samples, names, threshold, n, w + 1) {
        CellTextAppend(p, log, samples, names, threshold, n, w + 1);
      }
    }
  }

  /** A log of a project without a row leaves every row as it was. */
  lemma RowsHoldOther(projectData: map<string, WeekRow>, p: seq<DayLog>, log: DayLog, samples: seq<ActivitySample>,
                      names: map<ProjectId, string>, threshold: nat, name: string)
    requires RowsHold(projectData, p, samples, names, threshold)
    requires ProjectOf(log, names) == Some(name) && name !in projectData
    ensures RowsHold(projectData, p + [log], samples, names, threshold)
  {
    forall n | n in projectData ensures RowIs(projectData[n], p + [log], samples, names, threshold, n) {
      forall w | 0 <= w < 7 ensures projectData[n].cells[w] == CellText(p + [log], samples, names, threshold, n, w + 1) {
        CellTextAppend(p, log, samples, names, threshold, n, w + 1);
      }
    }
  }

  /** `projectData` and `order` after the logs `p`: the names in order of first appearance, each with
      its row. */
  ghost predicate DataHolds(projectData: map<string, WeekRow>, order: seq<string>, p: seq<DayLog>,
                            samples: seq<ActivitySample>, names: map<ProjectId, string>, threshold: nat)
  {
    order == ProjectOrder(p, names)
    && (forall n :: n in order <==> n in projectData)
    && RowsHold(projectData, p, samples, names, threshold)
  }

  /** One pass of the handler's loop over a log of project `name`: add the project's blank row when
      `projectData[name]` is not truthy, then set the cell of the log's weekday to the log's passing
      time. For an inherited name the lookup is truthy and the write lands on the inherited member,
      outside every row. */
  method RecordLog(projectData: map<string, WeekRow>, order: seq<string>, ghost p: seq<DayLog>, log: DayLog,
                   samples: seq<ActivitySample>, names: map<ProjectId, string>, threshold: nat, name: string)
    returns (projectData': map<string, WeekRow>, order': seq<string>)
    requires DataHolds(projectData, order, p, samples, names, threshold)
    requires ProjectOf(log, names) == Some(name)
    ensures DataHolds(projectData', order', p + [log], samples, names, threshold)
  {
    ProjectOrderAppend(p, log, names, name);
    projectData', order' := projectData, order;
    var truthy := name in projectData' || name in InheritedNames;
    if !truthy {
      BlankRowHolds(p, samples, names, threshold, name);
      projectData' := projectData'[name := BlankRow(name)];
      order' := order' + [name];
    }
    if name in projectData' {
      RowsHoldStep(projectData', p, log, samples, names, threshold, name);
      var total := PassingSeconds(log, samples, threshold);
      var row := projectData'[name];
      projectData' := projectData'[name := row.(cells := row.cells[IsoWeekday(log.date) - 1 := FormatDuration(total)])];
    } else {
      RowsHoldOther(projectData', p, log, samples, names, threshold, name);
    }
  }

  /** `Object.values(projectData)` for a dictionary whose rows were added under the names `order`. */
  function Values(projectData: map<string, WeekRow>, order: seq<string>): (rows: seq<WeekRow>)
    requires forall n :: n in order ==> n in projectData
    ensures |rows| == |PropertyOrder(order)|
    ensures forall i :: 0 <= i < |rows| ==> PropertyOrder(order)[i] in projectData && rows[i] == projectData[PropertyOrder(order)[i]]
  {
    var keys := PropertyOrder(order);
    PropertyOrderPermutes(order);
    assert forall i :: 0 <= i < |keys| ==> keys[i] in multiset(order);
    seq(|keys|, i requires 0 <= i < |keys| => projectData[keys[i]])
  }

  /**
   * The weekly view as the handler builds it: a dictionary of rows keyed by
   * project name, each starting with seven unset cells; every log sets the
   * cell of its weekday to its own passing time, replacing what was there.
   * A project whose name the dictionary inherits from `Object.prototype`
   * gets no row.  The rows come out as `Object.values` lists them: names
   * that are array indices first, in ascending numeric order, then the
   * other names in the order their rows were added.  A missing date is
   * rejected (Invalid); a log without a populated project makes the handler
   * throw (ServerError).
   */
  method WeeklyView(date: Option<Day>, logs: seq<DayLog>, samples: seq<ActivitySample>, names: map<ProjectId, string>,
                    threshold: nat) returns (r: Result<WeekView>)
    ensures date.None? ==> r == Err(Invalid)
    ensures date.Some? ==> (r.Err? <==> !AllResolved(logs, names))
    ensures date.Some? && r.Err? ==> r.error == ServerError
    ensures r.Ok? ==> date.Some? && |r.value.weekDates| == 7
                      && forall i :: 0 <= i < 7 ==> r.value.weekDates[i] == StartOfIsoWeek(date.value) + i
    ensures r.Ok? ==> |r.value.rows| == |PropertyOrder(ProjectOrder(logs, names))|
                      && forall i :: 0 <= i < |r.value.rows| ==>
                           RowIs(r.value.rows[i], logs, samples, names, threshold, PropertyOrder(ProjectOrder(logs, names))[i])
  {
    if date.None? {
      return Err(Invalid);
    }
    var dates := BuildWeekDates(date.value);
    var projectData: map<string, WeekRow> := map[];
    var order: seq<string> := [];
    var k := 0;
    while k < |logs|
      invariant 0 <= k <= |logs|
      invariant AllResolved(logs[..k], names)
      invariant DataHolds(projectData, order, logs[..k], samples, names, threshold)
    {
      var log := logs[k];
      var name := ProjectOf(log, names);
      if name.None? {
        assert !AllResolved(logs, names) by { assert ProjectOf(logs[k], names).None?; }
        return Err(ServerError);
      }
      assert logs[..k + 1] == logs[..k] + [log];
      projectData, order := RecordLog(projectData, order, logs[..k], log, samples, names, threshold, name.value);
      k := k + 1;
    }
    assert logs[..k] == logs;
    var rows := Values(projectData, order);
    r := Ok(WeekView(dates, rows));
  }

  /** A cell with a log whose every entry fails the threshold shows zero, not "-". */
  lemma FilteredCellIsZero(logs: seq<DayLog>, samples: seq<ActivitySample>, names: map<ProjectId, string>,
                           threshold: nat, name: string, w: int)
    requires LastLogFor(logs, names, name, w).Some?
    requires PassingEntries(logs[LastLogFor(logs, names, name, w).value].logs, samples, threshold) == []
    ensures CellText(logs, samples, names, threshold, name, w) == "0:00:00"
  {
    assert NatToString(0) == "0" && PadStart2(0) == "00";
    assert "0" + ":" + "00" + ":" + "00" == "0:00:00";
  }

  /**
   * Two logs of one project on the same Monday: the cell shows the second
   * log's half hour, not the hour and a half of both together.
   */
  lemma LaterLogOverwritesCell()
    ensures var names := map[7 := "Website"];
            var first := DayLog(0, Some(7), "desktop", "auto", [Interval(32400, 36000, None)]);
            var second := DayLog(0, Some(7), "browser", "manual", [Interval(39600, 41400, None)]);
            CellText([first, second], [], names, 0, "Website", 1) == "0:30:00"
  {
    var names := map[7 := "Website"];
    var first := DayLog(0, Some(7), "desktop", "auto", [Interval(32400, 36000, None)]);
    var second := DayLog(0, Some(7), "browser", "manual", [Interval(39600, 41400, None)]);
    assert LogAt(second, names, "Website", 1);
    assert LastLogFor([first, second], names, "Website", 1) == Some(1);
    assert PassingEntries(second.logs, [], 0) == second.logs;
    assert PassingSeconds(second, [], 0) == 1800 by {
      assert second.logs[1..] == [];
    }
    assert 1800 / 3600 == 0 && 1800 / 60 % 60 == 30 && 1800 % 60 == 0;
    assert NatToString(0) == "0" && PadStart2(0) == "00";
    assert NatToString(30) == "30" by { assert NatToString(3) == "3"; }
    assert FormatDuration(1800) == "0" + ":" + "30" + ":" + "00";
    assert "0" + ":" + "30" + ":" + "00" == "0:30:00";
  }
}
