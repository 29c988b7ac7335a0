/**
 * The batch timer-log upload: a day's incoming intervals are first reduced
 * by start time, then folded into the stored timer log for (user, date,
 * project), or stored as a new log when there is none.
 */
module Merge {
  import opened Wrappers
  import opened Clock
  import opened Timelog

  // ---------------------------------------------------------------------------
  // Step 1: reduce the incoming batch by start time
  // ---------------------------------------------------------------------------

  /** The first index of an entry of `r` starting at `s`, or `|r|` when there is none. */
  function FindStart(r: seq<Interval>, s: TimeOfDay): (i: nat)
    ensures i <= |r|
    ensures i < |r| ==> r[i].start == s
    ensures forall k :: 0 <= k < i ==> r[k].start != s
  {
    if |r| == 0 then 0
    else if r[0].start == s then 0
    else 1 + FindStart(r[1..], s)
  }

  /**
   * One entry of the batch meets the entries reduced so far: a new start is
   * added with all of its fields; a known start takes the later stop, and
   * keeps everything else of the first entry seen with that start.
   */
  function ReduceStep(acc: seq<Interval>, n: Interval): seq<Interval> {
    var i := FindStart(acc, n.start);
    if i == |acc| then acc + [n]
    else if n.stop > acc[i].stop then acc[i := acc[i].(stop := n.stop)]
    else acc
  }

  /** The batch reduced in arrival order. */
  function Reduce(batch: seq<Interval>): seq<Interval> {
    if |batch| == 0 then []
    else ReduceStep(Reduce(batch[..|batch| - 1]), batch[|batch| - 1])
  }

  /** No two entries of `r` share a start. */
  predicate DistinctStarts(r: seq<Interval>) {
    forall i, j :: 0 <= i < j < |r| ==> r[i].start != r[j].start
  }

  /** The latest stop that `b` gives start `s`, or 0 when `b` does not have it. */
  function MaxStop(b: seq<Interval>, s: TimeOfDay): (m: nat)
    ensures forall k :: 0 <= k < |b| && b[k].start == s ==> b[k].stop <= m
    ensures FindStart(b, s) < |b| ==> exists k :: 0 <= k < |b| && b[k].start == s && b[k].stop == m
    ensures FindStart(b, s) == |b| ==> m == 0
  {
    if |b| == 0 then 0
    else
      var p, n := b[..|b| - 1], b[|b| - 1];
      var m := MaxStop(p, s);
      FindStartAppend(p, n, s);
      assert b == p + [n];
      if n.start == s && n.stop > m then n.stop else m
  }

  /** Every start of `b` has an entry in `r`, and every entry of `r` has its start in `b`. */
  predicate SameStarts(r: seq<Interval>, b: seq<Interval>) {
    (forall k :: 0 <= k < |b| ==> FindStart(r, b[k].start) < |r|)
    && (forall i :: 0 <= i < |r| ==> FindStart(b, r[i].start) < |b|)
  }

  /** Each stop of `r` is the latest stop `b` gives that start. */
  predicate MaxStops(r: seq<Interval>, b: seq<Interval>) {
    forall i :: 0 <= i < |r| ==> r[i].stop == MaxStop(b, r[i].start)
  }

  /** Each reason of `r` is the reason of the first entry of `b` with that start. */
  predicate FirstReasons(r: seq<Interval>, b: seq<Interval>)
    requires SameStarts(r, b)
  {
    forall i :: 0 <= i < |r| ==> r[i].reason == b[FindStart(b, r[i].start)].reason
  }

  /** `r` lists its starts in the order they first appear in `b`. */
  predicate FirstSeenOrder(r: seq<Interval>, b: seq<Interval>) {
    forall i, j :: 0 <= i < j < |r| ==> FindStart(b, r[i].start) < FindStart(b, r[j].start)
  }

  /**
   * `r` is a reduction of `b`: one entry per distinct start of `b` and no
   * other; each stop is the latest stop `b` gives that start; the reason
   * comes from the first entry of `b` with that start; and the entries keep
   * the order in which their starts first appear in `b`.
   */
  predicate ReducedFrom(r: seq<Interval>, b: seq<Interval>) {
    DistinctStarts(r) && SameStarts(r, b) && MaxStops(r, b) && FirstReasons(r, b) && FirstSeenOrder(r, b)
  }

  /** Looking a start up in a longer batch finds the same first index, or the new last entry. */
  lemma {:induction false} FindStartAppend(p: seq<Interval>, n: Interval, s: TimeOfDay)
    ensures FindStart(p + [n], s) ==
            (if FindStart(p, s) < |p| then FindStart(p, s) else if n.start == s then |p| else |p| + 1)
  {
    if |p| > 0 {
      assert (p + [n])[1..] == p[1..] + [n];
      FindStartAppend(p[1..], n, s);
    }
  }

  lemma FindStartAppendAll(p: seq<Interval>, n: Interval)
    ensures forall s :: (FindStart(p + [n], s) ==
                         if FindStart(p, s) < |p| then FindStart(p, s) else if n.start == s then |p| else |p| + 1)
  {
    forall s ensures FindStart(p + [n], s) ==
            (if FindStart(p, s) < |p| then FindStart(p, s) else if n.start == s then |p| else |p| + 1) {
      FindStartAppend(p, n, s);
    }
  }

  /** A longer batch raises the latest stop of its last entry's start only. */
  lemma MaxStopAppend(p: seq<Interval>, n: Interval)
    ensures forall s :: (MaxStop(p + [n], s) ==
                         if n.start == s && n.stop > MaxStop(p, s) then n.stop else MaxStop(p, s))
  {
    forall s ensures MaxStop(p + [n], s) ==
            (if n.start == s && n.stop > MaxStop(p, s) then n.stop else MaxStop(p, s)) {
      assert (p + [n])[..|p|] == p;
    }
  }

  /** First-index lookups only see starts. */
  lemma {:induction false} FindStartSameStarts(r: seq<Interval>, q: seq<Interval>, s: TimeOfDay)
    requires |r| == |q| && forall i :: 0 <= i < |r| ==> r[i].start == q[i].start
    ensures FindStart(r, s) == FindStart(q, s)
  {
    if |r| > 0 {
      FindStartSameStarts(r[1..], q[1..], s);
    }
  }

  lemma FindStartSameStartsAll(r: seq<Interval>, q: seq<Interval>)
    requires |r| == |q| && forall i :: 0 <= i < |r| ==> r[i].start == q[i].start
    ensures forall s :: FindStart(r, s) == FindStart(q, s)
  {
    forall s ensures FindStart(r, s) == FindStart(q, s) {
      FindStartSameStarts(r, q, s);
    }
  }

  /** A start new to the reduction is new to the batch as well. */
  lemma NewStartUnseen(r: seq<Interval>, p: seq<Interval>, n: Interval)
    requires SameStarts(r, p) && FindStart(r, n.start) == |r|
    ensures FindStart(p, n.start) == |p|
  {
  }

  lemma NewSameStarts(r: seq<Interval>, p: seq<Interval>, n: Interval)
    requires SameStarts(r, p) && FindStart(r, n.start) == |r|
    ensures SameStarts(r + [n], p + [n])
  {
    FindStartAppendAll(r, n);
    FindStartAppendAll(p, n);
    var r', b := r + [n], p + [n];
    forall k | 0 <= k < |b| ensures FindStart(r', b[k].start) < |r'| {
      if k < |p| { assert b[k] == p[k]; }
    }
    forall i | 0 <= i < |r'| ensures FindStart(b, r'[i].start) < |b| {
      if i < |r| { assert r'[i] == r[i]; }
    }
  }

  lemma NewMaxStops(r: seq<Interval>, p: seq<Interval>, n: Interval)
    requires SameStarts(r, p) && MaxStops(r, p) && FindStart(r, n.start) == |r|
    ensures MaxStops(r + [n], p + [n])
  {
    NewStartUnseen(r, p, n);
    MaxStopAppend(p, n);
    var r' := r + [n];
    forall i | 0 <= i < |r'| ensures r'[i].stop == MaxStop(p + [n], r'[i].start) {
      if i < |r| { assert r'[i] == r[i]; }
    }
  }

  lemma NewFirstReasons(r: seq<Interval>, p: seq<Interval>, n: Interval)
    requires SameStarts(r, p) && FirstReasons(r, p) && FindStart(r, n.start) == |r|
    ensures SameStarts(r + [n], p + [n]) && FirstReasons(r + [n], p + [n])
  {
    NewSameStarts(r, p, n);
    NewStartUnseen(r, p, n);
    FindStartAppendAll(p, n);
    var r', b := r + [n], p + [n];
    forall i | 0 <= i < |r'| ensures r'[i].reason == b[FindStart(b, r'[i].start)].reason {
      if i < |r| {
        assert r'[i] == r[i] && FindStart(p, r[i].start) < |p|;
      }
    }
  }

  lemma NewFirstSeenOrder(r: seq<Interval>, p: seq<Interval>, n: Interval)
    requires SameStarts(r, p) && FirstSeenOrder(r, p) && FindStart(r, n.start) == |r|
    ensures FirstSeenOrder(r + [n], p + [n])
  {
    NewStartUnseen(r, p, n);
    FindStartAppendAll(p, n);
    var r', b := r + [n], p + [n];
    forall i, j | 0 <= i < j < |r'| ensures FindStart(b, r'[i].start) < FindStart(b, r'[j].start) {
      assert r'[i] == r[i] && FindStart(p, r[i].start) < |p|;
      if j < |r| {
        assert r'[j] == r[j];
      }
    }
  }

  /** A batch entry whose start is new to the reduction is appended as it is. */
  lemma ReduceStepNew(r: seq<Interval>, p: seq<Interval>, n: Interval)
    requires ReducedFrom(r, p) && FindStart(r, n.start) == |r|
    ensures ReducedFrom(r + [n], p + [n])
  {
    NewFirstReasons(r, p, n);
    NewFirstSeenOrder(r, p, n);
    NewMaxStops(r, p, n);
  }

  /** A known start changes at most its own entry's stop. */
  lemma KnownShape(r: seq<Interval>, n: Interval)
    requires FindStart(r, n.start) < |r|
    ensures |ReduceStep(r, n)| == |r|
    ensures forall j :: 0 <= j < |r| ==> ReduceStep(r, n)[j].start == r[j].start && ReduceStep(r, n)[j].reason == r[j].reason
    ensures forall j :: 0 <= j < |r| && j != FindStart(r, n.start) ==> ReduceStep(r, n)[j] == r[j]
    ensures DistinctStarts(r) ==> DistinctStarts(ReduceStep(r, n))
    ensures forall s :: FindStart(ReduceStep(r, n), s) == FindStart(r, s)
  {
    FindStartSameStartsAll(ReduceStep(r, n), r);
  }

  lemma KnownSameStarts(r: seq<Interval>, p: seq<Interval>, n: Interval)
    requires SameStarts(r, p) && FindStart(r, n.start) < |r|
    ensures SameStarts(ReduceStep(r, n), p + [n])
  {
    var r', b := ReduceStep(r, n), p + [n];
    KnownShape(r, n);
    FindStartAppendAll(p, n);
    forall k | 0 <= k < |b| ensures FindStart(r', b[k].start) < |r'| {
      if k < |p| { assert b[k] == p[k]; }
    }
    forall i | 0 <= i < |r'| ensures FindStart(b, r'[i].start) < |b| {
      assert r'[i].start == r[i].start && FindStart(p, r[i].start) < |p|;
    }
  }

  lemma KnownMaxStops(r: seq<Interval>, p: seq<Interval>, n: Interval)
    requires DistinctStarts(r) && MaxStops(r, p) && FindStart(r, n.start) < |r|
    ensures MaxStops(ReduceStep(r, n), p + [n])
  {
    var i := FindStart(r, n.start);
    var r' := ReduceStep(r, n);
    MaxStopAppend(p, n);
    forall j | 0 <= j < |r'| ensures r'[j].stop == MaxStop(p + [n], r'[j].start) {
      if j != i {
        assert r'[j] == r[j] && r[j].start != n.start;
      }
    }
  }

  lemma KnownFirstReasons(r: seq<Interval>, p: seq<Interval>, n: Interval)
    requires SameStarts(r, p) && FirstReasons(r, p) && FindStart(r, n.start) < |r|
    ensures SameStarts(ReduceStep(r, n), p + [n]) && FirstReasons(ReduceStep(r, n), p + [n])
  {
    KnownSameStarts(r, p, n);
    var r', b := ReduceStep(r, n), p + [n];
    FindStartAppendAll(p, n);
    forall j | 0 <= j < |r'| ensures r'[j].reason == b[FindStart(b, r'[j].start)].reason {
      assert r'[j].start == r[j].start && r'[j].reason == r[j].reason;
      assert FindStart(p, r[j].start) < |p|;
    }
  }

  lemma KnownFirstSeenOrder(r: seq<Interval>, p: seq<Interval>, n: Interval)
    requires SameStarts(r, p) && FirstSeenOrder(r, p) && FindStart(r, n.start) < |r|
    ensures FirstSeenOrder(ReduceStep(r, n), p + [n])
  {
    var r', b := ReduceStep(r, n), p + [n];
    FindStartAppendAll(p, n);
    forall i, j | 0 <= i < j < |r'| ensures FindStart(b, r'[i].start) < FindStart(b, r'[j].start) {
      assert r'[i].start == r[i].start && r'[j].start == r[j].start;
      assert FindStart(p, r[i].start) < |p| && FindStart(p, r[j].start) < |p|;
    }
  }

  /** A batch entry with a known start raises that entry's stop when it is later, and changes nothing else. */
  lemma ReduceStepKnown(r: seq<Interval>, p: seq<Interval>, n: Interval)
    requires ReducedFrom(r, p) && FindStart(r, n.start) < |r|
    ensures ReducedFrom(ReduceStep(r, n), p + [n])
  {
    KnownFirstReasons(r, p, n);
    KnownFirstSeenOrder(r, p, n);
    KnownMaxStops(r, p, n);
    KnownShape(r, n);
  }

  /** The reduction keeps one entry per start, with the latest stop and the first entry's other fields, in first-seen order. */
  lemma {:induction false} ReduceCharacterized(batch: seq<Interval>)
    ensures ReducedFrom(Reduce(batch), batch)
  {
    if |batch| > 0 {
      var p, n := batch[..|batch| - 1], batch[|batch| - 1];
      ReduceCharacterized(p);
      assert batch == p + [n];
      if FindStart(Reduce(p), n.start) == |Reduce(p)| {
        ReduceStepNew(Reduce(p), p, n);
      } else {
        ReduceStepKnown(Reduce(p), p, n);
      }
    }
  }

  /** Each distinct incoming start appears exactly once after the reduction. */
  lemma ReduceStartsOnce(batch: seq<Interval>, s: TimeOfDay)
    requires exists k :: 0 <= k < |batch| && batch[k].start == s
    ensures exists i :: 0 <= i < |Reduce(batch)| && Reduce(batch)[i].start == s
    ensures forall i, j :: 0 <= i < |Reduce(batch)| && 0 <= j < |Reduce(batch)| && Reduce(batch)[i].start == s && Reduce(batch)[j].start == s ==> i == j
  {
    ReduceCharacterized(batch);
    var k :| 0 <= k < |batch| && batch[k].start == s;
    assert Reduce(batch)[FindStart(Reduce(batch), batch[k].start)].start == s;
  }

  /** `merged` keyed by start, listed in `order`, holds exactly the entries of `r`. */
  predicate Tabulates(merged: map<TimeOfDay, Interval>, order: seq<TimeOfDay>, r: seq<Interval>) {
    |order| == |r|
    && (forall i :: 0 <= i < |r| ==> order[i] == r[i].start && order[i] in merged && merged[order[i]] == r[i])
    && (forall s :: s in merged ==> FindStart(r, s) < |r|)
  }

  lemma TabulatesNew(merged: map<TimeOfDay, Interval>, order: seq<TimeOfDay>, r: seq<Interval>, n: Interval)
    requires Tabulates(merged, order, r) && n.start !in merged
    ensures FindStart(r, n.start) == |r|
    ensures Tabulates(merged[n.start := n], order + [n.start], ReduceStep(r, n))
  {
    FindStartAppendAll(r, n);
  }

  lemma TabulatesKnown(merged: map<TimeOfDay, Interval>, order: seq<TimeOfDay>, r: seq<Interval>, n: Interval)
    requires Tabulates(merged, order, r) && DistinctStarts(r) && n.start in merged
    ensures FindStart(r, n.start) < |r| && merged[n.start] == r[FindStart(r, n.start)]
    ensures Tabulates(Raised(merged, n), order, ReduceStep(r, n))
  {
    var i := FindStart(r, n.start);
    assert order[i] == n.start;
    KnownShape(r, n);
    KnownRows(merged, order, r, n);
    assert Raised(merged, n).Keys == merged.Keys;
  }

  /** The dictionary after a known start: its entry takes the later stop. */
  function Raised(merged: map<TimeOfDay, Interval>, n: Interval): map<TimeOfDay, Interval>
    requires n.start in merged
  {
    if n.stop > merged[n.start].stop then merged[n.start := merged[n.start].(stop := n.stop)] else merged
  }

  lemma KnownRows(merged: map<TimeOfDay, Interval>, order: seq<TimeOfDay>, r: seq<Interval>, n: Interval)
    requires Tabulates(merged, order, r) && DistinctStarts(r) && n.start in merged
    requires FindStart(r, n.start) < |r| && |ReduceStep(r, n)| == |r|
    ensures forall j :: 0 <= j < |r| ==>
              order[j] == ReduceStep(r, n)[j].start && order[j] in Raised(merged, n) && Raised(merged, n)[order[j]] == ReduceStep(r, n)[j]
  {
    var i := FindStart(r, n.start);
    var r', m' := ReduceStep(r, n), Raised(merged, n);
    assert order[i] == n.start;
    assert m'[n.start] == r'[i];
    forall j | 0 <= j < |r| ensures order[j] == r'[j].start && order[j] in m' && m'[order[j]] == r'[j] {
      if j != i {
        assert r'[j] == r[j];
        assert order[j] != n.start;
      }
    }
  }

  /** The batch reduction as the handler runs it: a dictionary keyed by start, then its values in insertion order. */
  method ReduceBatch(batch: seq<Interval>) returns (processed: seq<Interval>)
    ensures processed == Reduce(batch)
  {
    var merged: map<TimeOfDay, Interval> := map[];
    var order: seq<TimeOfDay> := [];
    var k := 0;
    while k < |batch|
      invariant 0 <= k <= |batch|
      invariant Tabulates(merged, order, Reduce(batch[..k]))
    {
      ghost var r := Reduce(batch[..k]);
      assert batch[..k + 1][..k] == batch[..k];
      assert Reduce(batch[..k + 1]) == ReduceStep(r, batch[k]);
      ReduceCharacterized(batch[..k]);
      merged, order := Tally(merged, order, r, batch[k]);
      k := k + 1;
    }
    assert batch[..k] == batch;
    processed := [];
    var j := 0;
    while j < |order|
      invariant 0 <= j <= |order|
      invariant processed == Reduce(batch)[..j]
    {
      processed := processed + [merged[order[j]]];
      j := j + 1;
    }
  }

  /** One batch entry entered in the dictionary: a new start is inserted at the end of the
      insertion order, a known one keeps its place and takes the later stop. */
  method Tally(merged: map<TimeOfDay, Interval>, order: seq<TimeOfDay>, ghost r: seq<Interval>, n: Interval)
    returns (merged': map<TimeOfDay, Interval>, order': seq<TimeOfDay>)
    requires Tabulates(merged, order, r) && DistinctStarts(r)
    ensures Tabulates(merged', order', ReduceStep(r, n))
  {
    merged', order' := merged, order;
    if n.start !in merged {
      TabulatesNew(merged, order, r, n);
      merged' := merged[n.start := n];
      order' := order + [n.start];
    } else {
      TabulatesKnown(merged, order, r, n);
      if n.stop > merged[n.start].stop {
        merged' := merged[n.start := merged[n.start].(stop := n.stop)];
      }
    }
  }

  // ---------------------------------------------------------------------------
  // Step 2: index the stored entries by start
  // ---------------------------------------------------------------------------

  /** Every key of `idx` names an entry of `logs` with that start. */
  predicate IndexValid(idx: map<TimeOfDay, nat>, logs: seq<Interval>) {
    forall s :: s in idx ==> idx[s] < |logs| && logs[idx[s]].start == s
  }

  /** Start to position of the stored entries; a start stored twice maps to its last position. */
  function StartIndex(logs: seq<Interval>): (idx: map<TimeOfDay, nat>)
    ensures IndexValid(idx, logs)
    ensures forall i :: 0 <= i < |logs| ==> logs[i].start in idx && i <= idx[logs[i].start]
  {
    if |logs| == 0 then map[]
    else
      var p := logs[..|logs| - 1];
      var prior := StartIndex(p);
      assert forall i :: 0 <= i < |p| ==> logs[i] == p[i];
      prior[logs[|logs| - 1].start := |logs| - 1]
  }

  /** The map built by the handler's loop over the stored entries. */
  method BuildStartIndex(logs: seq<Interval>) returns (idx: map<TimeOfDay, nat>)
    ensures idx == StartIndex(logs)
  {
    idx := map[];
    var k := 0;
    while k < |logs|
      invariant 0 <= k <= |logs|
      invariant idx == StartIndex(logs[..k])
    {
      assert logs[..k + 1][..k] == logs[..k];
      idx := idx[logs[k].start := k];
      k := k + 1;
    }
    assert logs[..k] == logs;
  }

  // ---------------------------------------------------------------------------
  // Step 3: fold the reduced batch into the stored entries
  // ---------------------------------------------------------------------------

  /** The closed test: the new start or the new stop lies within the stored entry. */
  predicate EndpointInside(l: Interval, n: Interval) {
    (l.start <= n.start <= l.stop) || (l.start <= n.stop <= l.stop)
  }

  /** The first stored entry that passes the closed test, or `|logs|` when none does. */
  function FirstOverlap(logs: seq<Interval>, n: Interval): (j: nat)
    ensures j <= |logs|
    ensures j < |logs| ==> EndpointInside(logs[j], n)
    ensures forall k :: 0 <= k < j ==> !EndpointInside(logs[k], n)
  {
    if |logs| == 0 then 0
    else if EndpointInside(logs[0], n) then 0
    else 1 + FirstOverlap(logs[1..], n)
  }

  /** Entry `i` takes the stop `stop` when that is later. */
  function Lengthen(logs: seq<Interval>, i: nat, stop: TimeOfDay): seq<Interval>
    requires i < |logs|
  {
    if stop > logs[i].stop then logs[i := logs[i].(stop := stop)] else logs
  }

  /** `r` keeps every entry of `logs` in place, with the same start and reason and a stop no earlier. */
  predicate Extends(logs: seq<Interval>, r: seq<Interval>) {
    |logs| <= |r|
    && forall i :: 0 <= i < |logs| ==>
         r[i].start == logs[i].start && r[i].reason == logs[i].reason && logs[i].stop <= r[i].stop
  }

  lemma ExtendsTransitive(a: seq<Interval>, b: seq<Interval>, c: seq<Interval>)
    requires Extends(a, b) && Extends(b, c)
    ensures Extends(a, c)
  {
  }

  /**
   * One reduced entry meets the stored list: an exact start (looked up in
   * `idx`) takes the later stop; otherwise the first entry passing the closed
   * test does; otherwise the entry is appended with its start and stop only.
   */
  function FoldStep(logs: seq<Interval>, idx: map<TimeOfDay, nat>, n: Interval): (r: seq<Interval>)
    requires IndexValid(idx, logs)
    ensures Extends(logs, r) && |r| <= |logs| + 1
    ensures IndexValid(idx, r)
  {
    if n.start in idx then Lengthen(logs, idx[n.start], n.stop)
    else
      var j := FirstOverlap(logs, n);
      if j == |logs| then logs + [Interval(n.start, n.stop, None)]
      else Lengthen(logs, j, n.stop)
  }

  /** The reduced batch folded into the stored entries in order. */
  function Fold(logs: seq<Interval>, idx: map<TimeOfDay, nat>, ps: seq<Interval>): (r: seq<Interval>)
    requires IndexValid(idx, logs)
    decreases |ps|
  {
    if |ps| == 0 then logs
    else Fold(FoldStep(logs, idx, ps[0]), idx, ps[1..])
  }

  /** Folding never removes an entry, never moves a start, never changes a reason and never shortens a stop; it adds at most one entry per reduced entry. */
  lemma {:induction false} FoldExtends(logs: seq<Interval>, idx: map<TimeOfDay, nat>, ps: seq<Interval>)
    requires IndexValid(idx, logs)
    ensures Extends(logs, Fold(logs, idx, ps))
    ensures |Fold(logs, idx, ps)| <= |logs| + |ps|
    decreases |ps|
  {
    if |ps| > 0 {
      var next := FoldStep(logs, idx, ps[0]);
      FoldExtends(next, idx, ps[1..]);
      ExtendsTransitive(logs, next, Fold(next, idx, ps[1..]));
    }
  }

  /** A reduced entry is appended exactly when its start is not stored and no entry passes the closed test; the new entry has no reason. */
  lemma FoldStepAppends(logs: seq<Interval>, idx: map<TimeOfDay, nat>, n: Interval)
    requires IndexValid(idx, logs)
    ensures |FoldStep(logs, idx, n)| == |logs| + 1 <==>
            n.start !in idx && forall k :: 0 <= k < |logs| ==> !EndpointInside(logs[k], n)
    ensures |FoldStep(logs, idx, n)| == |logs| + 1 ==>
            FoldStep(logs, idx, n) == logs + [Interval(n.start, n.stop, None)]
  {
  }

  /** Entries past the stored ones were appended by the fold: each has no reason, and its start and (at most) its stop come from one reduced entry. */
  predicate AppendedFrom(logs: seq<Interval>, r: seq<Interval>, ps: seq<Interval>) {
    forall i :: |logs| <= i < |r| ==>
      r[i].reason == None && exists n :: n in ps && n.start == r[i].start && n.stop <= r[i].stop
  }

  lemma {:induction false} FoldAppended(logs: seq<Interval>, idx: map<TimeOfDay, nat>, ps: seq<Interval>)
    requires IndexValid(idx, logs)
    ensures AppendedFrom(logs, Fold(logs, idx, ps), ps)
    decreases |ps|
  {
    if |ps| > 0 {
      var next := FoldStep(logs, idx, ps[0]);
      var r := Fold(next, idx, ps[1..]);
      FoldAppended(next, idx, ps[1..]);
      FoldExtends(next, idx, ps[1..]);
      forall i | |logs| <= i < |r|
        ensures r[i].reason == None && exists n :: n in ps && n.start == r[i].start && n.stop <= r[i].stop
      {
        if i < |next| {
          assert i == |logs| && next[i] == Interval(ps[0].start, ps[0].stop, None);
          assert ps[0] in ps;
        } else {
          var n :| n in ps[1..] && n.start == r[i].start && n.stop <= r[i].stop;
          assert n in ps;
        }
      }
    }
  }

  /** The positions in `ps` of the reduced entries that the fold appends, in processing order. */
  function AppendedPositions(logs: seq<Interval>, idx: map<TimeOfDay, nat>, ps: seq<Interval>): (ids: seq<nat>)
    requires IndexValid(idx, logs)
    ensures Increasing(ids)
    decreases |ps|
  {
    if |ps| == 0 then []
    else
      var next := FoldStep(logs, idx, ps[0]);
      ConsPositions(|next| == |logs| + 1, AppendedPositions(next, idx, ps[1..]))
  }

  /** Each position one past the matching one of `ids`. */
  function Shifted(ids: seq<nat>): (r: seq<nat>)
    ensures |r| == |ids|
    ensures forall i :: 0 <= i < |ids| ==> r[i] == ids[i] + 1
  {
    if |ids| == 0 then []
    else
      var rest := Shifted(ids[1..]);
      assert forall i :: 0 < i < |ids| ==> ([ids[0] + 1] + rest)[i] == ids[i] + 1;
      [ids[0] + 1] + rest
  }

  /**
   * `r` is `logs` followed by one entry per position of `ids`, in increasing
   * order of position: entry `|logs| + i` has the start of reduced entry
   * `ps[ids[i]]`, no reason, and a stop no earlier than its stop.
   */
  predicate AppendedInOrder(logs: seq<Interval>, r: seq<Interval>, ps: seq<Interval>, ids: seq<nat>) {
    |r| == |logs| + |ids|
    && Increasing(ids)
    && forall i :: 0 <= i < |ids| ==>
         ids[i] < |ps| && r[|logs| + i].start == ps[ids[i]].start
         && r[|logs| + i].reason == None && ps[ids[i]].stop <= r[|logs| + i].stop
  }

  predicate Increasing(ids: seq<nat>) {
    forall i, j :: 0 <= i < j < |ids| ==> ids[i] < ids[j]
  }

  /** The positions of a batch with its first entry put back in front. */
  function ConsPositions(appended: bool, later: seq<nat>): (ids: seq<nat>)
    requires Increasing(later)
    ensures Increasing(ids)
    ensures |ids| == |later| + (if appended then 1 else 0)
    ensures appended ==> ids[0] == 0 && forall k :: 0 <= k < |later| ==> ids[k + 1] == later[k] + 1
    ensures !appended ==> forall k :: 0 <= k < |later| ==> ids[k] == later[k] + 1
  {
    var sh := Shifted(later);
    assert Increasing(sh) by {
      forall i, j | 0 <= i < j < |sh| ensures sh[i] < sh[j] {
        assert sh[i] == later[i] + 1 && sh[j] == later[j] + 1;
      }
    }
    if appended then
      assert forall j :: 0 < j < |sh| + 1 ==> ([0] + sh)[j] == sh[j - 1];
      [0] + sh
    else sh
  }

  /** Putting the first reduced entry in front: its own append, if any, comes before all later ones. */
  lemma AppendedInOrderCons(logs: seq<Interval>, next: seq<Interval>, r: seq<Interval>, ps: seq<Interval>, later: seq<nat>, appended: bool)
    requires |ps| > 0
    requires AppendedInOrder(next, r, ps[1..], later)
    requires |next| == |logs| + (if appended then 1 else 0)
    requires appended ==> r[|logs|].start == ps[0].start && r[|logs|].reason == None && ps[0].stop <= r[|logs|].stop
    ensures AppendedInOrder(logs, r, ps, ConsPositions(appended, later))
  {
    var ids := ConsPositions(appended, later);
    var d := |ids| - |later|;
    assert |logs| + d == |next|;
    forall i | 0 <= i < |ids|
      ensures ids[i] < |ps| && r[|logs| + i].start == ps[ids[i]].start
              && r[|logs| + i].reason == None && ps[ids[i]].stop <= r[|logs| + i].stop
    {
      if i >= d {
        var k := i - d;
        assert ids[i] == later[k] + 1 by {
          if appended { assert ids[k + 1] == later[k] + 1; } else { assert ids[k] == later[k] + 1; }
        }
        assert later[k] < |ps[1..]| && r[|next| + k].start == ps[1..][later[k]].start
               && r[|next| + k].reason == None && ps[1..][later[k]].stop <= r[|next| + k].stop;
        assert ps[ids[i]] == ps[1..][later[k]];
      }
    }
  }


  /**
   * The fold ends with the stored entries plus one entry per appended
   * reduced entry, and the appended entries follow the stored ones in the
   * order the batch was processed.
   */
  lemma {:induction false} FoldAppendsInOrder(logs: seq<Interval>, idx: map<TimeOfDay, nat>, ps: seq<Interval>)
    requires IndexValid(idx, logs)
    ensures AppendedInOrder(logs, Fold(logs, idx, ps), ps, AppendedPositions(logs, idx, ps))
    decreases |ps|
  {
    if |ps| > 0 {
      var next := FoldStep(logs, idx, ps[0]);
      var appended := |next| == |logs| + 1;
      FoldAppendsInOrder(next, idx, ps[1..]);
      FoldExtends(next, idx, ps[1..]);
      FoldStepAppends(logs, idx, ps[0]);
      var r := Fold(next, idx, ps[1..]);
      if appended {
        assert r[|logs|].start == next[|logs|].start && r[|logs|].reason == next[|logs|].reason && next[|logs|].stop <= r[|logs|].stop;
      }
      AppendedInOrderCons(logs, next, Fold(next, idx, ps[1..]), ps, AppendedPositions(next, idx, ps[1..]), appended);
    }
  }

  /** Stored entry `l` accounts for reduced entry `n`: it reaches `n`'s stop and shares its start or contains one of its endpoints. */
  predicate Covers(l: Interval, n: Interval) {
    n.stop <= l.stop && (l.start == n.start || EndpointInside(l, n))
  }

  /** Some entry of `r` accounts for `n`. */
  predicate Covered(r: seq<Interval>, n: Interval) {
    exists j :: 0 <= j < |r| && Covers(r[j], n)
  }

  lemma CoversExtended(logs: seq<Interval>, r: seq<Interval>, n: Interval)
    requires Extends(logs, r) && Covered(logs, n)
    ensures Covered(r, n)
  {
    var j :| 0 <= j < |logs| && Covers(logs[j], n);
    assert Covers(r[j], n);
  }

  lemma FoldStepCovers(logs: seq<Interval>, idx: map<TimeOfDay, nat>, n: Interval)
    requires IndexValid(idx, logs)
    ensures Covered(FoldStep(logs, idx, n), n)
  {
    var r := FoldStep(logs, idx, n);
    if n.start in idx {
      assert Covers(r[idx[n.start]], n);
    } else {
      var j := FirstOverlap(logs, n);
      assert Covers(r[j], n);
    }
  }

  /** After the fold every reduced entry is accounted for by some stored entry. */
  lemma {:induction false} FoldCovers(logs: seq<Interval>, idx: map<TimeOfDay, nat>, ps: seq<Interval>)
    requires IndexValid(idx, logs)
    ensures forall n :: n in ps ==> Covered(Fold(logs, idx, ps), n)
    decreases |ps|
  {
    if |ps| > 0 {
      var next := FoldStep(logs, idx, ps[0]);
      var r := Fold(next, idx, ps[1..]);
      assert Fold(logs, idx, ps) == r;
      FoldCovers(next, idx, ps[1..]);
      forall n | n in ps ensures Covered(r, n) {
        if n == ps[0] {
          FoldStepCovers(logs, idx, n);
          FoldExtends(next, idx, ps[1..]);
          CoversExtended(next, r, n);
        } else {
          assert n in ps[1..];
        }
      }
    }
  }

  /** The in-place fold the handler runs over the stored document. */
  method MergeIntoStored(doc: TimerLog, processed: seq<Interval>)
    modifies doc
    ensures doc.logs == Fold(old(doc.logs), StartIndex(old(doc.logs)), processed)
  {
    var idx := BuildStartIndex(doc.logs);
    ghost var original := doc.logs;
    var k := 0;
    while k < |processed|
      invariant 0 <= k <= |processed|
      invariant IndexValid(idx, doc.logs)
      invariant Fold(doc.logs, idx, processed[k..]) == Fold(original, idx, processed)
    {
      assert processed[k..][1..] == processed[k + 1..];
      FoldOne(doc, idx, processed[k]);
      k := k + 1;
    }
  }

  /** One reduced entry met by the stored entries, in place. */
  method FoldOne(doc: TimerLog, idx: map<TimeOfDay, nat>, n: Interval)
    requires IndexValid(idx, doc.logs)
    modifies doc
    ensures doc.logs == FoldStep(old(doc.logs), idx, n)
  {
    if n.start in idx {
      var i := idx[n.start];
      if n.stop > doc.logs[i].stop {
        doc.logs := doc.logs[i := doc.logs[i].(stop := n.stop)];
      }
    } else {
      var j := FirstOverlap(doc.logs, n);
      if j == |doc.logs| {
        doc.logs := doc.logs + [Interval(n.start, n.stop, None)];
      } else if n.stop > doc.logs[j].stop {
        doc.logs := doc.logs[j := doc.logs[j].(stop := n.stop)];
      }
    }
  }

  /**
   * One day of the upload.  `stored` is the log found for (user, date,
   * project), if any; the lookup ignores source and time type, so a stored
   * log keeps its own.  Returns the document that is then saved.
   */
  method IngestDay(stored: TimerLog?, date: Day, project: Option<ProjectId>, source: string, timeType: string,
                   batch: seq<Interval>) returns (doc: TimerLog)
    requires stored != null ==> stored.date == date && stored.project == project
    modifies stored
    ensures stored == null ==> fresh(doc) && doc.logs == Reduce(batch)
    ensures stored == null ==> doc.date == date && doc.project == project && doc.source == source && doc.timeType == timeType
    ensures stored != null ==> doc == stored && doc.logs == Fold(old(stored.logs), StartIndex(old(stored.logs)), Reduce(batch))
  {
    var processed := ReduceBatch(batch);
    if stored == null {
      doc := new TimerLog(date, project, source, timeType, processed);
    } else {
      doc := stored;
      MergeIntoStored(doc, processed);
    }
  }

  /** The entries stored for one day after an upload, as a function of what was stored before. */
  function Ingested(stored: Option<seq<Interval>>, batch: seq<Interval>): seq<Interval> {
    match stored
    case None => Reduce(batch)
    case Some(logs) => Fold(logs, StartIndex(logs), Reduce(batch))
  }

  // ---------------------------------------------------------------------------
  // What the fold does not do
  // ---------------------------------------------------------------------------

  /**
   * A reduced entry that strictly contains a stored one passes neither test:
   * it is appended, and the stored list then overlaps itself
   * (stored 09:15:00-09:30:00, incoming 09:00:00-10:00:00).
   */
  lemma ContainmentAppended()
    ensures Ingested(Some([Interval(33300, 34200, None)]), [Interval(32400, 36000, None)])
            == [Interval(33300, 34200, None), Interval(32400, 36000, None)]
  {
    var stored, n := [Interval(33300, 34200, None)], Interval(32400, 36000, None);
    assert Reduce([n]) == [n] by { assert [n][..0] == []; }
    assert StartIndex(stored) == map[33300 := 0] by { assert stored[..0] == []; }
    assert FirstOverlap(stored, n) == 1;
    assert FoldStep(stored, map[33300 := 0], n) == stored + [n];
  }

  /**
   * An incoming entry that starts before a stored one and stops inside it
   * only offers its stop, which is not later: the earlier start is lost
   * (stored 09:15:00-09:30:00, incoming 09:00:00-09:20:00).
   */
  lemma EarlierStartLost()
    ensures Ingested(Some([Interval(33300, 34200, None)]), [Interval(32400, 33600, None)])
            == [Interval(33300, 34200, None)]
  {
    var stored, n := [Interval(33300, 34200, None)], Interval(32400, 33600, None);
    assert Reduce([n]) == [n] by { assert [n][..0] == []; }
    assert StartIndex(stored) == map[33300 := 0] by { assert stored[..0] == []; }
    assert FirstOverlap(stored, n) == 0;
    assert FoldStep(stored, map[33300 := 0], n) == stored;
  }

  /**
   * Uploading the same batch twice does not leave the log as the first upload
   * did: stored 09:00:00-09:10:00 and 09:20:00-09:40:00, batch 09:25:00-09:45:00
   * then 09:05:00-09:30:00.  The first upload lengthens the second stored entry
   * to 09:45:00 and the first to 09:30:00; the second upload finds 09:25:00
   * inside the first entry now and lengthens that one to 09:45:00.
   */
  lemma ReingestNotIdempotent()
    ensures var stored := [Interval(32400, 33000, None), Interval(33600, 34800, None)];
            var batch := [Interval(33900, 35100, None), Interval(32700, 34200, None)];
            var once := Ingested(Some(stored), batch);
            once == [Interval(32400, 34200, None), Interval(33600, 35100, None)]
            && Ingested(Some(once), batch) == [Interval(32400, 35100, None), Interval(33600, 35100, None)]
            && Ingested(Some(once), batch) != once
  {
    var stored := [Interval(32400, 33000, None), Interval(33600, 34800, None)];
    var n, m := Interval(33900, 35100, None), Interval(32700, 34200, None);
    var once := [Interval(32400, 34200, None), Interval(33600, 35100, None)];
    var idx := map[32400 := 0, 33600 := 1];
    ReducePair(n, m);
    StartIndexOfPair(stored[0], stored[1]);
    assert stored == [stored[0], stored[1]];
    StartIndexOfPair(once[0], once[1]);
    assert once == [once[0], once[1]];
    FirstUploadFolds(stored, idx, n, m);
    SecondUploadFolds(once, idx, n, m);
  }

  lemma ReducePair(n: Interval, m: Interval)
    requires n.start != m.start
    ensures Reduce([n, m]) == [n, m]
  {
    assert [n, m][..1] == [n] && [n][..0] == [];
    assert Reduce([n]) == [n];
  }

  lemma StartIndexOfPair(a: Interval, b: Interval)
    requires a.start != b.start
    ensures StartIndex([a, b]) == map[a.start := 0, b.start := 1]
  {
    assert [a, b][..1] == [a] && [a][..0] == [];
  }

  lemma FoldPair(logs: seq<Interval>, idx: map<TimeOfDay, nat>, n: Interval, m: Interval)
    requires IndexValid(idx, logs)
    ensures Fold(logs, idx, [n, m]) == FoldStep(FoldStep(logs, idx, n), idx, m)
  {
    assert [n, m][1..] == [m] && [m][1..] == [];
    var a := FoldStep(logs, idx, n);
    assert Fold(logs, idx, [n, m]) == Fold(a, idx, [m]);
    assert Fold(a, idx, [m]) == Fold(FoldStep(a, idx, m), idx, []);
  }

  /** The first upload of the example batch. */
  lemma FirstUploadFolds(stored: seq<Interval>, idx: map<TimeOfDay, nat>, n: Interval, m: Interval)
    requires stored == [Interval(32400, 33000, None), Interval(33600, 34800, None)]
    requires idx == map[32400 := 0, 33600 := 1]
    requires n == Interval(33900, 35100, None) && m == Interval(32700, 34200, None)
    ensures IndexValid(idx, stored)
    ensures Fold(stored, idx, [n, m]) == [Interval(32400, 34200, None), Interval(33600, 35100, None)]
  {
    var mid := [Interval(32400, 33000, None), Interval(33600, 35100, None)];
    FoldPair(stored, idx, n, m);
    assert FirstOverlap(stored, n) == 1;
    assert FoldStep(stored, idx, n) == mid;
    assert FirstOverlap(mid, m) == 0;
  }

  /** The same batch uploaded again over the result of the first upload. */
  lemma SecondUploadFolds(once: seq<Interval>, idx: map<TimeOfDay, nat>, n: Interval, m: Interval)
    requires once == [Interval(32400, 34200, None), Interval(33600, 35100, None)]
    requires idx == map[32400 := 0, 33600 := 1]
    requires n == Interval(33900, 35100, None) && m == Interval(32700, 34200, None)
    ensures IndexValid(idx, once)
    ensures Fold(once, idx, [n, m]) == [Interval(32400, 35100, None), Interval(33600, 35100, None)]
  {
    var twice := [Interval(32400, 35100, None), Interval(33600, 35100, None)];
    FoldPair(once, idx, n, m);
    assert FirstOverlap(once, n) == 0;
    assert FoldStep(once, idx, n) == twice;
    assert FirstOverlap(twice, m) == 0;
  }
}
