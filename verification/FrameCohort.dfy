/** Selecting the frames between two markers and charging instrumented work to them. */
module FrameCohort {
  import opened Results
  import opened Sorting
  import opened FrameMetrics
  import opened FrameWork

  // ---------------------------------------------------------------- ordered frames

  /** Frames in time order that share at most an instant. */
  ghost predicate Ordered(frames: seq<Interval>) {
    && (forall i :: 0 <= i < |frames| ==> frames[i].start <= frames[i].end)
    && (forall i, j :: 0 <= i < j < |frames| ==> frames[i].end <= frames[j].start)
  }

  predicate NeighboursApart(frames: seq<Interval>) {
    forall i :: 0 <= i < |frames| - 1 ==> frames[i].end <= frames[i + 1].start
  }

  lemma {:induction false} NeighboursOrder(frames: seq<Interval>)
    requires forall i :: 0 <= i < |frames| ==> frames[i].start <= frames[i].end
    requires NeighboursApart(frames)
    ensures Ordered(frames)
  {
    if frames != [] {
      var front := frames[..|frames| - 1];
      NeighboursOrder(front);
      forall i | 0 <= i < |front| ensures frames[i].end <= frames[|front|].start {
        var k := |front| - 1;
        assert frames[k].end <= frames[k + 1].start;
        assert i < k ==> front[i].end <= front[k].start;
      }
    }
  }

  /** An overlap between sorted neighbours is one that no other order can remove. */
  lemma NoOrderedArrangement(sorted: seq<Interval>, p: seq<Interval>)
    requires SortedBy(sorted, LexLe) && multiset(sorted) == multiset(p)
    requires !NeighboursApart(sorted)
    ensures !Ordered(p)
  {
    if Ordered(p) {
      assert SortedBy(p, LexLe);
      SortedUnique(p, sorted, LexLe);
    }
  }

  /** Sorting accepts a list of frames exactly when some order of it is free of overlap. */
  method OrderFrames(rows: seq<Interval>) returns (r: Result<seq<Interval>, string>)
    requires forall row :: row in rows ==> row.start <= row.end
    ensures r.Ok? ==> Ordered(r.value) && multiset(r.value) == multiset(rows)
    ensures r.Err? ==> forall p :: multiset(p) == multiset(rows) ==> !Ordered(p)
  {
    var frames := Sort(rows, LexLe);
    SortSorts(rows, LexLe);
    if !NeighboursApart(frames) {
      forall p | multiset(p) == multiset(rows) ensures !Ordered(p) { NoOrderedArrangement(frames, p); }
      return Err("Overlapping/unordered rendering frames");
    }
    SameElements(frames, rows);
    assert forall k :: 0 <= k < |frames| ==> frames[k] in rows;
    NeighboursOrder(frames);
    return Ok(frames);
  }

  // ---------------------------------------------------------------- select_frames

  datatype SelectError = ReversedMarkers | MissingCohort | MissingGuardFrame | TruncatedGuardFrame

  predicate Meets(frame: Interval, start: int, end: int) { frame.start <= end && frame.end >= start }

  /** A frame meets the markers when they have an instant in common, be it one of its ends. */
  lemma MeetsExactly(frame: Interval, start: int, end: int)
    requires frame.start <= frame.end && start <= end
    ensures Meets(frame, start, end) <==> exists t :: At(frame.start, t, frame.end) && At(start, t, end)
  {
    if Meets(frame, start, end) {
      var t := if frame.start <= start then start else frame.start;
      assert At(frame.start, t, frame.end) && At(start, t, end);
    }
  }

  predicate At(start: int, t: int, end: int) { start <= t <= end }

  predicate Consecutive(s: seq<nat>) { forall i :: 0 <= i < |s| ==> s[i] == s[0] + i }

  /** After a frame that meets the markers, a later one fails to only by starting too late. */
  lemma StaysMet(frames: seq<Interval>, a: nat, i: nat, start: int, end: int)
    requires Ordered(frames) && a < i < |frames| && Meets(frames[a], start, end)
    ensures Meets(frames[i], start, end) <==> frames[i].start <= end
    ensures Meets(frames[i], start, end) ==> frames[i - 1].start <= end
  {
  }

  /** The comprehension over all frames; the frames it keeps are consecutive. */
  method MeetingFrames(frames: seq<Interval>, start: int, end: int) returns (selected: seq<nat>)
    requires Ordered(frames)
    ensures Consecutive(selected)
    ensures forall k :: k in selected ==> k < |frames|
    ensures forall k :: 0 <= k < |frames| ==> (k in selected <==> Meets(frames[k], start, end))
  {
    selected := [];
    for i := 0 to |frames|
      invariant Consecutive(selected)
      invariant forall k :: k in selected ==> k < i
      invariant forall k :: 0 <= k < i ==> (k in selected <==> Meets(frames[k], start, end))
      invariant selected != [] && selected[|selected| - 1] + 1 < i ==> frames[i - 1].start > end
    {
      if selected != [] {
        assert selected[|selected| - 1] in selected;
        StaysMet(frames, selected[|selected| - 1], i, start, end);
      }
      if Meets(frames[i], start, end) {
        selected := selected + [i];
      }
    }
  }

  /**
   The selection is exactly the run of frames that meet the marker interval. Of the four guards
   only reversed markers, an empty selection and a missing neighbour can fire.
   */
  method SelectFrames(frames: seq<Interval>, bounds: Interval, start: int, end: int)
    returns (r: Result<seq<nat>, SelectError>)
    requires Ordered(frames)
    requires forall f :: f in frames ==> bounds.start <= f.start && f.end <= bounds.end
    ensures r == Err(ReversedMarkers) <==> start >= end
    ensures r == Err(MissingCohort) <==> start < end && forall i :: 0 <= i < |frames| ==> !Meets(frames[i], start, end)
    ensures r == Err(MissingGuardFrame) <==>
              start < end && frames != [] && (Meets(frames[0], start, end) || Meets(frames[|frames| - 1], start, end))
    ensures r != Err(TruncatedGuardFrame)
    ensures r.Ok? ==> Interior(frames, r.value)
    ensures r.Ok? ==> start < end && forall i :: 0 <= i < |frames| ==> (i in r.value <==> Meets(frames[i], start, end))
  {
    if start >= end { return Err(ReversedMarkers); }
    var selected := MeetingFrames(frames, start, end);
    if selected == [] || !Consecutive(selected) { return Err(MissingCohort); }
    var first, last := selected[0], selected[|selected| - 1];
    assert first in selected && last in selected;
    if first == 0 || last + 1 >= |frames| { return Err(MissingGuardFrame); }
    assert frames[first - 1] in frames && frames[last + 1] in frames;
    if frames[first - 1].start < bounds.start || frames[last + 1].end > bounds.end {
      assert false;
      return Err(TruncatedGuardFrame);
    }
    return Ok(selected);
  }

  ghost predicate Interior(frames: seq<Interval>, selected: seq<nat>) {
    && selected != [] && Consecutive(selected)
    && 0 < selected[0] && selected[|selected| - 1] + 1 < |frames|
  }

  // ---------------------------------------------------------------- analyze_frames

  function Assignment(frames: seq<Interval>, i: nat): Interval
    requires 0 < i && i + 1 < |frames|
  {
    Interval(frames[i - 1].end, frames[i + 1].start)
  }

  ghost function Work(ivs: seq<Interval>, window: Interval): nat {
    Measure(ivs, window.start, window.end)
  }

  /** Work in the gap after frame `i`. */
  ghost function GapWork(ivs: seq<Interval>, frames: seq<Interval>, i: nat): nat
    requires i + 1 < |frames|
  {
    Measure(ivs, frames[i].end, frames[i + 1].start)
  }

  /** Work in the gaps after the frames `from <= i < past`. */
  ghost function GapSum(ivs: seq<Interval>, frames: seq<Interval>, from: nat, past: nat): nat
    requires from <= past && past < |frames|
    decreases past
  {
    if from == past then 0 else GapSum(ivs, frames, from, past - 1) + GapWork(ivs, frames, past - 1)
  }

  datatype FrameRow = FrameRow(index: nat, frame: Interval, assignment: Interval,
                               rawTask: int, rawCombined: int, gateTask: int, gateCombined: int)

  ghost predicate RowExact(row: FrameRow, frames: seq<Interval>, tasks: seq<Interval>, combined: seq<Interval>, i: nat)
    requires 0 < i && i + 1 < |frames|
  {
    && row.index == i && row.frame == frames[i] && row.assignment == Assignment(frames, i)
    && row.rawTask == Work(tasks, frames[i]) && row.rawCombined == Work(combined, frames[i])
    && row.gateTask == Work(tasks, Assignment(frames, i)) && row.gateCombined == Work(combined, Assignment(frames, i))
  }

  ghost function RawTotal(rows: seq<FrameRow>): int {
    if rows == [] then 0 else RawTotal(rows[..|rows| - 1]) + rows[|rows| - 1].rawCombined
  }

  ghost function GateTotal(rows: seq<FrameRow>): int {
    if rows == [] then 0 else GateTotal(rows[..|rows| - 1]) + rows[|rows| - 1].gateCombined
  }

  /** The metrics of the five columns of a report. */
  datatype Figures = Figures(envelope: Metrics, rawTask: Metrics, rawCombined: Metrics, gateTask: Metrics,
                             gateCombined: Metrics)

  datatype Report = Report(rows: seq<FrameRow>, gaps: seq<Interval>, uniqueGap: int, summedGap: int,
                           duplicated: int, relevant: nat, accounting: Interval,
                           taskRecords: nat, gcRecords: nat, figures: Figures)

  datatype AnalysisError = InvalidAssignment | UnionExceedsWindow | UnassignedWork | InvalidMetrics

  /** A frame's gate work is its own work plus the gap on either side. */
  lemma GateSplits(ivs: seq<Interval>, frames: seq<Interval>, i: nat)
    requires Ordered(frames) && 0 < i && i + 1 < |frames|
    ensures Work(ivs, Assignment(frames, i))
            == GapWork(ivs, frames, i - 1) + Work(ivs, frames[i]) + GapWork(ivs, frames, i)
  {
    var a := Assignment(frames, i);
    MeasureAdditive(ivs, a.start, frames[i].start, a.end);
    MeasureAdditive(ivs, frames[i].start, frames[i].end, a.end);
  }

  lemma CombinedAtLeast(tasks: seq<Interval>, gc: seq<Interval>, window: Interval)
    requires window.start <= window.end
    ensures Work(tasks, window) <= Work(tasks + gc, window) <= window.end - window.start
  {
    forall k | Covered(tasks, k) ensures Covered(tasks + gc, k) {
      var i :| 0 <= i < |tasks| && tasks[i].start <= k < tasks[i].end;
      assert (tasks + gc)[i] == tasks[i];
    }
    MeasureMonotone(tasks, tasks + gc, window.start, window.end);
  }

  /** Rows hold the exact measures of the frames from `first` on. */
  ghost predicate RowsExact(rows: seq<FrameRow>, frames: seq<Interval>, tasks: seq<Interval>,
                            combined: seq<Interval>, first: nat)
  {
    && 0 < first && first + |rows| < |frames|
    && forall j :: 0 <= j < |rows| ==> RowExact(rows[j], frames, tasks, combined, first + j)
  }

  /** Each gate is charged both of its gaps, so the gaps are summed over two overlapping ranges. */
  lemma {:induction false} GateAccounting(rows: seq<FrameRow>, frames: seq<Interval>, tasks: seq<Interval>,
                                          combined: seq<Interval>, first: nat)
    requires Ordered(frames) && RowsExact(rows, frames, tasks, combined, first)
    ensures GateTotal(rows) == RawTotal(rows) + GapSum(combined, frames, first - 1, first + |rows| - 1)
                               + GapSum(combined, frames, first, first + |rows|)
  {
    hide Measure, Covered;
    if rows != [] {
      var n := |rows| - 1;
      var i := first + n;
      GateAccounting(rows[..n], frames, tasks, combined, first);
      assert RowExact(rows[n], frames, tasks, combined, i);
      GateSplits(combined, frames, i);
      assert GapSum(combined, frames, first - 1, i)
             == GapSum(combined, frames, first - 1, i - 1) + GapWork(combined, frames, i - 1);
      assert GapSum(combined, frames, first, i + 1)
             == GapSum(combined, frames, first, i) + GapWork(combined, frames, i);
    }
  }

  /** Work from the end of the frame before to the start of the frame after is raw work plus each gap once. */
  lemma {:induction false} WindowAccounting(rows: seq<FrameRow>, frames: seq<Interval>, tasks: seq<Interval>,
                                            combined: seq<Interval>, first: nat)
    requires Ordered(frames) && RowsExact(rows, frames, tasks, combined, first)
    ensures Measure(combined, frames[first - 1].end, frames[first + |rows|].start)
            == RawTotal(rows) + GapSum(combined, frames, first - 1, first + |rows|)
  {
    hide Measure, Covered;
    if rows != [] {
      var n := |rows| - 1;
      WindowAccounting(rows[..n], frames, tasks, combined, first);
      assert RowExact(rows[n], frames, tasks, combined, first + n);
      var start, last, next := frames[first - 1].end, frames[first + n], frames[first + n + 1];
      MeasureAdditive(combined, start, last.start, next.start);
      MeasureAdditive(combined, last.start, last.end, next.start);
    }
  }

  /**
   The gates sum to the raw work plus the two boundary gaps once and every interior gap twice, and
   raw work plus each gap once is exactly the work of the whole accounting window.
   */
  lemma GapAccounting(rows: seq<FrameRow>, frames: seq<Interval>, tasks: seq<Interval>,
                      combined: seq<Interval>, first: nat)
    requires Ordered(frames) && rows != [] && RowsExact(rows, frames, tasks, combined, first)
    ensures var last := first + |rows| - 1;
            && GateTotal(rows) == RawTotal(rows) + GapWork(combined, frames, first - 1)
                                  + 2 * GapSum(combined, frames, first, last) + GapWork(combined, frames, last)
            && Measure(combined, frames[first - 1].end, frames[last + 1].start)
               == RawTotal(rows) + GapSum(combined, frames, first - 1, last + 1)
            && GapSum(combined, frames, first - 1, last + 1)
               == GapWork(combined, frames, first - 1) + GapSum(combined, frames, first, last)
                 + GapWork(combined, frames, last)
  {
    GateAccounting(rows, frames, tasks, combined, first);
    WindowAccounting(rows, frames, tasks, combined, first);
    GapSumHead(combined, frames, first - 1, first + |rows|);
    if |rows| > 1 { GapSumHead(combined, frames, first - 1, first + |rows| - 1); }
  }

  lemma {:induction false} GapSumHead(ivs: seq<Interval>, frames: seq<Interval>, from: nat, past: nat)
    requires from < past < |frames|
    ensures GapSum(ivs, frames, from, past) == GapWork(ivs, frames, from) + GapSum(ivs, frames, from + 1, past)
    decreases past
  {
    if past - from > 1 { GapSumHead(ivs, frames, from, past - 1); }
  }

  predicate MeetsAny(interval: Interval, windows: seq<Interval>) {
    exists w :: w in windows && Intersect(interval, w).Some?
  }

  /** Work inside the accounting window lies inside the assignment window of some selected frame. */
  lemma AssignedSomewhere(interval: Interval, frames: seq<Interval>, first: nat, last: nat)
    requires Ordered(frames) && 0 < first <= last && last + 1 < |frames|
    requires Intersect(interval, Interval(frames[first - 1].end, frames[last + 1].start)).Some?
    ensures exists i :: first <= i <= last && Intersect(interval, Assignment(frames, i)).Some?
  {
    var k := if interval.start >= frames[first - 1].end then interval.start else frames[first - 1].end;
    var i := first;
    while k >= frames[i + 1].start
      invariant first <= i <= last && frames[i - 1].end <= k < frames[last + 1].start
      decreases last - i
    {
      i := i + 1;
    }
    assert Intersect(interval, Assignment(frames, i)).Some?;
  }

  method FrameRows(frames: seq<Interval>, tasks: seq<Interval>, gc: seq<Interval>, selected: seq<nat>)
    returns (r: Result<seq<FrameRow>, AnalysisError>)
    requires Ordered(frames) && Interior(frames, selected)
    ensures r.Ok? && |r.value| == |selected| && RowsExact(r.value, frames, tasks, tasks + gc, selected[0])
  {
    var combined := tasks + gc;
    var rows := [];
    for j := 0 to |selected|
      invariant |rows| == j
      invariant RowsExact(rows, frames, tasks, combined, selected[0])
    {
      var i := selected[j];
      var frame, assignment := frames[i], Interval(frames[i - 1].end, frames[i + 1].start);
      if !(assignment.start <= frame.start <= frame.end <= assignment.end) {
        assert false;
        return Err(InvalidAssignment);
      }
      var rawTask := UnionLength(tasks, Some(frame));
      var rawCombined := UnionLength(combined, Some(frame));
      var gateTask := UnionLength(tasks, Some(assignment));
      var gateCombined := UnionLength(combined, Some(assignment));
      CombinedAtLeast(tasks, gc, frame);
      GateSplits(combined, frames, i);
      if !(rawTask <= rawCombined <= frame.end - frame.start && rawCombined <= gateCombined) {
        assert false;
        return Err(UnionExceedsWindow);
      }
      rows := rows + [FrameRow(i, frame, assignment, rawTask, rawCombined, gateTask, gateCombined)];
    }
    return Ok(rows);
  }

  lemma AssignmentsExact(rows: seq<FrameRow>, frames: seq<Interval>, tasks: seq<Interval>,
                         combined: seq<Interval>, first: nat)
    requires RowsExact(rows, frames, tasks, combined, first)
    ensures forall j :: 0 <= j < |rows| ==> rows[j].assignment == Assignment(frames, first + j)
  {
    forall j | 0 <= j < |rows| ensures rows[j].assignment == Assignment(frames, first + j) {
      assert RowExact(rows[j], frames, tasks, combined, first + j);
    }
  }

  method GapWindows(frames: seq<Interval>, combined: seq<Interval>, first: nat, last: nat)
    returns (gaps: seq<Interval>, uniqueGap: int)
    requires Ordered(frames) && 0 < first <= last && last + 1 < |frames|
    ensures |gaps| == last - first + 2
    ensures forall j :: 0 <= j < |gaps| ==> gaps[j] == Interval(frames[first - 1 + j].end, frames[first + j].start)
    ensures uniqueGap == GapSum(combined, frames, first - 1, last + 1)
  {
    gaps, uniqueGap := [], 0;
    for i := first - 1 to last + 1
      invariant |gaps| == i - (first - 1)
      invariant forall j :: 0 <= j < |gaps| ==> gaps[j] == Interval(frames[first - 1 + j].end, frames[first + j].start)
      invariant uniqueGap == GapSum(combined, frames, first - 1, i)
    {
      var gap := Interval(frames[i].end, frames[i + 1].start);
      var work := UnionLength(combined, Some(gap));
      gaps, uniqueGap := gaps + [gap], uniqueGap + work;
    }
  }

  method SummedGaps(rows: seq<FrameRow>) returns (summedGap: int)
    ensures summedGap == GateTotal(rows) - RawTotal(rows)
  {
    summedGap := 0;
    for j := 0 to |rows|
      invariant summedGap == GateTotal(rows[..j]) - RawTotal(rows[..j])
    {
      assert rows[..j + 1][..j] == rows[..j];
      summedGap := summedGap + (rows[j].gateCombined - rows[j].rawCombined);
    }
    assert rows[..|rows|] == rows;
  }

  function AccountingOf(frames: seq<Interval>, first: nat, last: nat): Interval
    requires 0 < first && first <= last && last + 1 < |frames|
  {
    Interval(frames[first - 1].end, frames[last + 1].start)
  }

  /** How many of the first `n` intervals have work in common with the window. */
  function MeetingCount(ivs: seq<Interval>, window: Interval, n: nat): nat
    requires n <= |ivs|
  {
    if n == 0 then 0 else MeetingCount(ivs, window, n - 1) + if Intersect(ivs[n - 1], window).Some? then 1 else 0
  }

  /** Counts the intervals with positive work inside the accounting window; none is left unassigned. */
  method RelevantWork(combined: seq<Interval>, frames: seq<Interval>, rows: seq<FrameRow>, first: nat)
    returns (r: Result<nat, AnalysisError>)
    requires Ordered(frames) && rows != [] && 0 < first && first + |rows| < |frames|
    requires forall j :: 0 <= j < |rows| ==> rows[j].assignment == Assignment(frames, first + j)
    ensures r.Ok? && r.value == MeetingCount(combined, AccountingOf(frames, first, first + |rows| - 1), |combined|)
  {
    var last := first + |rows| - 1;
    var accounting := AccountingOf(frames, first, last);
    var windows := seq(|rows|, j requires 0 <= j < |rows| => rows[j].assignment);
    var relevant := 0;
    for k := 0 to |combined|
      invariant relevant == MeetingCount(combined, accounting, k)
    {
      if Intersect(combined[k], accounting).Some? {
        AssignedSomewhere(combined[k], frames, first, last);
        ghost var i :| first <= i <= last && Intersect(combined[k], Assignment(frames, i)).Some?;
        assert windows[i - first] == Assignment(frames, i);
        if !MeetsAny(combined[k], windows) { assert false; return Err(UnassignedWork); }
        relevant := relevant + 1;
      }
    }
    return Ok(relevant);
  }

  // ---------------------------------------------------------------- records and metrics

  /** How many of the first `n` intervals meet some gap. */
  function GapRecords(ivs: seq<Interval>, gaps: seq<Interval>, n: nat): nat
    requires n <= |ivs|
  {
    if n == 0 then 0 else GapRecords(ivs, gaps, n - 1) + if MeetsAny(ivs[n - 1], gaps) then 1 else 0
  }

  method CountGapRecords(ivs: seq<Interval>, gaps: seq<Interval>) returns (count: nat)
    ensures count == GapRecords(ivs, gaps, |ivs|)
  {
    count := 0;
    for k := 0 to |ivs|
      invariant count == GapRecords(ivs, gaps, k)
    {
      if MeetsAny(ivs[k], gaps) { count := count + 1; }
    }
  }

  lemma {:induction false} NoRecords(ivs: seq<Interval>, gaps: seq<Interval>, n: nat)
    requires n <= |ivs|
    ensures GapRecords(ivs, gaps, n) == 0 <==> forall k :: 0 <= k < n ==> !MeetsAny(ivs[k], gaps)
  {
    if n > 0 { NoRecords(ivs, gaps, n - 1); }
  }

  /** A window holds work exactly when some interval meets it. */
  lemma WorkMeets(ivs: seq<Interval>, window: Interval)
    ensures Work(ivs, window) > 0 <==> exists k :: 0 <= k < |ivs| && Intersect(ivs[k], window).Some?
  {
    MeasureIsCardinality(ivs, window.start, window.end);
    var covered := set k | window.start <= k < window.end && Covered(ivs, k);
    if Work(ivs, window) > 0 {
      assert covered != {};
      var t :| t in covered;
      var k :| 0 <= k < |ivs| && ivs[k].start <= t < ivs[k].end;
      assert Intersect(ivs[k], window).Some?;
    }
    if k :| 0 <= k < |ivs| && Intersect(ivs[k], window).Some? {
      var t := Intersect(ivs[k], window).value.start;
      assert Covered(ivs, t);
      assert t in covered;
    }
  }

  /** No record is counted exactly when there is no work in any gap. */
  lemma NoRecordsNoWork(ivs: seq<Interval>, gaps: seq<Interval>)
    ensures GapRecords(ivs, gaps, |ivs|) == 0 <==> forall j :: 0 <= j < |gaps| ==> Work(ivs, gaps[j]) == 0
  {
    hide Work, Intersect, GapRecords;
    NoRecords(ivs, gaps, |ivs|);
    forall j | 0 <= j < |gaps|
      ensures Work(ivs, gaps[j]) > 0 <==> exists k :: 0 <= k < |ivs| && Intersect(ivs[k], gaps[j]).Some?
    {
      WorkMeets(ivs, gaps[j]);
    }
    forall k, j | 0 <= k < |ivs| && 0 <= j < |gaps| && Intersect(ivs[k], gaps[j]).Some? ensures MeetsAny(ivs[k], gaps) {
      assert gaps[j] in gaps;
    }
  }

  const ENVELOPE: FrameRow -> int := (r: FrameRow) => r.frame.end - r.frame.start
  const RAW_TASK: FrameRow -> int := (r: FrameRow) => r.rawTask
  const RAW_COMBINED: FrameRow -> int := (r: FrameRow) => r.rawCombined
  const GATE_TASK: FrameRow -> int := (r: FrameRow) => r.gateTask
  const GATE_COMBINED: FrameRow -> int := (r: FrameRow) => r.gateCombined

  function Column(rows: seq<FrameRow>, of: FrameRow -> int): (values: seq<real>)
    ensures |values| == |rows| && forall j :: 0 <= j < |rows| ==> values[j] == of(rows[j]) as real
  {
    seq(|rows|, j requires 0 <= j < |rows| => of(rows[j]) as real)
  }

  ghost predicate FiguresExact(f: Figures, rows: seq<FrameRow>, budget: real) {
    && MetricsOf(f.envelope, Column(rows, ENVELOPE), budget)
    && MetricsOf(f.rawTask, Column(rows, RAW_TASK), budget)
    && MetricsOf(f.rawCombined, Column(rows, RAW_COMBINED), budget)
    && MetricsOf(f.gateTask, Column(rows, GATE_TASK), budget)
    && MetricsOf(f.gateCombined, Column(rows, GATE_COMBINED), budget)
  }

  // ---------------------------------------------------------------- the figures, from the records themselves

  ghost function Lengths(frames: seq<Interval>, first: nat, n: nat): seq<real>
    requires first + n <= |frames|
  {
    seq(n, j requires 0 <= j < n => (frames[first + j].end - frames[first + j].start) as real)
  }

  ghost function RawWorks(ivs: seq<Interval>, frames: seq<Interval>, first: nat, n: nat): seq<real>
    requires first + n <= |frames|
  {
    seq(n, j requires 0 <= j < n => Measure(ivs, frames[first + j].start, frames[first + j].end) as real)
  }

  /** The work between the end of the frame before and the start of the frame after. */
  ghost function GateWorks(ivs: seq<Interval>, frames: seq<Interval>, first: nat, n: nat): seq<real>
    requires 0 < first && first + n < |frames|
  {
    seq(n, j requires 0 <= j < n => Measure(ivs, frames[first + j - 1].end, frames[first + j + 1].start) as real)
  }

  ghost predicate Told(m: Metrics, values: seq<real>, budget: real) {
    MetricsOf(m, values, budget) && Interpolated(m, values, budget)
  }

  /** The five figures of the `n` frames from `first` on, in terms of the frames and records they came from. */
  ghost predicate FiguresTold(f: Figures, frames: seq<Interval>, tasks: seq<Interval>, combined: seq<Interval>,
                              first: nat, n: nat, budget: real)
    requires 0 < first && first + n < |frames|
  {
    && Told(f.envelope, Lengths(frames, first, n), budget)
    && Told(f.rawTask, RawWorks(tasks, frames, first, n), budget)
    && Told(f.rawCombined, RawWorks(combined, frames, first, n), budget)
    && Told(f.gateTask, GateWorks(tasks, frames, first, n), budget)
    && Told(f.gateCombined, GateWorks(combined, frames, first, n), budget)
  }

  lemma ExactTold(f: Figures, rows: seq<FrameRow>, frames: seq<Interval>, tasks: seq<Interval>,
                  combined: seq<Interval>, first: nat, budget: real)
    requires RowsExact(rows, frames, tasks, combined, first) && FiguresExact(f, rows, budget)
    ensures FiguresTold(f, frames, tasks, combined, first, |rows|, budget)
  {
    hide MetricsOf, Interpolated, RowsExact;
    ColumnsTold(rows, frames, tasks, combined, first);
    MetricsInterpolated(f.envelope, Column(rows, ENVELOPE), budget);
    MetricsInterpolated(f.rawTask, Column(rows, RAW_TASK), budget);
    MetricsInterpolated(f.rawCombined, Column(rows, RAW_COMBINED), budget);
    MetricsInterpolated(f.gateTask, Column(rows, GATE_TASK), budget);
    MetricsInterpolated(f.gateCombined, Column(rows, GATE_COMBINED), budget);
  }

  lemma ColumnsTold(rows: seq<FrameRow>, frames: seq<Interval>, tasks: seq<Interval>, combined: seq<Interval>,
                    first: nat)
    requires RowsExact(rows, frames, tasks, combined, first)
    ensures 0 < first && first + |rows| < |frames|
    ensures Column(rows, ENVELOPE) == Lengths(frames, first, |rows|)
    ensures Column(rows, RAW_TASK) == RawWorks(tasks, frames, first, |rows|)
    ensures Column(rows, RAW_COMBINED) == RawWorks(combined, frames, first, |rows|)
    ensures Column(rows, GATE_TASK) == GateWorks(tasks, frames, first, |rows|)
    ensures Column(rows, GATE_COMBINED) == GateWorks(combined, frames, first, |rows|)
  {
    hide Measure;
    assert forall j :: 0 <= j < |rows| ==> RowExact(rows[j], frames, tasks, combined, first + j);
  }

  method FiguresOf(rows: seq<FrameRow>, budget: real) returns (r: Option<Figures>)
    ensures r.Some? ==> FiguresExact(r.value, rows, budget)
    ensures rows != [] && (forall j :: 0 <= j < |rows| ==> Sane(rows[j])) ==> r.Some?
  {
    hide MetricsOf;
    var envelope := PercentileMetrics(Column(rows, ENVELOPE), budget);
    var rawTask := PercentileMetrics(Column(rows, RAW_TASK), budget);
    var rawCombined := PercentileMetrics(Column(rows, RAW_COMBINED), budget);
    var gateTask := PercentileMetrics(Column(rows, GATE_TASK), budget);
    var gateCombined := PercentileMetrics(Column(rows, GATE_COMBINED), budget);
    if envelope.None? || rawTask.None? || rawCombined.None? || gateTask.None? || gateCombined.None? { return None; }
    return Some(Figures(envelope.value, rawTask.value, rawCombined.value, gateTask.value, gateCombined.value));
  }

  /** No figure of the row is negative, and the gates are no less than the frame's own work. */
  predicate Sane(row: FrameRow) {
    && 0 <= row.rawTask <= row.rawCombined <= row.frame.end - row.frame.start
    && row.rawTask <= row.gateTask <= row.gateCombined && row.rawCombined <= row.gateCombined
  }

  lemma RowsSane(rows: seq<FrameRow>, frames: seq<Interval>, tasks: seq<Interval>, gc: seq<Interval>, first: nat)
    requires Ordered(frames) && RowsExact(rows, frames, tasks, tasks + gc, first)
    ensures forall j :: 0 <= j < |rows| ==> Sane(rows[j])
  {
    hide Measure;
    forall j | 0 <= j < |rows| ensures Sane(rows[j]) {
      var i := first + j;
      assert RowExact(rows[j], frames, tasks, tasks + gc, i);
      CombinedAtLeast(tasks, gc, frames[i]);
      CombinedAtLeast(tasks, gc, Assignment(frames, i));
      GateSplits(tasks, frames, i);
      GateSplits(tasks + gc, frames, i);
    }
  }

  /**
   None of the containment, unassigned-work and metric guards can fire, every row holds the exact measures,
   and the reported duplicate is the work of the interior gaps.
   */
  method AnalyzeFrames(frames: seq<Interval>, tasks: seq<Interval>, gc: seq<Interval>, selected: seq<nat>, budget: real)
    returns (r: Result<Report, AnalysisError>)
    requires Ordered(frames) && Interior(frames, selected)
    ensures r.Ok?
    ensures |r.value.rows| == |selected| && RowsExact(r.value.rows, frames, tasks, tasks + gc, selected[0])
    ensures var first, last := selected[0], selected[|selected| - 1];
            && r.value.accounting == AccountingOf(frames, first, last)
            && r.value.relevant == MeetingCount(tasks + gc, r.value.accounting, |tasks + gc|)
            && |r.value.gaps| == last - first + 2
            && (forall j :: 0 <= j < |r.value.gaps| ==>
                              r.value.gaps[j] == Interval(frames[first - 1 + j].end, frames[first + j].start))
            && r.value.uniqueGap == GapSum(tasks + gc, frames, first - 1, last + 1)
            && r.value.duplicated == GapSum(tasks + gc, frames, first, last)
            && r.value.summedGap == r.value.uniqueGap + r.value.duplicated
    ensures r.value.taskRecords == GapRecords(tasks, r.value.gaps, |tasks|)
            && r.value.gcRecords == GapRecords(gc, r.value.gaps, |gc|)
    ensures (forall j :: 0 <= j < |r.value.rows| ==> Sane(r.value.rows[j]))
            && FiguresTold(r.value.figures, frames, tasks, tasks + gc, selected[0], |selected|, budget)
    ensures GateTotal(r.value.rows) == RawTotal(r.value.rows) + r.value.summedGap
    ensures Work(tasks + gc, r.value.accounting) == RawTotal(r.value.rows) + r.value.uniqueGap
  {
    hide GapSum, GateTotal, RawTotal, Measure, RowExact, MeetingCount, FiguresExact, FiguresTold, Sane,
         GapRecords;
    var combined := tasks + gc;
    var rowResult := FrameRows(frames, tasks, gc, selected);
    var rows := rowResult.value;
    var first, last := selected[0], selected[|selected| - 1];
    GapAccounting(rows, frames, tasks, combined, first);
    var gaps, uniqueGap := GapWindows(frames, combined, first, last);
    var summedGap := SummedGaps(rows);
    AssignmentsExact(rows, frames, tasks, combined, first);
    var relevant := RelevantWork(combined, frames, rows, first);
    var duplicated := if summedGap - uniqueGap > 0 then summedGap - uniqueGap else 0;
    RowsSane(rows, frames, tasks, gc, first);
    var figures := FiguresOf(rows, budget);
    if figures.None? { assert false; return Err(InvalidMetrics); }
    ExactTold(figures.value, rows, frames, tasks, combined, first, budget);
    var taskRecords := CountGapRecords(tasks, gaps);
    var gcRecords := CountGapRecords(gc, gaps);
    return Ok(Report(rows, gaps, uniqueGap, summedGap, duplicated, relevant.value,
                     AccountingOf(frames, first, last), taskRecords, gcRecords, figures.value));
  }
}
