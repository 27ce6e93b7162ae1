/** The evaluator's refusal of native workers that overlap or touch, and which runs pass it. */
module WorkerGaps {
  import opened CausalBrackets
  import opened Envelopes
  import opened LockHistory
  import opened ObserverReports
  import opened OverlapRuns
  import opened Results
  import opened Sequences
  import opened Sorting
  import opened UnseenGap

  // ---------------------------------------------------------------- the check

  const BY_START: (Segment, Segment) -> bool := (a: Segment, b: Segment) => a.lo <= b.lo

  predicate Gapped(segments: seq<Segment>) {
    forall i :: 0 <= i < |segments| - 1 ==> segments[i].hi < segments[i + 1].lo
  }

  predicate Separate(a: Segment, b: Segment) { a.hi < b.lo || b.hi < a.lo }

  /** No two segments overlap or touch. */
  ghost predicate Apart(segments: seq<Segment>) {
    && Distinct(segments)
    && forall i, j :: 0 <= i < j < |segments| ==> Separate(segments[i], segments[j])
  }

  ghost predicate Upright(segments: seq<Segment>) {
    forall i :: 0 <= i < |segments| ==> segments[i].lo <= segments[i].hi
  }

  lemma {:induction false} GappedAll(segments: seq<Segment>, i: nat, j: nat)
    requires Upright(segments) && Gapped(segments) && i < j < |segments|
    ensures segments[i].hi < segments[j].lo
  {
    if i < j - 1 {
      GappedAll(segments, i, j - 1);
      assert segments[j - 1].hi < segments[j - 1 + 1].lo;
    }
  }

  lemma GappedIsApart(segments: seq<Segment>)
    requires Upright(segments) && SortedBy(segments, BY_START)
    ensures Gapped(segments) <==> Apart(segments)
  {
    if Gapped(segments) {
      forall i, j | 0 <= i < j < |segments| ensures segments[i] != segments[j] && Separate(segments[i], segments[j]) {
        GappedAll(segments, i, j);
      }
    }
    if Apart(segments) {
      forall i | 0 <= i < |segments| - 1 ensures segments[i].hi < segments[i + 1].lo {
        assert BY_START(segments[i], segments[i + 1]);
      }
    }
  }

  lemma ApartReordered(a: seq<Segment>, b: seq<Segment>)
    requires multiset(a) == multiset(b) && Apart(a)
    ensures Apart(b)
  {
    DistinctPermutation(a, b);
    SameElements(a, b);
    forall i, j | 0 <= i < j < |b| ensures Separate(b[i], b[j]) {
      assert b[i] in a && b[j] in a;
      var k :| 0 <= k < |a| && a[k] == b[i];
      var m :| 0 <= m < |a| && a[m] == b[j];
      assert k != m;
    }
  }

  /** Sorting by start and comparing neighbours refuses exactly the lists in which two segments overlap or touch. */
  method OrderWorkers(segments: seq<Segment>) returns (r: Result<seq<Segment>, EvidenceError>)
    requires Upright(segments)
    ensures r.Ok? <==> Apart(segments)
    ensures r.Ok? ==> multiset(r.value) == multiset(segments) && Gapped(r.value)
    ensures r.Ok? && SortedBy(segments, BY_START) ==> r.value == segments
  {
    hide Sort, Apart, Gapped;
    var sorted := Sort(segments, BY_START);
    SortSorts(segments, BY_START);
    SameElements(sorted, segments);
    forall i | 0 <= i < |sorted| ensures sorted[i].lo <= sorted[i].hi {
      assert sorted[i] in segments;
    }
    GappedIsApart(sorted);
    if Apart(sorted) { ApartReordered(sorted, segments); }
    if Apart(segments) { ApartReordered(segments, sorted); }
    if SortedBy(segments, BY_START) { SortedStays(segments, BY_START); }
    if !Gapped(sorted) { return Err(SegmentOrder); }
    return Ok(sorted);
  }

  // ---------------------------------------------------------------- the reports of runs

  /** The first and last polls of a reported worker. */
  ghost function FirstPoll(w: World, i: nat): Poll
    requires i < |Reported(w)|
  {
    ReportedAt(w, i);
    TurnsSound(w.log, Reporters(w)[i]);
    w.log[First(w.log, Reporters(w)[i])]
  }

  ghost function LastPoll(w: World, i: nat): Poll
    requires i < |Reported(w)|
  {
    ReportedAt(w, i);
    TurnsSound(w.log, Reporters(w)[i]);
    w.log[Last(w.log, Reporters(w)[i])]
  }

  /** In every run the segments are reported in the order the check sorts them into, and none is inverted. */
  lemma ReportsInOrder(steps: seq<Step>)
    requires Run(steps).Some?
    ensures var s := Reported(Run(steps).value);
            SortedBy(s, BY_START) && Upright(s)
    ensures forall i :: 0 <= i < |Reported(Run(steps).value)| ==>
              Reported(Run(steps).value)[i]
                == Segment(FirstPoll(Run(steps).value, i).after, LastPoll(Run(steps).value, i).before)
  {
    hide Run, Reported, Reporters, Turns, FoundAt;
    RunKeepsInv(steps);
    var w := Run(steps).value;
    ReportersSound(w);
    forall i | 0 <= i < |Reported(w)|
      ensures Reported(w)[i] == Segment(FirstPoll(w, i).after, LastPoll(w, i).before)
      ensures Reported(w)[i].lo <= Reported(w)[i].hi
    {
      ReportedAt(w, i);
      TurnsSound(w.log, Reporters(w)[i]);
    }
    forall i, j | 0 <= i < j < |Reported(w)| ensures BY_START(Reported(w)[i], Reported(w)[j]) {
      var f, g := First(w.log, Reporters(w)[i]), First(w.log, Reporters(w)[j]);
      TurnsSound(w.log, Reporters(w)[j]);
      assert f < g;
      assert Sound(w.log[g], w.takes) && w.log[f].after <= w.log[g].before;
    }
  }

  /** A run passes exactly when each worker's last poll began before its successor's first poll ended. */
  lemma GapsExact(steps: seq<Step>)
    requires Run(steps).Some?
    ensures var w := Run(steps).value;
            Apart(Reported(w)) <==>
            forall i :: 0 <= i < |Reported(w)| - 1 ==> LastPoll(w, i).before < FirstPoll(w, i + 1).after
  {
    hide Run, Reported, FirstPoll, LastPoll, Apart;
    ReportsInOrder(steps);
    GappedIsApart(Reported(Run(steps).value));
  }

  // ---------------------------------------------------------------- one worker at a time

  ghost predicate NobodyHolds(takes: seq<Take>) {
    forall k :: 0 <= k < |takes| ==> takes[k].released.Some?
  }

  /** A lock is taken only while no worker holds one. */
  ghost predicate OneAtATime(steps: seq<Step>) {
    forall n :: 0 <= n < |steps| && steps[n].Acquire? && Run(steps[..n]).Some? ==>
      NobodyHolds(Run(steps[..n]).value.takes)
  }

  /** The first hold was over when the second began. */
  predicate Over(a: Take, b: Take) { a.released.Some? && a.released.value <= b.taken }

  /** Holds succeed one another, and so do the holds in which the polls found their workers. */
  ghost predicate InSuccession(w: World) {
    && (forall k, m :: 0 <= k < m < |w.takes| ==> Over(w.takes[k], w.takes[m]))
    && (forall k, m :: 0 <= k < m < |w.log| ==> w.log[k].take <= w.log[m].take)
    && (w.polling.Some? && w.polling.value.found.Some? ==>
          forall k :: 0 <= k < |w.log| ==> w.log[k].take <= w.polling.value.found.value.take)
  }

  lemma SuccessionStep(w: World, step: Step)
    requires Locked(w) && Watched(w) && InSuccession(w) && Enabled(w, step)
    requires step.Acquire? ==> NobodyHolds(w.takes)
    ensures InSuccession(Next(w, step))
  {
    if step == PollCheck {
      CheckSucceeds(w);
    } else if step == PollEnd {
      var v := Next(w, step);
      assert forall k :: 0 <= k < |w.log| ==> v.log[k] == w.log[k];
    } else {
      hide Polled, Sound, Sequential, OpenTake;
    }
  }

  lemma OpenIsLast(takes: seq<Take>, k: nat)
    requires forall k, m :: 0 <= k < m < |takes| ==> Over(takes[k], takes[m])
    requires k < |takes| && takes[k].released.None?
    ensures k == |takes| - 1
  {
    assert k < |takes| - 1 ==> Over(takes[k], takes[|takes| - 1]);
  }

  lemma CheckSucceeds(w: World)
    requires Watched(w) && InSuccession(w) && Enabled(w, PollCheck)
    ensures InSuccession(Next(w, PollCheck))
  {
    hide Polled;
    var held := HoldOf(w, w.polling.value.worker);
    if held.Some? {
      OpenIsLast(w.takes, held.value);
      forall k | 0 <= k < |w.log| ensures w.log[k].take <= held.value {
        assert Sound(w.log[k], w.takes);
      }
    }
  }

  lemma {:induction false} RunInSuccession(steps: seq<Step>)
    requires Run(steps).Some? && OneAtATime(steps)
    ensures InSuccession(Run(steps).value)
  {
    hide Next, Enabled, InSuccession, Locked, Watched, NobodyHolds;
    if steps == [] {
      StartsInSuccession();
    } else {
      var n := |steps| - 1;
      var front, step := steps[..n], steps[n];
      forall m | 0 <= m < n ensures steps[..m] == front[..m] && steps[m] == front[m] {}
      RunInSuccession(front);
      RunKeepsInv(front);
      SuccessionStep(Run(front).value, step);
    }
  }

  lemma StartsInSuccession()
    ensures InSuccession(INITIAL)
  {
  }

  /** Every reported worker was found in one hold from its first poll to its last. */
  ghost predicate AllInOneHold(w: World) {
    forall i :: 0 <= i < |Reported(w)| ==> FirstPoll(w, i).take == LastPoll(w, i).take
  }

  /**
   The last poll of worker `i` began and ended, its lock was released, the next worker's lock was
   taken, and that worker's first poll began and ended, all in one tick of the clock.
   */
  ghost predicate HandedOverAtOnce(w: World, i: nat)
    requires i + 1 < |Reported(w)|
  {
    var last, first := LastPoll(w, i), FirstPoll(w, i + 1);
    && last.take < |w.takes| && first.take < |w.takes| && w.takes[last.take].released.Some?
    && last.before == last.after == w.takes[last.take].released.value == w.takes[first.take].taken
       == first.before == first.after
  }

  lemma HandOver(steps: seq<Step>, i: nat)
    requires Run(steps).Some? && OneAtATime(steps) && AllInOneHold(Run(steps).value)
    requires i + 1 < |Reported(Run(steps).value)|
    ensures var w := Run(steps).value;
            LastPoll(w, i).before < FirstPoll(w, i + 1).after <==> !HandedOverAtOnce(w, i)
  {
    hide Run, Reported, Reporters, Turns;
    RunKeepsInv(steps);
    RunInSuccession(steps);
    var w := Run(steps).value;
    ReportersSound(w);
    ReportersExact(w);
    var u, v := Reporters(w)[i], Reporters(w)[i + 1];
    TurnsSound(w.log, u);
    TurnsSound(w.log, v);
    var l, f := Last(w.log, u), First(w.log, v);
    assert First(w.log, u) < f;
    assert Sound(w.log[l], w.takes) && Sound(w.log[f], w.takes) && Sound(w.log[First(w.log, u)], w.takes);
    assert u != v;
    assert w.log[First(w.log, u)].take <= w.log[f].take;
    assert FirstPoll(w, i) == w.log[First(w.log, u)] && LastPoll(w, i) == w.log[l];
    assert w.takes[w.log[l].take].worker == u && w.takes[w.log[f].take].worker == v;
    assert w.log[l].take < w.log[f].take;
    assert l < f;
  }

  /**
   While one worker at a time holds its lock, and each keeps it between its polls, a run is refused
   exactly when some worker hands over to the next within a single tick.
   */
  lemma RefusedOnlyAtOnce(steps: seq<Step>)
    requires Run(steps).Some? && OneAtATime(steps) && AllInOneHold(Run(steps).value)
    ensures var w := Run(steps).value;
            Apart(Reported(w)) <==> forall i :: 0 <= i < |Reported(w)| - 1 ==> !HandedOverAtOnce(w, i)
  {
    hide Run, Reported, HandedOverAtOnce, FirstPoll, LastPoll;
    GapsExact(steps);
    forall i | 0 <= i < |Reported(Run(steps).value)| - 1
      ensures var w := Run(steps).value; LastPoll(w, i).before < FirstPoll(w, i + 1).after <==> !HandedOverAtOnce(w, i)
    {
      HandOver(steps, i);
    }
  }

  // ---------------------------------------------------------------- a run that is refused

  lemma DoAlone(steps: seq<Step>, w: World, step: Step) returns (more: seq<Step>, next: World)
    requires Run(steps) == Some(w) && Enabled(w, step)
    requires OneAtATime(steps) && (step.Acquire? ==> NobodyHolds(w.takes))
    ensures more == steps + [step] && next == Next(w, step) && Run(more) == Some(next) && OneAtATime(more)
  {
    hide Next, Enabled, NobodyHolds;
    more, next := Do(steps, w, step);
    forall n | 0 <= n < |more| && more[n].Acquire? && Run(more[..n]).Some?
      ensures NobodyHolds(Run(more[..n]).value.takes)
    {
      assert more[..n] == steps[..n];
      assert n == |steps| ==> steps[..n] == steps;
    }
  }

  lemma PollAlone(steps: seq<Step>, w: World, v: nat, k: nat) returns (more: seq<Step>, next: World)
    requires Run(steps) == Some(w) && w.polling.None? && v !in w.retired && HoldOf(w, v) == Some(k) && OneAtATime(steps)
    ensures Run(more) == Some(next) && next == w.(log := w.log + [Poll(v, w.now, w.now, w.now, k)]) && OneAtATime(more)
  {
    hide Run, OneAtATime;
    more, next := DoAlone(steps, w, PollBegin(v));
    more, next := DoAlone(more, next, PollCheck);
    more, next := DoAlone(more, next, PollEnd);
  }

  const TOUCH := World(
    2, [], None, [], [Take(0, 0, Some(1)), Take(1, 1, None)], None,
    [Poll(0, 0, 0, 0, 0), Poll(0, 1, 1, 1, 0), Poll(1, 1, 1, 1, 1), Poll(1, 2, 2, 2, 1)], {})

  /** Polled at 0 and 1, released at 1. */
  lemma FirstWorker() returns (steps: seq<Step>)
    ensures Run(steps) == Some(World(1, [], None, [], [Take(0, 0, Some(1))], None, TOUCH.log[..2], {}))
            && OneAtATime(steps)
  {
    hide Run, OneAtATime;
    var w := INITIAL;
    StartsAlone();
    steps, w := DoAlone([], w, Acquire(0));
    assert w.takes == [Take(0, 0, None)];
    steps, w := PollAlone(steps, w, 0, 0);
    steps, w := DoAlone(steps, w, Tick);
    steps, w := PollAlone(steps, w, 0, 0);
    assert w.log == TOUCH.log[..2];
    steps, w := DoAlone(steps, w, Release(0));
    assert w.takes == [Take(0, 0, Some(1))];
  }

  lemma StartsAlone()
    ensures Run([]) == Some(INITIAL) && OneAtATime([])
  {
  }

  /** The other lock is taken at 1 too, and its worker polled at 1 and 2. */
  lemma TouchRun() returns (steps: seq<Step>)
    ensures Run(steps) == Some(TOUCH) && OneAtATime(steps)
  {
    hide Run, OneAtATime;
    steps := FirstWorker();
    var w := Run(steps).value;
    steps, w := DoAlone(steps, w, Acquire(1));
    assert w.takes == TOUCH.takes;
    steps, w := PollAlone(steps, w, 1, 1);
    steps, w := DoAlone(steps, w, Tick);
    steps, w := PollAlone(steps, w, 1, 1);
    assert w.log == TOUCH.log;
  }

  lemma TouchTurns()
    ensures Turns(TOUCH.log, 0) == [0, 1] && Turns(TOUCH.log, 1) == [2, 3] && Admitted(TOUCH.log) == [0, 1]
  {
    hide Turns, Admitted;
    var l := TOUCH.log;
    assert [] + [l[0]] == l[..1] && l[..1] + [l[1]] == l[..2] && l[..2] + [l[2]] == l[..3] && l[..3] + [l[3]] == l;
    for v := 0 to 2
      invariant v > 0 ==> Turns(l, 0) == [0, 1]
      invariant v > 1 ==> Turns(l, 1) == [2, 3]
      invariant v > 0 ==> Admitted(l) == [0, 1]
    {
      NothingLogged(v);
      Logged([], l[0], v);
      Logged(l[..1], l[1], v);
      Logged(l[..2], l[2], v);
      Logged(l[..3], l[3], v);
    }
  }

  lemma TouchReport()
    ensures Reporters(TOUCH) == [0, 1] && Reported(TOUCH) == [Segment(0, 1), Segment(1, 2)]
  {
    hide Turns, Admitted, Usable, Reported;
    TouchTurns();
    UsableNext(TOUCH.log, [], 0);
    UsableNext(TOUCH.log, [0], 1);
    assert [] + [0] == [0] && [0] + [1] == [0, 1];
    ReportedAt(TOUCH, 0);
    ReportedAt(TOUCH, 1);
  }

  /** Two honest workers, one at a time and each in one hold, are refused for handing over at once. */
  lemma TouchingRefused() returns (steps: seq<Step>)
    ensures Run(steps) == Some(TOUCH) && OneAtATime(steps) && AllInOneHold(TOUCH)
    ensures |Reported(TOUCH)| == 2 && HandedOverAtOnce(TOUCH, 0) && !Apart(Reported(TOUCH))
  {
    hide Run, OneAtATime, Reported, Reporters, Turns;
    steps := TouchRun();
    TouchTurns();
    TouchReport();
    assert !Separate(Reported(TOUCH)[0], Reported(TOUCH)[1]);
  }
}
