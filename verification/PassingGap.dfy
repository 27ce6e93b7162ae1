/**
 A run that passes both evaluators although the worker that proves every input let go of its lock
 over all of them: a hundred inputs fall between two polls, the release before and the new hold after.
 */
module PassingGap {
  import opened CausalBrackets
  import opened Envelopes
  import opened LatencyTest
  import Export = ExportOverlap
  import Import = ImportOverlap
  import opened LockHistory
  import opened ObserverReports
  import opened OverlapRuns
  import opened Results
  import opened UnseenGap

  const MARKS := 410

  /** Events one after the other at one instant. */
  function Repeated(t: nat, n: nat): seq<nat> { seq(n, _ => t) }

  const LONG := World(
    7, [2, 2] + Repeated(3, MARKS) + [6, 6], None, [Bracket(1, 2, 2), Bracket(MARKS + 3, MARKS + 4, 6)],
    [Take(0, 0, Some(2)), Take(0, 5, None)], None, [Poll(0, 1, 1, 1, 0), Poll(0, 7, 7, 7, 1)], {})

  // ---------------------------------------------------------------- the run

  lemma {:induction false} DoMarks(steps: seq<Step>, w: World, n: nat) returns (more: seq<Step>)
    requires Run(steps) == Some(w)
    ensures Run(more) == Some(w.(times := w.times + Repeated(w.now, n)))
  {
    hide Run;
    if n == 0 {
      more := steps;
      assert w.times + Repeated(w.now, 0) == w.times;
    } else {
      more := DoMarks(steps, w, n - 1);
      var next := w.(times := w.times + Repeated(w.now, n - 1));
      more, next := Do(more, next, Mark);
      assert next.times == w.times + Repeated(w.now, n);
    }
  }

  lemma LongOpens() returns (steps: seq<Step>)
    ensures Run(steps) == Some(World(5, [2, 2] + Repeated(3, MARKS), None, [Bracket(1, 2, 2)],
                                     [Take(0, 0, Some(2))], None, [Poll(0, 1, 1, 1, 0)], {}))
  {
    hide Run, HoldOf;
    steps := GapReleased();
    var w := Run(steps).value;
    steps, w := Do(steps, w, Tick);
    steps := DoMarks(steps, w, MARKS);
    w := w.(times := w.times + Repeated(3, MARKS));
    steps, w := Do(steps, w, Tick);
    steps, w := Do(steps, w, Tick);
  }

  lemma LongRun() returns (steps: seq<Step>)
    ensures Run(steps) == Some(LONG)
  {
    hide Run;
    steps := LongOpens();
    var w := Run(steps).value;
    steps, w := Do(steps, w, Acquire(0));
    steps, w := Do(steps, w, Tick);
    assert w.takes == LONG.takes;
    steps, w := DoAnchor(steps, w);
    assert w.times == LONG.times && w.brackets == LONG.brackets;
    steps, w := Do(steps, w, Tick);
    steps, w := DoPoll(steps, w, 0, 1);
    assert w.log == LONG.log;
  }

  // ---------------------------------------------------------------- what it proves, and what happened

  lemma LongEnvelope(start: int, finish: int)
    requires 3 <= start <= finish <= MARKS + 2
    ensures Envelope(LONG.brackets, Reported(LONG), start, finish) == Some(Proof(2, 6, 0))
            && Prover(LONG, start, finish) == 0
  {
    hide Reported, Reporters;
    GapReport(LONG);
    var b := LONG.brackets;
    assert Before(b, 1, start) == [b[0]] && Before(b, 2, start) == [b[0]];
    assert After(b, 2, finish) == [] && After(b, 1, finish) == [b[1]] && After(b, 0, finish) == [b[1]];
  }

  lemma LongRelease(steps: seq<Step>, start: int, finish: int)
    requires Run(steps) == Some(LONG) && 3 <= start <= finish <= MARKS + 2
    ensures UnseenRelease(LONG, start, finish) && !ActiveStretch(LONG, start, finish)
  {
    hide Reported, Reporters, Envelope, Run;
    LongEnvelope(start, finish);
    assert At(LONG, start) == At(LONG, finish) == 3;
    assert CutAt(LONG.takes, 0, 3, 3);
    StretchActive(steps, start, finish);
  }

  // ---------------------------------------------------------------- the export evaluator passes

  const INPUTS := seq(100, i => i + 1)

  function StartOf(o: int): int { 4 * o + 3 }

  function EndOf(o: int): int { 4 * o + 6 }

  function ExportEvents(): map<int, Export.SampleEvent> {
    map o: int | 1 <= o <= 100 :: Export.SampleEvent(o, StartOf(o), EndOf(o))
  }

  function ExportSample(o: int): Export.Sample { Export.Sample("complete", true, Some(0), Some(0)) }

  function ExportSamples(): map<int, Export.Sample> { map o: int | 1 <= o <= 100 :: ExportSample(o) }

  function ExportDecision(o: int): Export.Decision {
    Export.Decision(o, "complete", Some(Proof(2, 6, 0)), Some(Proof(2, 6, 0)))
  }

  function ExportDecisions(n: nat): seq<Export.Decision> { seq(n, i => ExportDecision(i + 1)) }

  lemma {:induction false} AllSelected(n: nat)
    requires n <= 100
    ensures var decisions := ExportDecisions(n);
            && Export.CohortOf(decisions) == seq(n, i => i + 1)
            && Export.FailuresOf(decisions, true) == Export.FailuresOf(decisions, false) == []
  {
    if n > 0 {
      AllSelected(n - 1);
      Export.SelectedNext(ExportDecisions(n - 1), ExportDecision(n));
      assert ExportDecisions(n) == ExportDecisions(n - 1) + [ExportDecision(n)];
    }
  }

  lemma ExportDecided()
    ensures Export.Bound(INPUTS, ExportSamples(), ExportEvents())
    ensures Export.Decided(ExportDecisions(100), INPUTS, ExportSamples(), ExportEvents(), LONG.brackets, Reported(LONG))
  {
    hide Reported, Envelope;
    forall i | 0 <= i < 100
      ensures ExportDecisions(100)[i]
              == Export.Decide(INPUTS[i], ExportSample(i + 1), ExportEvents()[i + 1], LONG.brackets, Reported(LONG))
    {
      LongEnvelope(StartOf(i + 1), EndOf(i + 1));
      LongEnvelope(StartOf(i + 1), StartOf(i + 1));
    }
  }

  /** A timing pass of a full cohort, none of whose inputs had an active worker. */
  lemma ExportPassWithoutActivity() returns (steps: seq<Step>, e: Export.Evaluation)
    ensures Run(steps) == Some(LONG)
    ensures Export.Bound(INPUTS, ExportSamples(), ExportEvents()) && Export.OnTimeline(INPUTS, ExportEvents(), LONG)
    ensures Export.Decided(e.decisions, INPUTS, ExportSamples(), ExportEvents(), LONG.brackets, Reported(LONG))
    ensures Export.Selected(e) && e.verdict == Export.TimingPass && Export.VerdictSound(e, ExportSamples(), Met)
    ensures e.cohort == INPUTS
    ensures forall o :: o in e.cohort ==>
              Export.ReleasedUnseen(LONG, o, ExportEvents()) && !Export.ActiveInput(LONG, o, ExportEvents())
  {
    hide Run, Reported, UnseenRelease, ActiveStretch;
    steps := LongRun();
    AllSelected(100);
    ExportDecided();
    e := Export.Evaluation(INPUTS, ExportDecisions(100), [], [], Export.TimingPass);
    AtOnce(Export.Latencies(INPUTS, ExportSamples()));
    forall o | o in e.cohort
      ensures Export.ReleasedUnseen(LONG, o, ExportEvents()) && !Export.ActiveInput(LONG, o, ExportEvents())
    {
      LongRelease(steps, StartOf(o), EndOf(o));
    }
  }

  /** Latencies of nothing meet every target. */
  lemma AtOnce(us: seq<int>)
    requires |us| == 100 && forall i :: 0 <= i < |us| ==> us[i] == 0
    ensures Met(us)
  {
    hide Met;
    HundredMet(us);
    NoneSlow(us);
  }

  lemma {:induction false} NoneSlow(us: seq<int>)
    requires forall i :: 0 <= i < |us| ==> us[i] == 0
    ensures Slow(us) == 0
  {
    if us != [] { NoneSlow(us[1..]); }
  }

  // ---------------------------------------------------------------- so does the import evaluator

  function ImportEvents(): map<int, Import.SampleEvent> {
    map o: int | 1 <= o <= 100 :: Import.SampleEvent(StartOf(o), Some(EndOf(o)), Some(EndOf(o) - 1))
  }

  function ImportSample(o: int): Import.Sample { Import.Sample("complete", true, Some("import"), Some(0)) }

  function ImportSamples(): map<int, Import.Sample> { map o: int | 1 <= o <= 100 :: ImportSample(o) }

  function ImportDecision(o: int): Import.Decision {
    Import.Decision(o, "complete", Some(Proof(2, 6, 0)), Some(Proof(2, 6, 0)))
  }

  function ImportDecisions(n: nat): seq<Import.Decision> { seq(n, i => ImportDecision(i + 1)) }

  const ROWS := [
    Import.Status(3, 4, Import.Discovering, [0, 0, 0, 0, 0]),
    Import.Status(8, 12, Import.Discovering, [0, 0, 0, 0, 0]),
    Import.Status(16, 20, Import.Discovering, [1, 0, 0, 0, 0]),
    Import.Status(408, 412, Import.Draining, [1, 0, 0, 0, 0])]

  lemma {:induction false} NoneFailed(n: nat)
    ensures var decisions := ImportDecisions(n);
            && Import.FailuresOf(decisions, ImportSamples(), true) == []
            && Import.FailuresOf(decisions, ImportSamples(), false) == []
  {
    hide ImportSamples;
    if n > 0 {
      NoneFailed(n - 1);
      assert ImportDecisions(n) == ImportDecisions(n - 1) + [ImportDecision(n)];
      Import.FailuresNext(ImportDecisions(n - 1), ImportSamples(), ImportDecision(n));
    } else {
      Import.NoFailures(ImportSamples());
    }
  }

  lemma ImportDecided()
    ensures Import.Bound(INPUTS, ImportSamples(), ImportEvents())
    ensures Import.Decided(ImportDecisions(100), INPUTS, ImportSamples(), ImportEvents(), LONG.brackets, Reported(LONG))
  {
    hide Reported, Envelope;
    forall i | 0 <= i < 100
      ensures ImportDecisions(100)[i]
              == Import.Decide(INPUTS[i], ImportSamples(), ImportEvents(), LONG.brackets, Reported(LONG))
    {
      LongEnvelope(StartOf(i + 1), EndOf(i + 1) - 1);
      LongEnvelope(StartOf(i + 1), StartOf(i + 1));
    }
  }

  ghost predicate Advances(left: Import.Status, right: Import.Status) {
    Import.ProgressPair(left, right, 7, 405, LONG.brackets, Reported(LONG))
  }

  /** The import visibly advanced between the second and the third answer, and nowhere else within the stretch. */
  lemma Advance()
    ensures !Advances(ROWS[0], ROWS[1]) && Advances(ROWS[1], ROWS[2]) && !Advances(ROWS[2], ROWS[3])
  {
    hide Reported, Envelope;
    var left, right := ROWS[1], ROWS[2];
    assert left.progress[0] == 0 && right.progress[0] == 1;
    assert Import.Progressed(left, right);
    LongEnvelope(left.request, right.event);
  }

  lemma Timeline()
    ensures Import.TimelineSound(ROWS) && Import.ContextComplete(ROWS, 7, 405)
  {
    var rows := ROWS;
    assert rows[0] in rows && rows[1] in rows && rows[3] in rows;
    forall i | 0 <= i < |rows|
      ensures Import.StatusFollows(Import.Earlier(rows, i), rows[i])
    {
      assert i == 0 || i == 1 || i == 2 || i == 3;
    }
  }

  lemma ImportStretch()
    ensures Import.Measured(INPUTS, ImportEvents())
    ensures ImportEvents()[INPUTS[0]].start == 7 && ImportEvents()[INPUTS[|INPUTS| - 1]].durable == Some(405)
  {
    assert INPUTS[0] == 1 && INPUTS[99] == 100;
  }

  lemma ImportContext(e: Import.Evaluation)
    requires e.context && e.progress == [(ROWS[1], ROWS[2])]
    ensures Import.ContextAndProgress(e, INPUTS, ImportEvents(), ROWS, LONG.brackets, Reported(LONG))
  {
    hide Reported, Import.ProgressPair, Import.ContextComplete, ImportEvents, Import.Measured, Import.Neighbours;
    Advance();
    Timeline();
    ImportStretch();
    NextTo();
    forall i | 0 <= i < |ROWS| - 1 && Advances(ROWS[i], ROWS[i + 1]) ensures (ROWS[i], ROWS[i + 1]) in e.progress {
      assert i == 0 || i == 1 || i == 2;
    }
  }

  lemma NextTo()
    ensures Import.Neighbours((ROWS[1], ROWS[2]), ROWS)
  {
    assert (ROWS[1], ROWS[2]) == (ROWS[1], ROWS[1 + 1]);
  }

  lemma ImportRelease(steps: seq<Step>, o: int)
    requires Run(steps) == Some(LONG) && 1 <= o <= 100
    ensures Import.ReleasedUnseen(LONG, o, ImportEvents())
    ensures !Import.DurableUnderImport(LONG, o, ImportSamples(), ImportEvents())
  {
    hide Run, UnseenRelease, ActiveStretch;
    LongRelease(steps, StartOf(o), EndOf(o) - 1);
  }

  lemma ImportAtOnce()
    ensures Met(Import.Latencies(INPUTS, ImportSamples()))
  {
    AtOnce(Import.Latencies(INPUTS, ImportSamples()));
  }

  lemma ImportOnTimeline()
    ensures Import.OnTimeline(ImportEvents(), LONG.times)
  {
  }

  /** A timing pass of a hundred inputs, none of which, and no advance of the import, was under the import lock. */
  lemma ImportPassWithoutActivity() returns (steps: seq<Step>, e: Import.Evaluation)
    ensures Run(steps) == Some(LONG) && Import.TimelineSound(ROWS)
    ensures Import.Bound(INPUTS, ImportSamples(), ImportEvents()) && Import.OnTimeline(ImportEvents(), LONG.times)
    ensures Import.Decided(e.decisions, INPUTS, ImportSamples(), ImportEvents(), LONG.brackets, Reported(LONG))
    ensures Import.ContextAndProgress(e, INPUTS, ImportEvents(), ROWS, LONG.brackets, Reported(LONG))
    ensures e.failures == Import.FailuresOf(e.decisions, ImportSamples(), true)
            && e.unproven == Import.FailuresOf(e.decisions, ImportSamples(), false)
    ensures e.verdict == Import.TimingPass && Import.VerdictSound(e, Met(Import.Latencies(INPUTS, ImportSamples())))
    ensures forall i :: 0 <= i < |INPUTS| ==>
              && Import.ReleasedUnseen(LONG, INPUTS[i], ImportEvents())
              && !Import.DurableUnderImport(LONG, INPUTS[i], ImportSamples(), ImportEvents())
    ensures forall p :: p in e.progress ==> !Import.AdvancedUnderImport(LONG, p)
  {
    hide Run, Reported, UnseenRelease, ActiveStretch, ImportEvents, ImportSamples, Import.Bound, Import.OnTimeline,
         Import.ContextAndProgress, Import.Decided, Import.ReleasedUnseen, Import.DurableUnderImport, Import.FailuresOf,
         Import.TimelineSound, Import.ContextComplete, Advances;
    steps := LongRun();
    Timeline();
    ImportDecided();
    ImportOnTimeline();
    NoneFailed(100);
    e := Import.Evaluation(ImportDecisions(100), [], [], true, [(ROWS[1], ROWS[2])], Import.TimingPass);
    ImportAtOnce();
    ImportContext(e);
    forall i | 0 <= i < |INPUTS|
      ensures Import.ReleasedUnseen(LONG, INPUTS[i], ImportEvents())
      ensures !Import.DurableUnderImport(LONG, INPUTS[i], ImportSamples(), ImportEvents())
    {
      ImportRelease(steps, INPUTS[i]);
    }
    LongRelease(steps, 8, 20);
  }
}
