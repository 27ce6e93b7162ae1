/** The import evaluator: one hundred declared inputs, all of which must be proven durable under import. */
module ImportOverlap {
  import opened Results
  import opened CausalBrackets
  import opened Envelopes
  import opened LatencyTest
  import opened ObserverReports
  import opened OverlapRuns

  datatype Sample = Sample(outcome: string, duringImport: bool, importId: Option<string>, durableUs: Option<int>)

  datatype SampleEvent = SampleEvent(start: int, end: Option<int>, durable: Option<int>)

  datatype Phase = Discovering | Draining | CancelRequested | Complete | Canceled | Failed

  /** One status exchange: the request, the answer, and the five progress counters in the answer. */
  datatype Status = Status(request: int, event: int, phase: Phase, progress: seq<nat>)

  predicate Active(p: Phase) { p.Discovering? || p.Draining? || p.CancelRequested? }

  predicate Terminal(p: Phase) { p.Complete? || p.Canceled? || p.Failed? }

  // ---------------------------------------------------------------- status timeline

  predicate StatusFollows(previous: Option<Status>, row: Status) {
    && (if previous.Some? then previous.value.event else 0) < row.request < row.event
    && |row.progress| == 5
    && (previous.Some? ==>
          && |previous.value.progress| == 5
          && (forall k :: 0 <= k < 5 ==> previous.value.progress[k] <= row.progress[k])
          && (Terminal(previous.value.phase) ==> row.phase == previous.value.phase))
  }

  function Earlier(rows: seq<Status>, i: nat): Option<Status>
    requires i < |rows|
  {
    if i == 0 then None else Some(rows[i - 1])
  }

  ghost predicate TimelineSound(rows: seq<Status>) {
    forall i :: 0 <= i < |rows| ==> StatusFollows(Earlier(rows, i), rows[i])
  }

  /** Local checks of neighbours make every earlier status precede every later one, with no lost progress. */
  lemma {:induction false} TimelineMonotone(rows: seq<Status>, i: nat, j: nat)
    requires TimelineSound(rows) && i < j < |rows|
    ensures rows[i].event < rows[j].request
    ensures |rows[i].progress| == |rows[j].progress| == 5
    ensures forall k :: 0 <= k < 5 ==> rows[i].progress[k] <= rows[j].progress[k]
    ensures Terminal(rows[i].phase) ==> rows[j].phase == rows[i].phase
    decreases j
  {
    hide TimelineSound;
    NextFollows(rows, j);
    if i < j - 1 {
      TimelineMonotone(rows, i, j - 1);
      NextFollows(rows, j - 1);
    }
  }

  lemma NextFollows(rows: seq<Status>, j: nat)
    requires TimelineSound(rows) && 0 < j < |rows|
    ensures StatusFollows(Some(rows[j - 1]), rows[j])
  {
    hide StatusFollows;
    assert StatusFollows(Earlier(rows, j), rows[j]);
  }

  // ---------------------------------------------------------------- decisions

  datatype Decision = Decision(ordinal: int, outcome: string, durable: Option<Proof>, atStart: Option<Proof>)

  datatype Verdict = FailedActiveInput | Partial | FailedLatency | TimingPass

  datatype Evaluation = Evaluation(decisions: seq<Decision>, failures: seq<int>, unproven: seq<int>,
                                   context: bool, progress: seq<(Status, Status)>, verdict: Verdict)

  /** Sample events as already validated: the durable event is there exactly when the latency is. */
  ghost predicate Bound(expected: seq<int>, samples: map<int, Sample>, events: map<int, SampleEvent>) {
    && (forall i, j :: 0 <= i < j < |expected| ==> expected[i] < expected[j])
    && samples.Keys == events.Keys
    && forall o :: o in samples ==>
                     && (events[o].durable.Some? ==> events[o].start < events[o].durable.value)
                     && (samples[o].importId.Some? ==> events[o].durable.Some? == samples[o].durableUs.Some?)
  }

  function Decide(o: int, samples: map<int, Sample>, events: map<int, SampleEvent>,
                  brackets: seq<Bracket>, segments: seq<Segment>): Decision
    requires samples.Keys == events.Keys
  {
    if o !in samples then Decision(o, "missing", None, None)
    else
      Decision(o, samples[o].outcome,
               if samples[o].durableUs.Some? && events[o].durable.Some?
               then Envelope(brackets, segments, events[o].start, events[o].durable.value) else None,
               Envelope(brackets, segments, events[o].start, events[o].start))
  }

  ghost predicate Decided(decisions: seq<Decision>, expected: seq<int>, samples: map<int, Sample>,
                          events: map<int, SampleEvent>, brackets: seq<Bracket>, segments: seq<Segment>)
    requires samples.Keys == events.Keys
  {
    && |decisions| == |expected|
    && forall i :: 0 <= i < |expected| ==> decisions[i] == Decide(expected[i], samples, events, brackets, segments)
  }

  /** The measured inputs that did not complete; a missing input is neither proven nor unproven. */
  function FailuresOf(decisions: seq<Decision>, samples: map<int, Sample>, proven: bool): seq<int> {
    if decisions == [] then []
    else
      var front, d := FailuresOf(decisions[..|decisions| - 1], samples, proven), decisions[|decisions| - 1];
      if d.ordinal in samples && d.outcome != "complete" && d.atStart.Some? == proven
      then front + [d.ordinal] else front
  }

  predicate Acceptable(s: Sample, ev: SampleEvent, importId: string) {
    && s.duringImport && s.importId == Some(importId)
    && (s.durableUs.Some? ==> s.durableUs.value >= 0)
    && (s.outcome == "complete" ==> s.durableUs.Some? && ev.end.Some?)
  }

  method DecideInput(o: int, samples: map<int, Sample>, events: map<int, SampleEvent>,
                     brackets: seq<Bracket>, segments: seq<Segment>, importId: string)
    returns (r: Result<Decision, EvidenceError>)
    requires samples.Keys == events.Keys
    requires o in samples && samples[o].importId.Some? ==> events[o].durable.Some? == samples[o].durableUs.Some?
    ensures r.Ok? <==> (o in samples ==> Acceptable(samples[o], events[o], importId))
    ensures r.Ok? ==> r.value == Decide(o, samples, events, brackets, segments)
  {
    hide Envelope;
    if o !in samples { return Ok(Decision(o, "missing", None, None)); }
    var sample, ev := samples[o], events[o];
    var full: Option<Proof> := None;
    if !(sample.duringImport && sample.importId == Some(importId)) { return Err(InputContext); }
    var start := Envelope(brackets, segments, ev.start, ev.start);
    if sample.durableUs.Some? {
      if sample.durableUs.value < 0 { return Err(CohortTiming); }
      full := Envelope(brackets, segments, ev.start, ev.durable.value);
    }
    if sample.outcome == "complete" && (sample.durableUs.None? || ev.end.None?) { return Err(MissingAcknowledgment); }
    return Ok(Decision(o, sample.outcome, full, start));
  }

  method Decisions(expected: seq<int>, samples: map<int, Sample>, events: map<int, SampleEvent>,
                   brackets: seq<Bracket>, segments: seq<Segment>, importId: string)
    returns (r: Result<(seq<Decision>, seq<int>, seq<int>), EvidenceError>)
    requires Bound(expected, samples, events)
    ensures r.Ok? <==> forall i :: 0 <= i < |expected| && expected[i] in samples ==>
                                     Acceptable(samples[expected[i]], events[expected[i]], importId)
    ensures r.Ok? ==> Decided(r.value.0, expected, samples, events, brackets, segments)
    ensures r.Ok? ==> r.value.1 == FailuresOf(r.value.0, samples, true)
    ensures r.Ok? ==> r.value.2 == FailuresOf(r.value.0, samples, false)
  {
    hide Decide, Acceptable, FailuresOf;
    NoFailures(samples);
    var decisions: seq<Decision>, failures: seq<int>, unproven: seq<int> := [], [], [];
    for i := 0 to |expected|
      invariant |decisions| == i
      invariant forall k :: 0 <= k < i ==> decisions[k] == Decide(expected[k], samples, events, brackets, segments)
      invariant forall k :: 0 <= k < i && expected[k] in samples ==>
                              Acceptable(samples[expected[k]], events[expected[k]], importId)
      invariant failures == FailuresOf(decisions, samples, true) && unproven == FailuresOf(decisions, samples, false)
    {
      var decided := DecideInput(expected[i], samples, events, brackets, segments, importId);
      if decided.Err? { return Err(decided.error); }
      var d := decided.value;
      if d.ordinal in samples && d.outcome != "complete" {
        if d.atStart.Some? { failures := failures + [d.ordinal]; } else { unproven := unproven + [d.ordinal]; }
      }
      FailuresNext(decisions, samples, d);
      decisions := decisions + [d];
    }
    return Ok((decisions, failures, unproven));
  }

  lemma NoFailures(samples: map<int, Sample>)
    ensures FailuresOf([], samples, true) == [] && FailuresOf([], samples, false) == []
  {
  }

  lemma FailuresNext(decisions: seq<Decision>, samples: map<int, Sample>, d: Decision)
    ensures var failed := d.ordinal in samples && d.outcome != "complete";
            && FailuresOf(decisions + [d], samples, true)
               == FailuresOf(decisions, samples, true) + (if failed && d.atStart.Some? then [d.ordinal] else [])
            && FailuresOf(decisions + [d], samples, false)
               == FailuresOf(decisions, samples, false) + (if failed && d.atStart.None? then [d.ordinal] else [])
  {
    assert (decisions + [d])[..|decisions|] == decisions;
  }

  // ---------------------------------------------------------------- import context and progress

  predicate ContextComplete(rows: seq<Status>, first: int, last: int) {
    && (exists r :: r in rows && r.event < first && Active(r.phase))
    && (exists r :: r in rows && first < r.request && r.request < r.event < last && Active(r.phase))
    && (exists r :: r in rows && r.request > last)
  }

  predicate Progressed(left: Status, right: Status) {
    exists k :: 0 <= k < |left.progress| && k < |right.progress| && right.progress[k] > left.progress[k]
  }

  /** Two neighbouring answers inside the measured stretch between which the import visibly advanced. */
  predicate ProgressPair(left: Status, right: Status, first: int, last: int, brackets: seq<Bracket>,
                         segments: seq<Segment>) {
    && first <= left.request < left.event < right.request < right.event <= last
    && Active(left.phase) && Active(right.phase) && Progressed(left, right)
    && Envelope(brackets, segments, left.request, right.event).Some?
  }

  /** The two statuses stand next to each other. */
  ghost predicate Neighbours(p: (Status, Status), rows: seq<Status>) {
    exists i :: 0 <= i < |rows| - 1 && p == (rows[i], rows[i + 1])
  }

  method ProgressPairs(rows: seq<Status>, first: int, last: int, brackets: seq<Bracket>, segments: seq<Segment>)
    returns (pairs: seq<(Status, Status)>)
    ensures forall p :: p in pairs ==> Neighbours(p, rows) && ProgressPair(p.0, p.1, first, last, brackets, segments)
    ensures forall i :: 0 <= i < |rows| - 1 && ProgressPair(rows[i], rows[i + 1], first, last, brackets, segments) ==>
                          (rows[i], rows[i + 1]) in pairs
  {
    pairs := [];
    for i := 0 to |rows|
      invariant forall p :: p in pairs ==>
                  Neighbours(p, rows) && ProgressPair(p.0, p.1, first, last, brackets, segments)
      invariant forall k :: 0 <= k < i - 1 && ProgressPair(rows[k], rows[k + 1], first, last, brackets, segments) ==>
                              (rows[k], rows[k + 1]) in pairs
    {
      if 0 < i && ProgressPair(rows[i - 1], rows[i], first, last, brackets, segments) {
        pairs := pairs + [(rows[i - 1], rows[i])];
      }
    }
  }

  // ---------------------------------------------------------------- verdict

  predicate Proven(d: Decision) { d.outcome == "complete" && d.durable.Some? }

  function LatencyOf(o: int, samples: map<int, Sample>): int {
    if o in samples && samples[o].durableUs.Some? then samples[o].durableUs.value else 0
  }

  function Latencies(expected: seq<int>, samples: map<int, Sample>): seq<int> {
    seq(|expected|, i requires 0 <= i < |expected| => LatencyOf(expected[i], samples))
  }

  /** `latencyMet` is the verdict of the percentile test on the latencies of all declared inputs. */
  ghost predicate VerdictSound(e: Evaluation, latencyMet: bool) {
    match e.verdict
    case FailedActiveInput => e.failures != []
    case Partial => e.failures == []
                    && ((exists d :: d in e.decisions && !Proven(d)) || e.unproven != [] || !e.context
                        || e.progress == [])
    case FailedLatency => e.failures == e.unproven == [] && e.context && e.progress != [] && !latencyMet
                          && forall d :: d in e.decisions ==> Proven(d)
    case TimingPass => e.failures == e.unproven == [] && e.context && e.progress != [] && latencyMet
                       && forall d :: d in e.decisions ==> Proven(d)
  }

  /** The measured stretch runs from the first input's start to the last input's durable event. */
  predicate Measured(expected: seq<int>, events: map<int, SampleEvent>)
    requires expected != []
  {
    expected[0] in events && expected[|expected| - 1] in events && events[expected[|expected| - 1]].durable.Some?
  }

  ghost predicate ContextAndProgress(e: Evaluation, expected: seq<int>, events: map<int, SampleEvent>,
                                     rows: seq<Status>, brackets: seq<Bracket>, segments: seq<Segment>)
    requires expected != []
  {
    if !Measured(expected, events) then !e.context && e.progress == []
    else
      var first, last := events[expected[0]].start, events[expected[|expected| - 1]].durable.value;
      && (e.context <==> ContextComplete(rows, first, last))
      && (forall p :: p in e.progress ==>
            Neighbours(p, rows) && ProgressPair(p.0, p.1, first, last, brackets, segments))
      && (forall i :: 0 <= i < |rows| - 1 && ProgressPair(rows[i], rows[i + 1], first, last, brackets, segments) ==>
                        (rows[i], rows[i + 1]) in e.progress)
  }

  method Evaluate(expected: seq<int>, samples: map<int, Sample>, events: map<int, SampleEvent>, rows: seq<Status>,
                  brackets: seq<Bracket>, segments: seq<Segment>, importId: string)
    returns (r: Result<Evaluation, EvidenceError>)
    requires expected != [] && Bound(expected, samples, events)
    ensures r.Ok? <==> forall i :: 0 <= i < |expected| && expected[i] in samples ==>
                                     Acceptable(samples[expected[i]], events[expected[i]], importId)
    ensures r.Ok? ==> Decided(r.value.decisions, expected, samples, events, brackets, segments)
    ensures r.Ok? ==> r.value.failures == FailuresOf(r.value.decisions, samples, true)
                      && r.value.unproven == FailuresOf(r.value.decisions, samples, false)
    ensures r.Ok? ==> VerdictSound(r.value, Met(Latencies(expected, samples)))
    ensures r.Ok? ==> ContextAndProgress(r.value, expected, events, rows, brackets, segments)
  {
    var decided := Decisions(expected, samples, events, brackets, segments, importId);
    if decided.Err? { return Err(decided.error); }
    var (decisions, failures, unproven) := decided.value;
    var context, progress := false, [];
    var first, last := expected[0], expected[|expected| - 1];
    if Measured(expected, events) {
      context := ContextComplete(rows, events[first].start, events[last].durable.value);
      progress := ProgressPairs(rows, events[first].start, events[last].durable.value, brackets, segments);
    }
    if failures != [] { return Ok(Evaluation(decisions, failures, unproven, context, progress, FailedActiveInput)); }
    if (exists d :: d in decisions && !Proven(d)) || unproven != [] || !context || progress == [] {
      return Ok(Evaluation(decisions, failures, unproven, context, progress, Partial));
    }
    var verdict := if Met(Latencies(expected, samples)) then TimingPass else FailedLatency;
    return Ok(Evaluation(decisions, failures, unproven, context, progress, verdict));
  }

  // ---------------------------------------------------------------- what a pass means

  /** Every proven input is proven at its start too, so a failed one would have been reported as active. */
  lemma DurableProvesStart(expected: seq<int>, samples: map<int, Sample>, events: map<int, SampleEvent>,
                           brackets: seq<Bracket>, segments: seq<Segment>, o: int)
    requires Bound(expected, samples, events) && Chain(brackets)
    requires Decide(o, samples, events, brackets, segments).durable.Some?
    ensures Decide(o, samples, events, brackets, segments).atStart.Some?
  {
    EnvelopeNarrows(brackets, segments, events[o].start, events[o].durable.value, events[o].start, events[o].start);
  }

  /** The recorded events of a run lie on its timeline. */
  ghost predicate OnTimeline(events: map<int, SampleEvent>, times: seq<nat>) {
    forall o :: o in events ==>
                  1 <= events[o].start
                    && (events[o].durable.Some? ==> events[o].start < events[o].durable.value <= |times|)
  }

  ghost predicate Completed(o: int, samples: map<int, Sample>, events: map<int, SampleEvent>) {
    o in samples && o in events && samples[o].outcome == "complete" && events[o].durable.Some?
  }

  /** The input completed, and its proving worker held the import lock from its start to its durable event. */
  ghost predicate DurableUnderImport(w: World, o: int, samples: map<int, Sample>, events: map<int, SampleEvent>) {
    Completed(o, samples, events) && ActiveStretch(w, events[o].start, events[o].durable.value)
  }

  /** The input's proving worker let go of the import lock before its durable event. */
  ghost predicate ReleasedUnseen(w: World, o: int, events: map<int, SampleEvent>) {
    o in events && events[o].durable.Some? && UnseenRelease(w, events[o].start, events[o].durable.value)
  }

  lemma ProvenMeansActive(steps: seq<Step>, o: int, samples: map<int, Sample>, events: map<int, SampleEvent>)
    requires Run(steps).Some? && samples.Keys == events.Keys && OnTimeline(events, Run(steps).value.times)
    requires Proven(Decide(o, samples, events, Run(steps).value.brackets, Reported(Run(steps).value)))
    ensures var w := Run(steps).value;
            && Completed(o, samples, events)
            && (DurableUnderImport(w, o, samples, events) <==> !ReleasedUnseen(w, o, events))
            && (LocksKept(w) ==> DurableUnderImport(w, o, samples, events))
  {
    hide Run, Reported, Envelope, LocksKept, ActiveStretch, UnseenRelease;
    StretchActive(steps, events[o].start, events[o].durable.value);
  }

  /** The import visibly advanced between two answers, under the import lock throughout. */
  ghost predicate AdvancedUnderImport(w: World, p: (Status, Status)) {
    Progressed(p.0, p.1) && ActiveStretch(w, p.0.request, p.1.event)
  }

  lemma PairMeansActive(steps: seq<Step>, p: (Status, Status), first: int, last: int)
    requires Run(steps).Some? && 1 <= first && last <= |Run(steps).value.times|
    requires ProgressPair(p.0, p.1, first, last, Run(steps).value.brackets, Reported(Run(steps).value))
    ensures var w := Run(steps).value;
            && (AdvancedUnderImport(w, p) <==> !UnseenRelease(w, p.0.request, p.1.event))
            && (LocksKept(w) ==> AdvancedUnderImport(w, p))
  {
    hide Run, Reported, Envelope, LocksKept, ActiveStretch, UnseenRelease;
    StretchActive(steps, p.0.request, p.1.event);
  }

  /**
   In every run, a pass means that each declared input completed, that the import advanced between
   two neighbouring answers, and that the proving worker held the import lock throughout, from each
   input's start to its durable event and over each such advance, exactly when it did not release
   it unseen. None does where the reported workers keep their locks between their polls.
   */
  lemma PassMeansActive(steps: seq<Step>, e: Evaluation, expected: seq<int>, samples: map<int, Sample>,
                        events: map<int, SampleEvent>, rows: seq<Status>)
    requires Run(steps).Some? && expected != [] && Bound(expected, samples, events)
    requires OnTimeline(events, Run(steps).value.times)
    requires Decided(e.decisions, expected, samples, events, Run(steps).value.brackets, Reported(Run(steps).value))
    requires ContextAndProgress(e, expected, events, rows, Run(steps).value.brackets, Reported(Run(steps).value))
    requires e.verdict == TimingPass && VerdictSound(e, true)
    ensures var w := Run(steps).value;
            forall i :: 0 <= i < |expected| ==>
              && Completed(expected[i], samples, events)
              && (DurableUnderImport(w, expected[i], samples, events) <==> !ReleasedUnseen(w, expected[i], events))
              && (LocksKept(w) ==> DurableUnderImport(w, expected[i], samples, events))
    ensures var w := Run(steps).value;
            && e.progress != []
            && forall p :: p in e.progress ==>
                 && Neighbours(p, rows)
                 && (AdvancedUnderImport(w, p) <==> !UnseenRelease(w, p.0.request, p.1.event))
                 && (LocksKept(w) ==> AdvancedUnderImport(w, p))
  {
    hide Run, Reported, Decide, Completed, DurableUnderImport, ReleasedUnseen, AdvancedUnderImport, UnseenRelease,
         LocksKept, ProgressPair;
    forall i | 0 <= i < |expected|
      ensures var w := Run(steps).value;
              && Completed(expected[i], samples, events)
              && (DurableUnderImport(w, expected[i], samples, events) <==> !ReleasedUnseen(w, expected[i], events))
              && (LocksKept(w) ==> DurableUnderImport(w, expected[i], samples, events))
    {
      assert e.decisions[i] in e.decisions;
      ProvenMeansActive(steps, expected[i], samples, events);
    }
    var first, last := events[expected[0]].start, events[expected[|expected| - 1]].durable.value;
    forall p | p in e.progress
      ensures var w := Run(steps).value;
              && Neighbours(p, rows)
              && (AdvancedUnderImport(w, p) <==> !UnseenRelease(w, p.0.request, p.1.event))
              && (LocksKept(w) ==> AdvancedUnderImport(w, p))
    {
      PairMeansActive(steps, p, first, last);
    }
  }

  // ---------------------------------------------------------------- the verdict, told from the evidence

  ghost predicate DidFail(o: int, samples: map<int, Sample>) { o in samples && samples[o].outcome != "complete" }

  /** Some pair of anchors and some native segment prove the moment the input starts. */
  ghost predicate ProvenStart(o: int, events: map<int, SampleEvent>, brackets: seq<Bracket>, segments: seq<Segment>) {
    o in events && Provable(brackets, segments, events[o].start, events[o].start)
  }

  /** The input completed, durably, and is proven from its start to its durable event. */
  ghost predicate ProvenDurable(o: int, samples: map<int, Sample>, events: map<int, SampleEvent>,
                                brackets: seq<Bracket>, segments: seq<Segment>) {
    && o in samples && o in events && samples[o].outcome == "complete"
    && samples[o].durableUs.Some? && events[o].durable.Some?
    && Provable(brackets, segments, events[o].start, events[o].durable.value)
  }

  lemma DecisionTold(o: int, expected: seq<int>, samples: map<int, Sample>, events: map<int, SampleEvent>,
                     brackets: seq<Bracket>, segments: seq<Segment>)
    requires Bound(expected, samples, events) && Chain(brackets)
    ensures var d := Decide(o, samples, events, brackets, segments);
            && (Proven(d) <==> ProvenDurable(o, samples, events, brackets, segments))
            && (o in samples && d.outcome != "complete" <==> DidFail(o, samples))
            && (o in samples ==> (d.atStart.Some? <==> ProvenStart(o, events, brackets, segments)))
            && d.ordinal == o
  {
    hide Envelope, Provable;
    if o in samples {
      EnvelopeComplete(brackets, segments, events[o].start, events[o].start);
      if events[o].durable.Some? {
        EnvelopeComplete(brackets, segments, events[o].start, events[o].durable.value);
      }
    }
  }

  lemma {:induction false} FailuresExact(decisions: seq<Decision>, samples: map<int, Sample>, proven: bool, o: int)
    ensures o in FailuresOf(decisions, samples, proven) <==>
              exists i :: 0 <= i < |decisions| && decisions[i].ordinal == o && o in samples
                          && decisions[i].outcome != "complete" && decisions[i].atStart.Some? == proven
  {
    if decisions != [] {
      var front := decisions[..|decisions| - 1];
      FailuresExact(front, samples, proven, o);
      if i :| 0 <= i < |decisions| && decisions[i].ordinal == o && o in samples
              && decisions[i].outcome != "complete" && decisions[i].atStart.Some? == proven {
        if i < |front| { assert front[i] == decisions[i]; }
      }
      if o in FailuresOf(front, samples, proven) {
        var i :| 0 <= i < |front| && front[i].ordinal == o && front[i].outcome != "complete"
                 && front[i].atStart.Some? == proven;
        assert decisions[i] == front[i];
      }
    }
  }

  lemma FailuresTold(decisions: seq<Decision>, expected: seq<int>, samples: map<int, Sample>,
                     events: map<int, SampleEvent>, brackets: seq<Bracket>, segments: seq<Segment>, o: int)
    requires Bound(expected, samples, events) && Chain(brackets)
    requires Decided(decisions, expected, samples, events, brackets, segments)
    ensures o in FailuresOf(decisions, samples, true) <==>
              o in expected && DidFail(o, samples) && ProvenStart(o, events, brackets, segments)
    ensures o in FailuresOf(decisions, samples, false) <==>
              o in expected && DidFail(o, samples) && !ProvenStart(o, events, brackets, segments)
  {
    hide Decide, FailuresOf, ProvenStart, ProvenDurable, Proven;
    FailuresExact(decisions, samples, true, o);
    FailuresExact(decisions, samples, false, o);
    DecisionTold(o, expected, samples, events, brackets, segments);
    forall i | 0 <= i < |expected| ensures decisions[i].ordinal == expected[i] {
      DecisionTold(expected[i], expected, samples, events, brackets, segments);
    }
    if o in expected {
      var i :| 0 <= i < |expected| && expected[i] == o;
      assert decisions[i].ordinal == o;
    }
  }

  /**
   The verdict, from the anchors, the segments and the outcomes alone: it fails exactly when some input
   failed that was proven active at its start; otherwise it is partial exactly when some declared input
   is not proven durable, some failure is not proven, or context or progress is missing; and otherwise
   latency decides.
   */
  lemma VerdictTold(e: Evaluation, expected: seq<int>, samples: map<int, Sample>, events: map<int, SampleEvent>,
                    brackets: seq<Bracket>, segments: seq<Segment>, latencyMet: bool)
    requires Bound(expected, samples, events) && Chain(brackets)
    requires Decided(e.decisions, expected, samples, events, brackets, segments)
    requires e.failures == FailuresOf(e.decisions, samples, true)
    requires e.unproven == FailuresOf(e.decisions, samples, false) && VerdictSound(e, latencyMet)
    ensures var active := exists o ::
              o in expected && DidFail(o, samples) && ProvenStart(o, events, brackets, segments);
            var open := exists o :: o in expected && !ProvenDurable(o, samples, events, brackets, segments);
            && (e.verdict == FailedActiveInput <==> active)
            && (e.verdict == Partial <==> !active && (open || !e.context || e.progress == []))
            && (e.verdict == TimingPass ==> latencyMet) && (e.verdict == FailedLatency ==> !latencyMet)
  {
    hide Decide, FailuresOf, ProvenStart, ProvenDurable, Proven;
    forall o
      ensures o in e.failures <==> o in expected && DidFail(o, samples) && ProvenStart(o, events, brackets, segments)
      ensures o in e.unproven <==> o in expected && DidFail(o, samples) && !ProvenStart(o, events, brackets, segments)
    {
      FailuresTold(e.decisions, expected, samples, events, brackets, segments, o);
    }
    if e.failures != [] {
      var o := e.failures[0];
      assert o in e.failures;
      assert o in expected && DidFail(o, samples) && ProvenStart(o, events, brackets, segments);
    }
    if e.unproven != [] {
      var o := e.unproven[0];
      assert o in e.unproven;
      assert o in expected && DidFail(o, samples) && !ProvenStart(o, events, brackets, segments);
    }
    forall i | 0 <= i < |expected|
      ensures Proven(e.decisions[i]) <==> ProvenDurable(expected[i], samples, events, brackets, segments)
      ensures DidFail(expected[i], samples) ==> !Proven(e.decisions[i])
    {
      DecisionTold(expected[i], expected, samples, events, brackets, segments);
      FailedUnproven(expected[i], samples, events, brackets, segments);
    }
    forall o | o in expected && !ProvenDurable(o, samples, events, brackets, segments)
      ensures exists d :: d in e.decisions && !Proven(d)
    {
      var i :| 0 <= i < |expected| && expected[i] == o;
      assert e.decisions[i] in e.decisions;
    }
    forall d | d in e.decisions && !Proven(d)
      ensures exists o :: o in expected && !ProvenDurable(o, samples, events, brackets, segments)
    {
      var i :| 0 <= i < |e.decisions| && e.decisions[i] == d;
      assert expected[i] in expected;
    }
    if e.unproven != [] {
      assert !ProvenDurable(e.unproven[0], samples, events, brackets, segments) by {
        FailedUnproven(e.unproven[0], samples, events, brackets, segments);
      }
    }
  }

  lemma FailedUnproven(o: int, samples: map<int, Sample>, events: map<int, SampleEvent>, brackets: seq<Bracket>,
                       segments: seq<Segment>)
    ensures DidFail(o, samples) ==> !ProvenDurable(o, samples, events, brackets, segments)
  {
  }

  /** A pass leaves at most five of the hundred slower than a hundred milliseconds; a failed latency, at least five. */
  lemma LatencyTold(e: Evaluation, expected: seq<int>, samples: map<int, Sample>)
    requires |expected| == 100 && VerdictSound(e, Met(Latencies(expected, samples)))
    ensures e.verdict == TimingPass ==> Slow(Latencies(expected, samples)) <= 5
    ensures e.verdict == FailedLatency ==> Slow(Latencies(expected, samples)) >= 5
  {
    hide Met, Slow;
    HundredMet(Latencies(expected, samples));
  }

  // ---------------------------------------------------------------- what progress and context say of the import

  /** All that the import has counted by an answer. */
  function Counted(progress: seq<nat>): nat {
    if progress == [] then 0 else Counted(progress[..|progress| - 1]) + progress[|progress| - 1]
  }

  lemma {:induction false} CountedGrows(a: seq<nat>, b: seq<nat>)
    requires |a| == |b| && forall k :: 0 <= k < |a| ==> a[k] <= b[k]
    ensures Counted(a) <= Counted(b)
    ensures (exists k :: 0 <= k < |a| && a[k] < b[k]) ==> Counted(a) < Counted(b)
  {
    if a != [] {
      var n := |a| - 1;
      CountedGrows(a[..n], b[..n]);
      if k :| 0 <= k < |a| && a[k] < b[k] {
        if k < n { assert a[..n][k] < b[..n][k]; }
      }
    }
  }

  /** Between the answers of a reported pair the import has counted more than before. */
  lemma PairCounts(p: (Status, Status), rows: seq<Status>)
    requires TimelineSound(rows) && Neighbours(p, rows) && Progressed(p.0, p.1)
    ensures Counted(p.0.progress) < Counted(p.1.progress)
  {
    hide TimelineSound;
    var i :| 0 <= i < |rows| - 1 && p == (rows[i], rows[i + 1]);
    NextFollows(rows, i + 1);
    CountedGrows(p.0.progress, p.1.progress);
  }

  /**
   In a pass the import was under way at every answer up to one within the measured stretch, it was
   heard of after the stretch, and it counted more between the answers of each reported pair.
   */
  lemma PassAdvances(e: Evaluation, expected: seq<int>, events: map<int, SampleEvent>, rows: seq<Status>,
                     brackets: seq<Bracket>, segments: seq<Segment>)
    requires expected != [] && TimelineSound(rows)
    requires ContextAndProgress(e, expected, events, rows, brackets, segments)
    requires e.verdict == TimingPass && VerdictSound(e, true)
    ensures Measured(expected, events)
    ensures var first, last := events[expected[0]].start, events[expected[|expected| - 1]].durable.value;
            && (exists m :: 0 <= m < |rows| && first < rows[m].request && rows[m].event < last
                            && forall i :: 0 <= i <= m ==> !Terminal(rows[i].phase))
            && (exists i :: 0 <= i < |rows| && last < rows[i].request)
    ensures e.progress != [] && forall p :: p in e.progress ==> Counted(p.0.progress) < Counted(p.1.progress)
  {
    hide TimelineSound, Neighbours, Terminal, Active;
    var first, last := events[expected[0]].start, events[expected[|expected| - 1]].durable.value;
    assert ContextComplete(rows, first, last);
    var r :| r in rows && first < r.request && r.request < r.event < last && Active(r.phase);
    var m :| 0 <= m < |rows| && rows[m] == r;
    forall i | 0 <= i <= m ensures !Terminal(rows[i].phase) { UnderWay(rows, i, m); }
    var s :| s in rows && s.request > last;
    var j :| 0 <= j < |rows| && rows[j] == s;
    forall p | p in e.progress ensures Counted(p.0.progress) < Counted(p.1.progress) { PairCounts(p, rows); }
  }

  /** A terminal phase is final, so the answers before an active one were not terminal. */
  lemma UnderWay(rows: seq<Status>, i: nat, m: nat)
    requires TimelineSound(rows) && i <= m < |rows| && Active(rows[m].phase)
    ensures !Terminal(rows[i].phase)
  {
    hide TimelineSound;
    if i < m { TimelineMonotone(rows, i, m); }
  }
}
