/** The export evaluator: two hundred declared inputs, of which the first hundred proven ones count. */
module ExportOverlap {
  import opened Results
  import opened CausalBrackets
  import opened Envelopes
  import opened LatencyTest
  import opened ObserverReports
  import opened OverlapRuns
  import opened Sequences

  const COHORT_SIZE := 100

  datatype Sample = Sample(outcome: string, duringExport: bool, durableUs: Option<int>, presentationUs: Option<int>)

  datatype SampleEvent = SampleEvent(ordinal: int, start: int, end: int)

  datatype Decision = Decision(ordinal: int, outcome: string, complete: Option<Proof>, atStart: Option<Proof>)

  datatype Verdict = FailedActiveInput | Partial | FailedLatency | TimingPass

  datatype Evaluation = Evaluation(cohort: seq<int>, decisions: seq<Decision>, failures: seq<int>,
                                   unproven: seq<int>, verdict: Verdict)

  // ---------------------------------------------------------------- sample events

  function UsedEvents(rows: seq<SampleEvent>, seen: set<int>): set<int> {
    if rows == [] then seen
    else UsedEvents(rows[..|rows| - 1], seen) + {rows[|rows| - 1].start, rows[|rows| - 1].end}
  }

  function OrdinalsOf(rows: seq<SampleEvent>): set<int> {
    if rows == [] then {} else OrdinalsOf(rows[..|rows| - 1]) + {rows[|rows| - 1].ordinal}
  }

  /** What row `i` has to meet: a declared input not seen before, and two unused events in order. */
  ghost predicate RowAdmissible(rows: seq<SampleEvent>, i: nat, ordinals: set<int>, seen: set<int>, ctx: Context)
    requires i < |rows|
  {
    var row, used := rows[i], UsedEvents(rows[..i], seen);
    && row.ordinal in ordinals && row.ordinal !in OrdinalsOf(rows[..i])
    && EventInRange(row.start, ctx) && EventInRange(row.end, ctx)
    && row.start !in used && row.end !in used && row.start < row.end
  }

  /** One row per input, each with two unused event numbers in the right order; nothing else is accepted. */
  method BindSamples(rows: seq<SampleEvent>, ordinals: set<int>, seen: set<int>, ctx: Context)
    returns (r: Result<map<int, SampleEvent>, EvidenceError>)
    ensures r.Ok? <==> (forall i :: 0 <= i < |rows| ==> RowAdmissible(rows, i, ordinals, seen, ctx))
                       && OrdinalsOf(rows) == ordinals
    ensures r.Ok? ==> r.value.Keys == ordinals
    ensures r.Ok? ==> forall i :: 0 <= i < |rows| ==> rows[i].ordinal in r.value && r.value[rows[i].ordinal] == rows[i]
  {
    var used, bound := seen, map[];
    for i := 0 to |rows|
      invariant forall k :: 0 <= k < i ==> RowAdmissible(rows, k, ordinals, seen, ctx)
      invariant used == UsedEvents(rows[..i], seen)
      invariant bound.Keys == OrdinalsOf(rows[..i])
      invariant forall k :: 0 <= k < i ==> rows[k].ordinal in bound && bound[rows[k].ordinal] == rows[k]
    {
      var row := rows[i];
      if row.ordinal in bound || row.ordinal !in ordinals {
        assert !RowAdmissible(rows, i, ordinals, seen, ctx);
        return Err(SampleOrder);
      }
      if !EventInRange(row.start, ctx) || row.start in used {
        assert !RowAdmissible(rows, i, ordinals, seen, ctx);
        return Err(BadEvent);
      }
      if !EventInRange(row.end, ctx) || row.end in used || row.end == row.start {
        assert !RowAdmissible(rows, i, ordinals, seen, ctx);
        return Err(BadEvent);
      }
      if row.start >= row.end {
        assert !RowAdmissible(rows, i, ordinals, seen, ctx);
        return Err(SampleOrder);
      }
      assert rows[..i + 1][..i] == rows[..i];
      used := used + {row.start, row.end};
      bound := bound[row.ordinal := row];
    }
    assert rows[..|rows|] == rows;
    if bound.Keys != ordinals { return Err(SampleOrder); }
    return Ok(bound);
  }

  // ---------------------------------------------------------------- cohort and verdict

  function Decide(ordinal: int, sample: Sample, ev: SampleEvent, brackets: seq<Bracket>,
                  segments: seq<Segment>): Decision {
    Decision(ordinal, sample.outcome, Envelope(brackets, segments, ev.start, ev.end),
             Envelope(brackets, segments, ev.start, ev.start))
  }

  function CohortOf(decisions: seq<Decision>): seq<int> {
    if decisions == [] then []
    else
      var front, d := CohortOf(decisions[..|decisions| - 1]), decisions[|decisions| - 1];
      if d.complete.Some? && |front| < COHORT_SIZE then front + [d.ordinal] else front
  }

  /** The failed inputs whose start is, or is not, proven to lie in a native segment. */
  function FailuresOf(decisions: seq<Decision>, proven: bool): seq<int> {
    if decisions == [] then []
    else
      var front, d := FailuresOf(decisions[..|decisions| - 1], proven), decisions[|decisions| - 1];
      if d.outcome != "complete" && d.atStart.Some? == proven then front + [d.ordinal] else front
  }

  predicate Timed(s: Sample) {
    && s.outcome == "complete" && s.duringExport && s.durableUs.Some? && s.presentationUs.Some?
    && 0 <= s.durableUs.value <= s.presentationUs.value
  }

  /** The inputs of the evaluation, as bound and checked before selection starts. */
  ghost predicate Bound(expected: seq<int>, samples: map<int, Sample>, events: map<int, SampleEvent>) {
    && (forall o :: o in expected ==> o in samples && o in events)
    && (forall o :: o in expected ==> events[o].start < events[o].end)
    && (forall i, j :: 0 <= i < j < |expected| ==> expected[i] < expected[j])
  }

  ghost predicate Decided(decisions: seq<Decision>, expected: seq<int>, samples: map<int, Sample>,
                          events: map<int, SampleEvent>, brackets: seq<Bracket>, segments: seq<Segment>)
    requires Bound(expected, samples, events)
  {
    && |decisions| == |expected|
    && forall i :: 0 <= i < |expected| ==>
                     decisions[i] == Decide(expected[i], samples[expected[i]], events[expected[i]], brackets, segments)
  }

  ghost predicate Selected(e: Evaluation) {
    && e.cohort == CohortOf(e.decisions)
    && e.failures == FailuresOf(e.decisions, true) && e.unproven == FailuresOf(e.decisions, false)
  }

  function Latency(s: Sample): int { if s.durableUs.Some? then s.durableUs.value else 0 }

  function Latencies(cohort: seq<int>, samples: map<int, Sample>): seq<int>
    requires forall i :: 0 <= i < |cohort| ==> cohort[i] in samples
  {
    seq(|cohort|, i requires 0 <= i < |cohort| => Latency(samples[cohort[i]]))
  }

  ghost predicate AllTimed(cohort: seq<int>, samples: map<int, Sample>) {
    forall i :: 0 <= i < |cohort| ==> cohort[i] in samples && Timed(samples[cohort[i]])
  }

  /** The selection loop. It reads outcomes, events and native evidence, never a latency. */
  method Select(expected: seq<int>, samples: map<int, Sample>, events: map<int, SampleEvent>,
                brackets: seq<Bracket>, segments: seq<Segment>)
    returns (selected: seq<int>, decisions: seq<Decision>, failures: seq<int>, unproven: seq<int>)
    requires Bound(expected, samples, events)
    ensures Decided(decisions, expected, samples, events, brackets, segments)
    ensures selected == CohortOf(decisions)
    ensures failures == FailuresOf(decisions, true) && unproven == FailuresOf(decisions, false)
  {
    hide Envelope, CohortOf, FailuresOf;
    NothingSelected();
    selected, decisions, failures, unproven := [], [], [], [];
    for i := 0 to |expected|
      invariant |decisions| == i
      invariant forall k :: 0 <= k < i ==>
                              decisions[k] == Decide(expected[k], samples[expected[k]], events[expected[k]], brackets,
                                                     segments)
      invariant selected == CohortOf(decisions)
      invariant failures == FailuresOf(decisions, true) && unproven == FailuresOf(decisions, false)
    {
      var ordinal := expected[i];
      var sample, ev := samples[ordinal], events[ordinal];
      var full := Envelope(brackets, segments, ev.start, ev.end);
      var start := Envelope(brackets, segments, ev.start, ev.start);
      var decision := Decision(ordinal, sample.outcome, full, start);
      SelectedNext(decisions, decision);
      if sample.outcome != "complete" {
        if start.Some? { failures := failures + [ordinal]; } else { unproven := unproven + [ordinal]; }
      }
      if full.Some? && |selected| < COHORT_SIZE {
        selected := selected + [ordinal];
      }
      decisions := decisions + [decision];
    }
  }

  lemma NothingSelected()
    ensures CohortOf([]) == FailuresOf([], true) == FailuresOf([], false) == []
  {
  }

  lemma SelectedNext(decisions: seq<Decision>, d: Decision)
    ensures CohortOf(decisions + [d])
            == CohortOf(decisions)
              + (if d.complete.Some? && |CohortOf(decisions)| < COHORT_SIZE then [d.ordinal] else [])
    ensures forall proven ::
              FailuresOf(decisions + [d], proven)
              == FailuresOf(decisions, proven)
                 + (if d.outcome != "complete" && d.atStart.Some? == proven then [d.ordinal] else [])
  {
    assert (decisions + [d])[..|decisions|] == decisions;
  }

  method CheckTimed(cohort: seq<int>, samples: map<int, Sample>) returns (ok: bool)
    requires forall i :: 0 <= i < |cohort| ==> cohort[i] in samples
    ensures ok <==> AllTimed(cohort, samples)
  {
    for i := 0 to |cohort|
      invariant forall k :: 0 <= k < i ==> Timed(samples[cohort[k]])
    {
      if !Timed(samples[cohort[i]]) { return false; }
    }
    return true;
  }

  /** The verdict is a function of the selection and, only where the cohort is full and sound, of latency. */
  ghost predicate VerdictSound(e: Evaluation, samples: map<int, Sample>, p95Met: seq<int> -> bool) {
    match e.verdict
    case FailedActiveInput => e.failures != []
    case Partial => e.failures == [] && (|e.cohort| < COHORT_SIZE || e.unproven != [])
    case FailedLatency => e.failures == e.unproven == [] && |e.cohort| >= COHORT_SIZE && AllTimed(e.cohort, samples)
                          && !p95Met(Latencies(e.cohort, samples))
    case TimingPass => e.failures == e.unproven == [] && |e.cohort| >= COHORT_SIZE && AllTimed(e.cohort, samples)
                       && p95Met(Latencies(e.cohort, samples))
  }

  /** Evidence is refused exactly when a full, unfailed cohort has an input with unsound timing. */
  method Evaluate(expected: seq<int>, samples: map<int, Sample>, events: map<int, SampleEvent>,
                  brackets: seq<Bracket>, segments: seq<Segment>)
    returns (r: Result<Evaluation, EvidenceError>)
    requires Bound(expected, samples, events)
    ensures r.Ok? ==> Decided(r.value.decisions, expected, samples, events, brackets, segments)
    ensures r.Ok? ==> Selected(r.value) && VerdictSound(r.value, samples, Met)
    ensures r.Err? ==> forall d :: Decided(d, expected, samples, events, brackets, segments) ==>
                                     FailuresOf(d, true) == FailuresOf(d, false) == [] && |CohortOf(d)| >= COHORT_SIZE
                                     && !AllTimed(CohortOf(d), samples)
  {
    var selected, decisions, failures, unproven := Select(expected, samples, events, brackets, segments);
    if failures != [] { return Ok(Evaluation(selected, decisions, failures, unproven, FailedActiveInput)); }
    if |selected| < COHORT_SIZE || unproven != [] {
      return Ok(Evaluation(selected, decisions, failures, unproven, Partial));
    }
    CohortExpected(decisions, expected);
    assert forall k :: 0 <= k < |selected| ==> selected[k] in expected;
    var timed := CheckTimed(selected, samples);
    if !timed {
      forall d | Decided(d, expected, samples, events, brackets, segments) ensures d == decisions {}
      return Err(CohortTiming);
    }
    var verdict := if Met(Latencies(selected, samples)) then TimingPass else FailedLatency;
    return Ok(Evaluation(selected, decisions, failures, unproven, verdict));
  }

  lemma CohortExpected(decisions: seq<Decision>, expected: seq<int>)
    requires |decisions| == |expected| && forall i :: 0 <= i < |expected| ==> decisions[i].ordinal == expected[i]
    ensures forall k :: 0 <= k < |CohortOf(decisions)| ==> CohortOf(decisions)[k] in expected
  {
    CohortFromDecisions(decisions);
    forall k | 0 <= k < |CohortOf(decisions)| ensures CohortOf(decisions)[k] in expected {
      var o := CohortOf(decisions)[k];
      assert o in CohortOf(decisions);
      var d :| d in decisions && d.ordinal == o && d.complete.Some?;
      var i :| 0 <= i < |decisions| && decisions[i] == d;
      assert expected[i] == o;
    }
  }

  // ---------------------------------------------------------------- what an evaluation means

  /** The cohort lists inputs with a full envelope, in order, and stops at the hundredth. */
  lemma {:induction false} CohortFromDecisions(decisions: seq<Decision>)
    ensures |CohortOf(decisions)| <= COHORT_SIZE
    ensures forall o :: o in CohortOf(decisions) ==> exists d :: d in decisions && d.ordinal == o && d.complete.Some?
    ensures |CohortOf(decisions)| < COHORT_SIZE ==>
              forall d :: d in decisions && d.complete.Some? ==> d.ordinal in CohortOf(decisions)
  {
    if decisions != [] {
      CohortFromDecisions(decisions[..|decisions| - 1]);
      var front, last := decisions[..|decisions| - 1], decisions[|decisions| - 1];
      assert decisions == front + [last];
      forall o | o in CohortOf(decisions) ensures exists d :: d in decisions && d.ordinal == o && d.complete.Some? {
        if o in CohortOf(front) {
          var d :| d in front && d.ordinal == o && d.complete.Some?;
          assert d in decisions;
        } else {
          assert last in decisions;
        }
      }
    }
  }

  /** All inputs with a full envelope, in order. */
  function ProvenOf(decisions: seq<Decision>): seq<int> {
    if decisions == [] then []
    else
      var front, d := ProvenOf(decisions[..|decisions| - 1]), decisions[|decisions| - 1];
      if d.complete.Some? then front + [d.ordinal] else front
  }

  /** The cohort is the first hundred of all proven inputs. */
  lemma {:induction false} CohortIsFirst(decisions: seq<Decision>)
    ensures var proven := ProvenOf(decisions);
            CohortOf(decisions) == if |proven| <= COHORT_SIZE then proven else proven[..COHORT_SIZE]
  {
    if decisions != [] { CohortIsFirst(decisions[..|decisions| - 1]); }
  }

  /** It is frozen: later decisions only extend it, and once full it never changes. */
  lemma {:induction false} CohortFrozen(decisions: seq<Decision>, more: seq<Decision>)
    ensures CohortOf(decisions) <= CohortOf(decisions + more)
    ensures |CohortOf(decisions)| == COHORT_SIZE ==> CohortOf(decisions + more) == CohortOf(decisions)
  {
    if more == [] {
      assert decisions + more == decisions;
    } else {
      var front, last := more[..|more| - 1], more[|more| - 1];
      CohortFrozen(decisions, front);
      CohortFromDecisions(decisions + front);
      SelectedNext(decisions + front, last);
      assert decisions + more == (decisions + front) + [last];
    }
  }

  lemma {:induction false} CohortIncreasing(decisions: seq<Decision>)
    requires forall i, j :: 0 <= i < j < |decisions| ==> decisions[i].ordinal < decisions[j].ordinal
    ensures forall i, j :: 0 <= i < j < |CohortOf(decisions)| ==> CohortOf(decisions)[i] < CohortOf(decisions)[j]
  {
    if decisions != [] {
      var front, last := decisions[..|decisions| - 1], decisions[|decisions| - 1];
      CohortIncreasing(front);
      CohortFromDecisions(front);
      forall o | o in CohortOf(front) ensures o < last.ordinal {
        var d :| d in front && d.ordinal == o && d.complete.Some?;
        var i :| 0 <= i < |front| && front[i] == d;
        assert decisions[i] == d;
      }
      assert forall i :: 0 <= i < |CohortOf(front)| ==> CohortOf(front)[i] in CohortOf(front);
    }
  }

  lemma {:induction false} FailuresFromDecisions(decisions: seq<Decision>, proven: bool, d: Decision)
    requires d in decisions && d.outcome != "complete" && d.atStart.Some? == proven
    ensures d.ordinal in FailuresOf(decisions, proven)
  {
    var front, last := decisions[..|decisions| - 1], decisions[|decisions| - 1];
    assert decisions == front + [last];
    if d in front {
      FailuresFromDecisions(front, proven, d);
    }
  }

  /** A failed input in the cohort can never be averaged away: it forces the failing verdict. */
  lemma FailedCohortInputFails(e: Evaluation, expected: seq<int>, samples: map<int, Sample>,
                               events: map<int, SampleEvent>, brackets: seq<Bracket>, segments: seq<Segment>,
                               p95Met: seq<int> -> bool, o: int)
    requires Bound(expected, samples, events) && Chain(brackets)
    requires Decided(e.decisions, expected, samples, events, brackets, segments)
    requires Selected(e) && VerdictSound(e, samples, p95Met)
    requires o in e.cohort && (o in samples ==> samples[o].outcome != "complete")
    ensures o in e.failures && e.verdict == FailedActiveInput
  {
    CohortFromDecisions(e.decisions);
    var d :| d in e.decisions && d.ordinal == o && d.complete.Some?;
    var i :| 0 <= i < |e.decisions| && e.decisions[i] == d;
    assert expected[i] in expected;
    EnvelopeNarrows(brackets, segments, events[o].start, events[o].end, events[o].start, events[o].start);
    FailuresFromDecisions(e.decisions, true, d);
  }

  /** A verdict on selection alone. */
  predicate Unmeasured(v: Verdict) { v.FailedActiveInput? || v.Partial? }

  /**
   Receipts that differ only in latency values are selected, decided and failed alike, and a verdict
   that does not rest on latency is given to both.
   */
  lemma LatencyBlind(e: Evaluation, f: Evaluation, expected: seq<int>, a: map<int, Sample>, b: map<int, Sample>,
                     events: map<int, SampleEvent>, brackets: seq<Bracket>, segments: seq<Segment>,
                     p95Met: seq<int> -> bool)
    requires Bound(expected, a, events) && Bound(expected, b, events)
    requires forall o :: o in expected ==> a[o].outcome == b[o].outcome
    requires Decided(e.decisions, expected, a, events, brackets, segments) && Selected(e) && VerdictSound(e, a, p95Met)
    requires Decided(f.decisions, expected, b, events, brackets, segments) && Selected(f) && VerdictSound(f, b, p95Met)
    ensures e.(verdict := f.verdict) == f
    ensures Unmeasured(e.verdict) || Unmeasured(f.verdict) ==> e == f
  {
    hide Envelope;
    forall i | 0 <= i < |expected| ensures e.decisions[i] == f.decisions[i] {
      assert expected[i] in expected;
    }
    assert e.decisions == f.decisions;
  }

  /** With no failure reported, every declared input completed, whether selected or not. */
  lemma {:induction false} NoFailureAllComplete(decisions: seq<Decision>, d: Decision)
    requires FailuresOf(decisions, true) == FailuresOf(decisions, false) == [] && d in decisions
    ensures d.outcome == "complete"
  {
    if d.outcome != "complete" { FailuresFromDecisions(decisions, d.atStart.Some?, d); }
  }

  lemma CohortDecision(decisions: seq<Decision>, expected: seq<int>, o: int) returns (i: nat)
    requires |decisions| == |expected| && forall i :: 0 <= i < |expected| ==> decisions[i].ordinal == expected[i]
    requires o in CohortOf(decisions)
    ensures i < |expected| && expected[i] == o && decisions[i].complete.Some?
  {
    CohortFromDecisions(decisions);
    var d :| d in decisions && d.ordinal == o && d.complete.Some?;
    i :| 0 <= i < |decisions| && decisions[i] == d;
  }

  // ---------------------------------------------------------------- the verdict, told from the evidence

  /** Some pair of anchors and some native segment prove the input from its start to its end. */
  ghost predicate ProvenThrough(o: int, events: map<int, SampleEvent>, brackets: seq<Bracket>, segments: seq<Segment>) {
    o in events && Provable(brackets, segments, events[o].start, events[o].end)
  }

  /** The same for the moment it starts. */
  ghost predicate ProvenStart(o: int, events: map<int, SampleEvent>, brackets: seq<Bracket>, segments: seq<Segment>) {
    o in events && Provable(brackets, segments, events[o].start, events[o].start)
  }

  ghost predicate DidFail(o: int, samples: map<int, Sample>) { o in samples && samples[o].outcome != "complete" }

  lemma DecisionTold(o: int, expected: seq<int>, samples: map<int, Sample>, events: map<int, SampleEvent>,
                     brackets: seq<Bracket>, segments: seq<Segment>)
    requires Bound(expected, samples, events) && Chain(brackets) && o in expected
    ensures var d := Decide(o, samples[o], events[o], brackets, segments);
            && (d.complete.Some? <==> ProvenThrough(o, events, brackets, segments))
            && (d.atStart.Some? <==> ProvenStart(o, events, brackets, segments))
            && (d.outcome != "complete" <==> DidFail(o, samples))
  {
    hide Envelope, Provable;
    EnvelopeComplete(brackets, segments, events[o].start, events[o].end);
    EnvelopeComplete(brackets, segments, events[o].start, events[o].start);
  }

  lemma {:induction false} FailuresExact(decisions: seq<Decision>, proven: bool, o: int)
    ensures o in FailuresOf(decisions, proven) <==>
              exists i :: 0 <= i < |decisions| && decisions[i].ordinal == o && decisions[i].outcome != "complete"
                          && decisions[i].atStart.Some? == proven
  {
    if decisions != [] {
      var front := decisions[..|decisions| - 1];
      FailuresExact(front, proven, o);
      if i :| 0 <= i < |decisions| && decisions[i].ordinal == o && decisions[i].outcome != "complete"
              && decisions[i].atStart.Some? == proven {
        if i < |front| { assert front[i] == decisions[i]; }
      }
      if o in FailuresOf(front, proven) {
        var i :| 0 <= i < |front| && front[i].ordinal == o && front[i].outcome != "complete"
                 && front[i].atStart.Some? == proven;
        assert decisions[i] == front[i];
      }
    }
  }

  /** A failed input is reported as active or as unproven, by whether its start is proven. */
  lemma FailuresTold(e: Evaluation, expected: seq<int>, samples: map<int, Sample>, events: map<int, SampleEvent>,
                     brackets: seq<Bracket>, segments: seq<Segment>, o: int)
    requires Bound(expected, samples, events) && Chain(brackets)
    requires Decided(e.decisions, expected, samples, events, brackets, segments) && Selected(e)
    ensures o in e.failures <==> o in expected && DidFail(o, samples) && ProvenStart(o, events, brackets, segments)
    ensures o in e.unproven <==> o in expected && DidFail(o, samples) && !ProvenStart(o, events, brackets, segments)
  {
    hide Envelope, Provable, FailuresOf, ProvenStart, ProvenThrough, DidFail;
    FailuresExact(e.decisions, true, o);
    FailuresExact(e.decisions, false, o);
    forall i | 0 <= i < |expected|
      ensures e.decisions[i].ordinal == expected[i]
      ensures e.decisions[i].outcome != "complete" <==> DidFail(expected[i], samples)
      ensures e.decisions[i].atStart.Some? <==> ProvenStart(expected[i], events, brackets, segments)
    {
      assert expected[i] in expected;
      DecisionTold(expected[i], expected, samples, events, brackets, segments);
    }
    if o in expected {
      var i :| 0 <= i < |expected| && expected[i] == o;
      assert e.decisions[i].ordinal == o;
    }
  }

  lemma {:induction false} ProvenExact(decisions: seq<Decision>, o: int)
    ensures o in ProvenOf(decisions) <==>
              exists i :: 0 <= i < |decisions| && decisions[i].ordinal == o && decisions[i].complete.Some?
  {
    if decisions != [] {
      var front := decisions[..|decisions| - 1];
      ProvenExact(front, o);
      if i :| 0 <= i < |decisions| && decisions[i].ordinal == o && decisions[i].complete.Some? {
        if i < |front| { assert front[i] == decisions[i]; }
      }
      if o in ProvenOf(front) {
        var i :| 0 <= i < |front| && front[i].ordinal == o && front[i].complete.Some?;
        assert decisions[i] == front[i];
      }
    }
  }

  lemma {:induction false} ProvenIncreasing(decisions: seq<Decision>)
    requires forall i, j :: 0 <= i < j < |decisions| ==> decisions[i].ordinal < decisions[j].ordinal
    ensures forall i, j :: 0 <= i < j < |ProvenOf(decisions)| ==> ProvenOf(decisions)[i] < ProvenOf(decisions)[j]
  {
    if decisions != [] {
      var front, last := decisions[..|decisions| - 1], decisions[|decisions| - 1];
      ProvenIncreasing(front);
      forall i | 0 <= i < |ProvenOf(front)| ensures ProvenOf(front)[i] < last.ordinal {
        assert ProvenOf(front)[i] in ProvenOf(front);
        ProvenExact(front, ProvenOf(front)[i]);
      }
    }
  }

  /** The inputs that are proven from start to end. */
  ghost function ProvenInputs(expected: seq<int>, events: map<int, SampleEvent>, brackets: seq<Bracket>,
                              segments: seq<Segment>): set<int> {
    set o | o in expected && ProvenThrough(o, events, brackets, segments)
  }

  lemma CohortTold(e: Evaluation, expected: seq<int>, samples: map<int, Sample>, events: map<int, SampleEvent>,
                   brackets: seq<Bracket>, segments: seq<Segment>)
    requires Bound(expected, samples, events) && Chain(brackets)
    requires Decided(e.decisions, expected, samples, events, brackets, segments) && Selected(e)
    ensures |e.cohort| >= 100 <==> |ProvenInputs(expected, events, brackets, segments)| >= 100
  {
    hide Envelope, Provable, ProvenThrough, ProvenOf, CohortOf;
    var proven := ProvenOf(e.decisions);
    CohortIsFirst(e.decisions);
    forall i | 0 <= i < |expected|
      ensures e.decisions[i].ordinal == expected[i]
      ensures e.decisions[i].complete.Some? <==> ProvenThrough(expected[i], events, brackets, segments)
    {
      assert expected[i] in expected;
      DecisionTold(expected[i], expected, samples, events, brackets, segments);
    }
    ProvenIncreasing(e.decisions);
    DistinctSize(proven);
    forall o ensures o in Elements(proven) <==> o in ProvenInputs(expected, events, brackets, segments) {
      ProvenExact(e.decisions, o);
      if o in expected {
        var i :| 0 <= i < |expected| && expected[i] == o;
        assert e.decisions[i].ordinal == o;
      }
    }
    assert Elements(proven) == ProvenInputs(expected, events, brackets, segments);
  }

  /**
   The verdict, from the anchors, the segments and the outcomes alone: it fails exactly when some input
   failed that was proven active at its start; otherwise it is partial exactly when fewer than a hundred
   inputs are proven or some failure is not; and otherwise latency decides.
   */
  lemma VerdictTold(e: Evaluation, expected: seq<int>, samples: map<int, Sample>, events: map<int, SampleEvent>,
                    brackets: seq<Bracket>, segments: seq<Segment>, p95Met: seq<int> -> bool)
    requires Bound(expected, samples, events) && Chain(brackets)
    requires Decided(e.decisions, expected, samples, events, brackets, segments)
    requires Selected(e) && VerdictSound(e, samples, p95Met)
    ensures var active := exists o ::
              o in expected && DidFail(o, samples) && ProvenStart(o, events, brackets, segments);
            var other := exists o ::
              o in expected && DidFail(o, samples) && !ProvenStart(o, events, brackets, segments);
            var few := |ProvenInputs(expected, events, brackets, segments)| < 100;
            && (e.verdict == FailedActiveInput <==> active)
            && (e.verdict == Partial <==> !active && (few || other))
            && (e.verdict == TimingPass ==> p95Met(DurableTimes(e.cohort, samples)))
            && (e.verdict == FailedLatency ==> !p95Met(DurableTimes(e.cohort, samples)))
  {
    hide Decided, Selected, ProvenStart, DidFail, ProvenInputs;
    CohortTold(e, expected, samples, events, brackets, segments);
    forall o
      ensures o in e.failures <==> o in expected && DidFail(o, samples) && ProvenStart(o, events, brackets, segments)
      ensures o in e.unproven <==> o in expected && DidFail(o, samples) && !ProvenStart(o, events, brackets, segments)
    {
      FailuresTold(e, expected, samples, events, brackets, segments, o);
    }
    if e.failures != [] {
      var o := e.failures[0];
      assert o in e.failures;
      assert o in expected && DidFail(o, samples) && ProvenStart(o, events, brackets, segments);
    }
    if e.unproven != [] {
      var o := e.unproven[0];
      assert o in e.unproven;
      assert o in expected && DidFail(o, samples) && !ProvenStart(o, events, brackets, segments);
    }
    if AllTimed(e.cohort, samples) { DurableLatencies(e.cohort, samples); }
  }

  lemma DurableLatencies(cohort: seq<int>, samples: map<int, Sample>)
    requires AllTimed(cohort, samples)
    ensures DurableTimes(cohort, samples) == Latencies(cohort, samples)
  {
  }

  /** The times to the durable acknowledgment, in cohort order. */
  ghost function DurableTimes(cohort: seq<int>, samples: map<int, Sample>): seq<int> {
    seq(|cohort|, i requires 0 <= i < |cohort| =>
      if cohort[i] in samples && samples[cohort[i]].durableUs.Some? then samples[cohort[i]].durableUs.value else 0)
  }

  /** A pass leaves at most five of the hundred slower than a hundred milliseconds; a failed latency, at least five. */
  lemma LatencyTold(e: Evaluation, samples: map<int, Sample>)
    requires Selected(e) && VerdictSound(e, samples, Met)
    ensures e.verdict in {TimingPass, FailedLatency} ==> |DurableTimes(e.cohort, samples)| == 100
    ensures e.verdict == TimingPass ==> Slow(DurableTimes(e.cohort, samples)) <= 5
    ensures e.verdict == FailedLatency ==> Slow(DurableTimes(e.cohort, samples)) >= 5
  {
    hide Met, Slow;
    if e.verdict in {TimingPass, FailedLatency} {
      CohortFromDecisions(e.decisions);
      DurableLatencies(e.cohort, samples);
      HundredMet(Latencies(e.cohort, samples));
    }
  }

  /** The recorded events of the inputs lie on the run's timeline. */
  ghost predicate OnTimeline(expected: seq<int>, events: map<int, SampleEvent>, w: World) {
    forall o :: o in expected ==> o in events && Inside(w, events[o].start, events[o].end)
  }

  /** The worker that proves the input held its lock from the input's start to its end. */
  ghost predicate ActiveInput(w: World, o: int, events: map<int, SampleEvent>) {
    o in events && ActiveStretch(w, events[o].start, events[o].end)
  }

  /** The worker that proves the input let go of its lock meanwhile. */
  ghost predicate ReleasedUnseen(w: World, o: int, events: map<int, SampleEvent>) {
    o in events && UnseenRelease(w, events[o].start, events[o].end)
  }

  lemma DecisionActive(steps: seq<Step>, o: int, sample: Sample, events: map<int, SampleEvent>)
    requires Run(steps).Some? && o in events && Inside(Run(steps).value, events[o].start, events[o].end)
    requires Decide(o, sample, events[o], Run(steps).value.brackets, Reported(Run(steps).value)).complete.Some?
    ensures var w := Run(steps).value;
            && (ActiveInput(w, o, events) <==> !ReleasedUnseen(w, o, events))
            && (LocksKept(w) ==> ActiveInput(w, o, events))
  {
    hide Run, Reported, Envelope, LocksKept, ActiveStretch, UnseenRelease, Inside;
    StretchActive(steps, events[o].start, events[o].end);
  }

  /**
   In every run, a timing pass means: all declared inputs completed, exactly a hundred different
   ones are in the cohort, and during each of those its proving worker held its lock throughout,
   exactly when that worker did not release it unseen. None does where the reported workers keep
   their locks between their polls.
   */
  lemma PassMeansActive(steps: seq<Step>, e: Evaluation, expected: seq<int>, samples: map<int, Sample>,
                        events: map<int, SampleEvent>, p95Met: seq<int> -> bool)
    requires Run(steps).Some? && Bound(expected, samples, events) && OnTimeline(expected, events, Run(steps).value)
    requires Decided(e.decisions, expected, samples, events, Run(steps).value.brackets, Reported(Run(steps).value))
    requires Selected(e) && e.verdict == TimingPass && VerdictSound(e, samples, p95Met)
    ensures |e.cohort| == COHORT_SIZE == |Elements(e.cohort)|
    ensures forall o :: o in expected ==> samples[o].outcome == "complete"
    ensures forall o :: o in e.cohort ==> o in expected
    ensures forall o :: o in e.cohort ==>
              (ActiveInput(Run(steps).value, o, events) <==> !ReleasedUnseen(Run(steps).value, o, events))
    ensures LocksKept(Run(steps).value) ==> forall o :: o in e.cohort ==> ActiveInput(Run(steps).value, o, events)
  {
    hide Decide, ActiveInput, ReleasedUnseen, LocksKept, Run, Reported;
    DecidedOrdinals(e.decisions, expected, samples, events, Run(steps).value.brackets, Reported(Run(steps).value));
    CohortFromDecisions(e.decisions);
    CohortIncreasing(e.decisions);
    DistinctSize(e.cohort);
    forall o | o in expected ensures samples[o].outcome == "complete" {
      var i :| 0 <= i < |expected| && expected[i] == o;
      CompleteDecision(e.decisions, expected, samples, events, Run(steps).value.brackets, Reported(Run(steps).value),
                       i);
    }
    forall o | o in e.cohort
      ensures o in expected
      ensures ActiveInput(Run(steps).value, o, events) <==> !ReleasedUnseen(Run(steps).value, o, events)
      ensures LocksKept(Run(steps).value) ==> ActiveInput(Run(steps).value, o, events)
    {
      var i := CohortDecision(e.decisions, expected, o);
      assert expected[i] in expected;
      DecisionActive(steps, o, samples[o], events);
    }
  }

  lemma DecidedOrdinals(decisions: seq<Decision>, expected: seq<int>, samples: map<int, Sample>,
                        events: map<int, SampleEvent>, brackets: seq<Bracket>, segments: seq<Segment>)
    requires Bound(expected, samples, events) && Decided(decisions, expected, samples, events, brackets, segments)
    ensures forall i :: 0 <= i < |expected| ==> decisions[i].ordinal == expected[i]
  {
  }

  lemma CompleteDecision(decisions: seq<Decision>, expected: seq<int>, samples: map<int, Sample>,
                         events: map<int, SampleEvent>, brackets: seq<Bracket>, segments: seq<Segment>, i: nat)
    requires Bound(expected, samples, events) && Decided(decisions, expected, samples, events, brackets, segments)
    requires i < |expected| && FailuresOf(decisions, true) == FailuresOf(decisions, false) == []
    ensures samples[expected[i]].outcome == "complete"
  {
    NoFailureAllComplete(decisions, decisions[i]);
  }
}
