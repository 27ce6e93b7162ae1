/** A run in which the observer misses a release: the envelope is there, the activity is not. */
module UnseenGap {
  import opened CausalBrackets
  import opened Envelopes
  import opened LockHistory
  import opened ObserverReports
  import opened OverlapRuns
  import opened Results

  lemma Do(steps: seq<Step>, w: World, step: Step) returns (more: seq<Step>, next: World)
    requires Run(steps) == Some(w) && Enabled(w, step)
    ensures more == steps + [step] && next == Next(w, step) && Run(more) == Some(next)
  {
    RunThen(steps, step);
    more, next := steps + [step], Next(w, step);
  }

  /** A positive poll at one instant of a worker that is found in hold `k`. */
  lemma DoPoll(steps: seq<Step>, w: World, v: nat, k: nat) returns (more: seq<Step>, next: World)
    requires Run(steps) == Some(w) && w.polling.None? && v !in w.retired && HoldOf(w, v) == Some(k)
    ensures Run(more) == Some(next) && next == w.(log := w.log + [Poll(v, w.now, w.now, w.now, k)])
  {
    more, next := Do(steps, w, PollBegin(v));
    more, next := Do(more, next, PollCheck);
    more, next := Do(more, next, PollEnd);
  }

  /** An anchor sent, read and answered at one instant. */
  lemma DoAnchor(steps: seq<Step>, w: World) returns (more: seq<Step>, next: World)
    requires Run(steps) == Some(w) && w.request.None?
    ensures Run(more) == Some(next)
    ensures next == w.(times := w.times + [w.now, w.now],
                       brackets := w.brackets + [Bracket(|w.times| + 1, |w.times| + 2, w.now)])
  {
    more, next := Do(steps, w, Send);
    more, next := Do(more, next, Read);
    more, next := Do(more, next, Receive);
    assert next.times == w.times + [w.now, w.now];
  }

  const GAP := World(
    7, [2, 2, 3, 4, 6, 6], None, [Bracket(1, 2, 2), Bracket(5, 6, 6)],
    [Take(0, 0, Some(2)), Take(0, 5, None)], None, [Poll(0, 1, 1, 1, 0), Poll(0, 7, 7, 7, 1)], {})

  lemma GapPolled() returns (steps: seq<Step>)
    ensures Run(steps) == Some(World(2, [], None, [], [Take(0, 0, None)], None, [Poll(0, 1, 1, 1, 0)], {}))
  {
    var w: World;
    steps, w := Do([], INITIAL, Acquire(0));
    assert w.takes == [Take(0, 0, None)];
    steps, w := Do(steps, w, Tick);
    steps, w := DoPoll(steps, w, 0, 0);
    assert w.log == [Poll(0, 1, 1, 1, 0)];
    steps, w := Do(steps, w, Tick);
  }

  lemma GapReleased() returns (steps: seq<Step>)
    ensures Run(steps) == Some(World(2, [2, 2], None, [Bracket(1, 2, 2)], [Take(0, 0, Some(2))], None,
                                     [Poll(0, 1, 1, 1, 0)], {}))
  {
    steps := GapPolled();
    var w := Run(steps).value;
    steps, w := Do(steps, w, Release(0));
    assert w.takes == [Take(0, 0, Some(2))];
    steps, w := DoAnchor(steps, w);
    assert w.times == [2, 2] && w.brackets == [Bracket(1, 2, 2)];
  }

  /** Polled at 1, released at 2, with events 3 and 4 after that. */
  lemma GapOpens() returns (steps: seq<Step>)
    ensures Run(steps) == Some(World(5, [2, 2, 3, 4], None, [Bracket(1, 2, 2)], [Take(0, 0, Some(2))], None,
                                     [Poll(0, 1, 1, 1, 0)], {}))
  {
    hide HoldOf;
    steps := GapReleased();
    var w := Run(steps).value;
    steps, w := Do(steps, w, Tick);
    steps, w := Do(steps, w, Mark);
    assert w.times == [2, 2, 3];
    steps, w := Do(steps, w, Tick);
    steps, w := Do(steps, w, Mark);
    assert w.times == [2, 2, 3, 4];
    steps, w := Do(steps, w, Tick);
  }

  /** Taken again at 5 and polled again at 7. */
  lemma GapRun() returns (steps: seq<Step>)
    ensures Run(steps) == Some(GAP)
  {
    steps := GapOpens();
    var w := Run(steps).value;
    steps, w := Do(steps, w, Acquire(0));
    steps, w := Do(steps, w, Tick);
    assert w.takes == [Take(0, 0, Some(2)), Take(0, 5, None)];
    steps, w := DoAnchor(steps, w);
    assert w.times == [2, 2, 3, 4, 6, 6] && w.brackets == [Bracket(1, 2, 2), Bracket(5, 6, 6)];
    steps, w := Do(steps, w, Tick);
    steps, w := DoPoll(steps, w, 0, 1);
    assert w.log == GAP.log;
  }

  lemma GapTurns()
    ensures Turns(GAP.log, 0) == [0, 1] && Admitted(GAP.log) == [0]
  {
    hide Turns, Admitted;
    var p, q := Poll(0, 1, 1, 1, 0), Poll(0, 7, 7, 7, 1);
    NothingLogged(0);
    Logged([], p, 0);
    Logged([p], q, 0);
    assert [] + [p] == [p] && [p] + [q] == GAP.log;
  }

  lemma GapReport(w: World)
    requires w.log == GAP.log
    ensures Reporters(w) == [0] && Reported(w) == [Segment(1, 7)]
  {
    hide Turns, Admitted, Usable, Reported;
    GapTurns();
    UsableNext(GAP.log, [], 0);
    assert [] + [0] == [0];
    ReportedAt(w, 0);
  }

  lemma GapEnvelope()
    ensures Envelope(GAP.brackets, [Segment(1, 7)], 3, 4) == Some(Proof(2, 6, 0))
  {
    var b := GAP.brackets;
    assert Before(b, 1, 3) == [b[0]] && Before(b, 2, 3) == [b[0]];
    assert After(b, 2, 4) == [] && After(b, 1, 4) == [b[1]] && After(b, 0, 4) == [b[1]];
  }

  /** So an envelope alone does not mean activity: the worker let go of its lock over the whole stretch. */
  lemma EnvelopeWithoutActivity() returns (steps: seq<Step>)
    ensures Run(steps) == Some(GAP) && Inside(GAP, 3, 4)
    ensures Envelope(GAP.brackets, Reported(GAP), 3, 4).Some? && Prover(GAP, 3, 4) == 0
    ensures LetGo(GAP, 0, 3, 4) && !ActiveThroughout(GAP, 0, 3, 4)
  {
    hide Reported, Reporters, Envelope, Run;
    steps := GapRun();
    GapReport(GAP);
    GapEnvelope();
    GapProof();
    assert CutAt(GAP.takes, 0, 3, 4);
    EnvelopeMeansActive(steps, 3, 4);
  }

  lemma GapProof()
    requires Reporters(GAP) == [0] && Reported(GAP) == [Segment(1, 7)]
    requires Envelope(GAP.brackets, [Segment(1, 7)], 3, 4) == Some(Proof(2, 6, 0))
    ensures Prover(GAP, 3, 4) == 0
  {
    hide Reported, Reporters, Envelope;
  }
}
