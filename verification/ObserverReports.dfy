/**
 The segments an observer reports of a run, and what an envelope inside one of them says of the
 worker: it held its lock throughout exactly when it did not let go of it unseen.
 */
module ObserverReports {
  import opened Envelopes
  import opened LockHistory
  import opened OverlapRuns
  import opened Sequences

  // ---------------------------------------------------------------- the polls of one worker

  /** The places of a worker's polls in the log. */
  function Turns(log: seq<Poll>, v: nat): seq<nat> {
    if log == [] then []
    else
      var front := Turns(log[..|log| - 1], v);
      if log[|log| - 1].worker == v then front + [|log| - 1] else front
  }

  lemma {:induction false} TurnsSound(log: seq<Poll>, v: nat)
    ensures forall k :: 0 <= k < |Turns(log, v)| ==> Turns(log, v)[k] < |log| && log[Turns(log, v)[k]].worker == v
    ensures forall k, m :: 0 <= k < m < |Turns(log, v)| ==> Turns(log, v)[k] < Turns(log, v)[m]
  {
    if log != [] {
      TurnsSound(log[..|log| - 1], v);
    }
  }

  /** Every poll of the worker has its turn. */
  lemma {:induction false} TurnsComplete(log: seq<Poll>, v: nat, m: nat)
    requires m < |log| && log[m].worker == v
    ensures Turns(log, v) != [] && Turns(log, v)[0] <= m <= Turns(log, v)[|Turns(log, v)| - 1]
  {
    var front := log[..|log| - 1];
    TurnsSound(front, v);
    if m < |front| {
      TurnsComplete(front, v, m);
    } else if Turns(front, v) != [] {
      assert front[Turns(front, v)[0]].worker == v;
    }
  }

  function First(log: seq<Poll>, v: nat): nat
    requires Turns(log, v) != []
  {
    Turns(log, v)[0]
  }

  function Last(log: seq<Poll>, v: nat): nat
    requires Turns(log, v) != []
  {
    Turns(log, v)[|Turns(log, v)| - 1]
  }

  /** A worker polled twice has a proven segment, from the end of its first poll to the start of its last. */
  predicate Twice(log: seq<Poll>, v: nat) { |Turns(log, v)| >= 2 }

  function SegmentFor(log: seq<Poll>, v: nat): Segment
    requires Twice(log, v)
  {
    TurnsSound(log, v);
    Segment(log[First(log, v)].after, log[Last(log, v)].before)
  }

  /** The rows the observer writes for a worker. */
  function RowsFor(log: seq<Poll>, v: nat): (rows: seq<Probe>)
    ensures |rows| == |Turns(log, v)|
  {
    if log == [] then []
    else
      var front, p := RowsFor(log[..|log| - 1], v), log[|log| - 1];
      if p.worker == v then front + [Probe(p.before, p.after)] else front
  }

  lemma {:induction false} RowAtTurn(log: seq<Poll>, v: nat, k: nat)
    requires k < |Turns(log, v)|
    ensures Turns(log, v)[k] < |log|
    ensures RowsFor(log, v)[k] == Probe(log[Turns(log, v)[k]].before, log[Turns(log, v)[k]].after)
  {
    TurnsSound(log, v);
    var front := log[..|log| - 1];
    if k < |Turns(front, v)| {
      RowAtTurn(front, v, k);
    }
  }

  /** In every run the rows of each worker pass the evaluator's order check and prove the reported segment. */
  lemma RowsAdmitted(steps: seq<Step>, v: nat)
    requires Run(steps).Some?
    ensures var w := Run(steps).value;
            && ProbesOrdered(RowsFor(w.log, v), 0, w.now)
            && SegmentOf(RowsFor(w.log, v)) == if Twice(w.log, v) then [SegmentFor(w.log, v)] else []
  {
    hide Run, Turns, RowsFor, FoundAt;
    RunKeepsInv(steps);
    var w := Run(steps).value;
    var rows, turns := RowsFor(w.log, v), Turns(w.log, v);
    TurnsSound(w.log, v);
    forall k | 0 <= k < |rows|
      ensures turns[k] < |w.log| && rows[k] == Probe(w.log[turns[k]].before, w.log[turns[k]].after)
      ensures 0 <= rows[k].before <= rows[k].after <= w.now
    {
      RowAtTurn(w.log, v, k);
      assert Sound(w.log[turns[k]], w.takes);
    }
    forall k, m | 0 <= k < m < |rows| ensures rows[k].after <= rows[m].before {
      assert turns[k] < turns[m];
    }
  }

  // ---------------------------------------------------------------- the report

  /** The workers polled, in the order of their first positive polls. */
  function Admitted(log: seq<Poll>): seq<nat> {
    if log == [] then []
    else
      var front, v := Admitted(log[..|log| - 1]), log[|log| - 1].worker;
      if v in front then front else front + [v]
  }

  /** Each worker has its first turn after those before it in the list. */
  ghost predicate InTurn(log: seq<Poll>, workers: seq<nat>) {
    && (forall i :: 0 <= i < |workers| ==> Turns(log, workers[i]) != [])
    && forall i, j :: 0 <= i < j < |workers| ==> First(log, workers[i]) < First(log, workers[j])
  }

  lemma FirstStays(log: seq<Poll>, v: nat)
    requires log != [] && Turns(log[..|log| - 1], v) != []
    ensures Turns(log, v) != [] && First(log, v) == First(log[..|log| - 1], v)
  {
  }

  lemma {:induction false} AdmittedInTurn(log: seq<Poll>)
    ensures InTurn(log, Admitted(log))
    ensures forall k :: 0 <= k < |log| ==> log[k].worker in Admitted(log)
  {
    if log != [] {
      var front, v := log[..|log| - 1], log[|log| - 1].worker;
      var before := Admitted(front);
      AdmittedInTurn(front);
      forall i | 0 <= i < |before|
        ensures Turns(log, before[i]) != [] && First(log, before[i]) == First(front, before[i])
      {
        FirstStays(log, before[i]);
      }
      forall k | 0 <= k < |log| ensures log[k].worker in Admitted(log) {
        assert k < |front| ==> log[k] == front[k];
      }
      if v !in before { NewTurn(log, before); }
    }
  }

  lemma {:induction false} NoTurns(log: seq<Poll>, v: nat)
    requires forall k :: 0 <= k < |log| ==> log[k].worker != v
    ensures Turns(log, v) == []
  {
    if log != [] { NoTurns(log[..|log| - 1], v); }
  }

  lemma NewTurn(log: seq<Poll>, before: seq<nat>)
    requires log != [] && log[|log| - 1].worker !in before
    requires InTurn(log[..|log| - 1], before) && InTurn(log, before)
    requires forall k :: 0 <= k < |log| - 1 ==> log[k].worker in before
    ensures InTurn(log, before + [log[|log| - 1].worker])
  {
    var front, v := log[..|log| - 1], log[|log| - 1].worker;
    TurnsSound(front, v);
    forall k | 0 <= k < |front| ensures front[k].worker != v { assert log[k] == front[k]; }
    NoTurns(front, v);
    assert First(log, v) == |log| - 1;
    forall i | 0 <= i < |before| ensures First(log, before[i]) < |log| - 1 {
      FirstStays(log, before[i]);
      TurnsSound(front, before[i]);
    }
  }

  function Usable(log: seq<Poll>, workers: seq<nat>): seq<nat> {
    if workers == [] then []
    else
      var front, v := Usable(log, workers[..|workers| - 1]), workers[|workers| - 1];
      if Twice(log, v) then front + [v] else front
  }

  lemma {:induction false} UsableInTurn(log: seq<Poll>, workers: seq<nat>)
    requires InTurn(log, workers)
    ensures InTurn(log, Usable(log, workers))
    ensures forall v :: v in Usable(log, workers) <==> v in workers && Twice(log, v)
  {
    if workers != [] {
      var front, last := workers[..|workers| - 1], workers[|workers| - 1];
      UsableInTurn(log, front);
      assert workers == front + [last];
      var kept := Usable(log, front);
      forall i | 0 <= i < |kept| ensures First(log, kept[i]) < First(log, last) {
        assert kept[i] in kept;
        var k :| 0 <= k < |front| && front[k] == kept[i];
        assert workers[k] == front[k];
      }
    }
  }

  lemma NothingLogged(v: nat)
    ensures Turns([], v) == [] && Admitted([]) == []
  {
  }

  lemma Logged(log: seq<Poll>, p: Poll, v: nat)
    ensures Turns(log + [p], v) == if p.worker == v then Turns(log, v) + [|log|] else Turns(log, v)
    ensures Admitted(log + [p]) == if p.worker in Admitted(log) then Admitted(log) else Admitted(log) + [p.worker]
  {
    assert (log + [p])[..|log|] == log;
  }

  lemma UsableNext(log: seq<Poll>, workers: seq<nat>, v: nat)
    ensures Usable(log, []) == []
    ensures Usable(log, workers + [v]) == if Twice(log, v) then Usable(log, workers) + [v] else Usable(log, workers)
  {
    assert (workers + [v])[..|workers|] == workers;
  }

  /** The workers with a usable segment, in the order the observer admitted them. */
  function Reporters(w: World): seq<nat> { Usable(w.log, Admitted(w.log)) }

  lemma ReportersSound(w: World)
    ensures InTurn(w.log, Reporters(w))
    ensures forall i :: 0 <= i < |Reporters(w)| ==> Twice(w.log, Reporters(w)[i])
  {
    AdmittedInTurn(w.log);
    UsableInTurn(w.log, Admitted(w.log));
    forall i | 0 <= i < |Reporters(w)| ensures Twice(w.log, Reporters(w)[i]) {
      assert Reporters(w)[i] in Reporters(w);
    }
  }

  /** Two polls in the log found the worker with its lock. */
  ghost predicate FoundTwice(log: seq<Poll>, v: nat) {
    exists m, n :: 0 <= m < n < |log| && log[m].worker == v && log[n].worker == v
  }

  lemma TwiceExact(log: seq<Poll>, v: nat)
    ensures Twice(log, v) <==> FoundTwice(log, v)
  {
    hide Turns;
    TurnsSound(log, v);
    if Twice(log, v) {
      assert Turns(log, v)[0] < Turns(log, v)[1];
    }
    if m, n :| 0 <= m < n < |log| && log[m].worker == v && log[n].worker == v {
      TurnsComplete(log, v, m);
      TurnsComplete(log, v, n);
    }
  }

  /** A worker is reported once at most, and exactly when two polls in the log found it. */
  lemma ReportersExact(w: World)
    ensures Distinct(Reporters(w)) && forall v :: v in Reporters(w) <==> FoundTwice(w.log, v)
  {
    hide FoundTwice;
    ReportersSound(w);
    AdmittedInTurn(w.log);
    UsableInTurn(w.log, Admitted(w.log));
    forall v ensures v in Reporters(w) <==> FoundTwice(w.log, v) {
      TwiceExact(w.log, v);
      TurnsSound(w.log, v);
      if Twice(w.log, v) { assert w.log[Turns(w.log, v)[0]].worker == v; }
    }
  }

  /** The segments the observer's summary holds if it stops now. */
  ghost function Reported(w: World): (s: seq<Segment>)
    ensures |s| == |Reporters(w)|
  {
    ReportersSound(w);
    var workers := Reporters(w);
    seq(|workers|, i requires 0 <= i < |workers| && Twice(w.log, workers[i]) => SegmentFor(w.log, workers[i]))
  }

  lemma ReportedAt(w: World, i: nat)
    requires i < |Reported(w)|
    ensures Twice(w.log, Reporters(w)[i]) && Reported(w)[i] == SegmentFor(w.log, Reporters(w)[i])
  {
    ReportersSound(w);
  }

  // ---------------------------------------------------------------- what an envelope means

  /** The stretch from `t` to `u` lies in the reported segment of `v`, between two polls that found it with its lock. */
  ghost predicate FoundAround(w: World, v: nat, t: int, u: int) {
    && Twice(w.log, v)
    && (TurnsSound(w.log, v);
        var s := SegmentFor(w.log, v);
        w.log[First(w.log, v)].seen <= s.lo <= t <= u <= s.hi <= w.log[Last(w.log, v)].seen)
  }

  /** The native times of two events. */
  ghost predicate Inside(w: World, start: int, finish: int) { 1 <= start <= finish <= |w.times| }

  ghost function At(w: World, e: int): int
    requires 1 <= e <= |w.times|
  {
    w.times[e - 1]
  }

  /** The worker whose segment proves the stretch. */
  ghost function Prover(w: World, start: int, finish: int): nat
    requires Envelope(w.brackets, Reported(w), start, finish).Some?
  {
    ProofIndex(w.brackets, Reported(w), start, finish);
    Reporters(w)[Envelope(w.brackets, Reported(w), start, finish).value.segment]
  }

  /** In every run a proven stretch lies between two positive polls of the proving worker. */
  lemma EnvelopeFindsWorker(steps: seq<Step>, start: int, finish: int)
    requires Run(steps).Some? && Inside(Run(steps).value, start, finish)
    requires Envelope(Run(steps).value.brackets, Reported(Run(steps).value), start, finish).Some?
    ensures var w := Run(steps).value;
            FoundAround(w, Prover(w, start, finish), At(w, start), At(w, finish))
  {
    hide Run, Reported, Reporters, Turns, FoundAt, Before, After;
    RunKeepsInv(steps);
    var w := Run(steps).value;
    var p := Envelope(w.brackets, Reported(w), start, finish).value;
    var time := e => TimeOf(w, e);
    TimeSound(w);
    EnvelopeSound(w.brackets, Reported(w), start, finish, time);
    assert p.lower <= time(start) && time(finish) <= p.upper && time(start) == At(w, start)
           && time(finish) == At(w, finish);
    assert time(start) <= time(finish);
    ReportedAt(w, p.segment);
    var v := Reporters(w)[p.segment];
    TurnsSound(w.log, v);
    assert Sound(w.log[First(w.log, v)], w.takes) && Sound(w.log[Last(w.log, v)], w.takes);
  }

  /** One hold of `v` lasted from event `start` to event `finish`. */
  ghost predicate ActiveThroughout(w: World, v: nat, start: int, finish: int)
    requires Inside(w, start, finish)
  {
    HeldThroughout(w.takes, v, At(w, start), At(w, finish))
  }

  /** `v` let go of its lock before event `finish` and did not take it again until after event `start`. */
  ghost predicate LetGo(w: World, v: nat, start: int, finish: int)
    requires Inside(w, start, finish)
  {
    Interrupted(w.takes, v, At(w, start), At(w, finish))
  }

  /**
   In every run, an envelope computed from the recorded brackets and reported segments means that
   the proving worker held its lock during the whole stretch exactly when it did not let go of it
   there; the polls alone cannot tell.
   */
  lemma EnvelopeMeansActive(steps: seq<Step>, start: int, finish: int)
    requires Run(steps).Some? && Inside(Run(steps).value, start, finish)
    requires Envelope(Run(steps).value.brackets, Reported(Run(steps).value), start, finish).Some?
    ensures var w := Run(steps).value;
            var v := Prover(w, start, finish);
            ActiveThroughout(w, v, start, finish) <==> !LetGo(w, v, start, finish)
  {
    hide Run, Reported, Reporters, Turns, Envelope, HeldThroughout, Interrupted;
    RunKeepsInv(steps);
    EnvelopeFindsWorker(steps, start, finish);
    var w := Run(steps).value;
    var v := Prover(w, start, finish);
    TurnsSound(w.log, v);
    var first := w.log[First(w.log, v)];
    assert Sound(first, w.takes);
    HeldExactly(w.takes, v, first.take, At(w, start), At(w, finish));
  }

  /** The worker did not release its lock from its first positive poll to its last. */
  ghost predicate Retained(w: World, v: nat) {
    && Twice(w.log, v)
    && (TurnsSound(w.log, v);
        NoRelease(w.takes, v, w.log[First(w.log, v)].before, w.log[Last(w.log, v)].after))
  }

  /** Both the first and the last positive poll found the worker in one hold. */
  ghost predicate OneHold(w: World, v: nat) {
    && Twice(w.log, v)
    && (TurnsSound(w.log, v);
        w.log[First(w.log, v)].take == w.log[Last(w.log, v)].take)
  }

  /** The worker did not let go of its lock within its reported segment. */
  ghost predicate Unbroken(w: World, v: nat) {
    && Twice(w.log, v)
    && (var s := SegmentFor(w.log, v);
        !Interrupted(w.takes, v, s.lo, s.hi))
  }

  /** The worker held its lock throughout every stretch of its reported segment. */
  ghost predicate ActiveWithin(w: World, v: nat)
    requires Twice(w.log, v)
  {
    var s := SegmentFor(w.log, v);
    forall t, u :: s.lo <= t <= u <= s.hi ==> HeldThroughout(w.takes, v, t, u)
  }

  lemma WholeAndParts(takes: seq<Take>, v: nat, lo: int, hi: int)
    requires lo <= hi
    ensures HeldThroughout(takes, v, lo, hi) <==> forall t, u :: lo <= t <= u <= hi ==> HeldThroughout(takes, v, t, u)
  {
    if HeldThroughout(takes, v, lo, hi) {
      var k :| 0 <= k < |takes| && takes[k].worker == v && Covers(takes[k], lo, hi);
      assert forall t, u :: lo <= t <= u <= hi ==> Covers(takes[k], t, u);
    }
  }

  /**
   In every run, whatever a worker's segment may prove is active exactly when its holds leave no gap in the
   segment.
   */
  lemma SegmentActive(steps: seq<Step>, v: nat)
    requires Run(steps).Some? && Twice(Run(steps).value.log, v)
    ensures ActiveWithin(Run(steps).value, v) <==> Unbroken(Run(steps).value, v)
  {
    hide Run, Turns, HeldThroughout, Interrupted;
    RunKeepsInv(steps);
    var w := Run(steps).value;
    TurnsSound(w.log, v);
    var s, first, last := SegmentFor(w.log, v), w.log[First(w.log, v)], w.log[Last(w.log, v)];
    assert Sound(first, w.takes) && Sound(last, w.takes);
    WholeAndParts(w.takes, v, s.lo, s.hi);
    HeldExactly(w.takes, v, first.take, s.lo, s.hi);
  }

  /** It leaves none when nothing is released between the polls, or both polls fall in one hold. */
  lemma RetainedUnbroken(steps: seq<Step>, v: nat)
    requires Run(steps).Some? && (Retained(Run(steps).value, v) || OneHold(Run(steps).value, v))
    ensures Unbroken(Run(steps).value, v)
  {
    hide Run, Turns, HeldThroughout, Interrupted;
    RunKeepsInv(steps);
    var w := Run(steps).value;
    TurnsSound(w.log, v);
    var s, first, last := SegmentFor(w.log, v), w.log[First(w.log, v)], w.log[Last(w.log, v)];
    assert Sound(first, w.takes) && Sound(last, w.takes);
    if Retained(w, v) {
      NoReleaseUninterrupted(w.takes, v, first.take, first.seen, s.lo, s.hi, last.seen);
    } else {
      SameHoldUninterrupted(w.takes, v, first.take, first.seen, s.lo, s.hi, last.seen);
    }
  }

  /** A worker that takes its lock but once is found in one hold. */
  lemma OnceIsOneHold(steps: seq<Step>, v: nat)
    requires Run(steps).Some? && Twice(Run(steps).value.log, v) && TakesOnce(Run(steps).value.takes, v)
    ensures OneHold(Run(steps).value, v)
  {
    hide Run, Turns;
    RunKeepsInv(steps);
    var w := Run(steps).value;
    TurnsSound(w.log, v);
    assert Sound(w.log[First(w.log, v)], w.takes) && Sound(w.log[Last(w.log, v)], w.takes);
  }

  // ---------------------------------------------------------------- proven stretches

  ghost predicate ProvenStretch(w: World, start: int, finish: int) {
    Inside(w, start, finish) && Envelope(w.brackets, Reported(w), start, finish).Some?
  }

  /** The proving worker held its lock during the whole stretch. */
  ghost predicate ActiveStretch(w: World, start: int, finish: int) {
    ProvenStretch(w, start, finish) && ActiveThroughout(w, Prover(w, start, finish), start, finish)
  }

  /** The proving worker let go of its lock in the stretch, between two positive polls. */
  ghost predicate UnseenRelease(w: World, start: int, finish: int) {
    ProvenStretch(w, start, finish) && LetGo(w, Prover(w, start, finish), start, finish)
  }

  /** No reported worker let go of its lock within its segment. */
  ghost predicate LocksKept(w: World) {
    forall v :: v in Reporters(w) ==> Unbroken(w, v)
  }

  lemma StretchActive(steps: seq<Step>, start: int, finish: int)
    requires Run(steps).Some? && ProvenStretch(Run(steps).value, start, finish)
    ensures var w := Run(steps).value;
            && (ActiveStretch(w, start, finish) <==> !UnseenRelease(w, start, finish))
            && (Unbroken(w, Prover(w, start, finish)) ==> ActiveStretch(w, start, finish))
            && (LocksKept(w) ==> ActiveStretch(w, start, finish))
  {
    hide Run, Reported, Reporters, Envelope, LetGo, HeldThroughout, Unbroken, SegmentFor, First, Last;
    var w := Run(steps).value;
    EnvelopeMeansActive(steps, start, finish);
    EnvelopeFindsWorker(steps, start, finish);
    SegmentActive(steps, Prover(w, start, finish));
    ProofIndex(w.brackets, Reported(w), start, finish);
    assert Prover(w, start, finish) in Reporters(w);
  }

  /** No reported worker let go within its segment exactly when every stretch of every worker polled twice is active. */
  lemma LocksKeptExact(steps: seq<Step>)
    requires Run(steps).Some?
    ensures var w := Run(steps).value;
            LocksKept(w) <==> forall v :: FoundTwice(w.log, v) ==> Twice(w.log, v) && ActiveWithin(w, v)
  {
    hide Run, Reporters, Unbroken, ActiveWithin, Twice, FoundTwice;
    var w := Run(steps).value;
    ReportersExact(w);
    forall v | FoundTwice(w.log, v) ensures Twice(w.log, v) && (ActiveWithin(w, v) <==> Unbroken(w, v)) {
      TwiceExact(w.log, v);
      SegmentActive(steps, v);
    }
  }
}
