/**
 A measured run as a state machine: one native clock, the page's numbered events, at most one
 outstanding anchor, workers that take and release locks of their own, and an observer that learns
 of them only by polling. A positive poll finds a worker's lock taken at some instant within it; a
 worker once polled is given up at the first negative poll, or when it is not seen any more, and is
 never polled again. What the evaluators conclude from the records of a run is compared with what
 the workers really did.
 */
module OverlapRuns {
  import opened CausalBrackets
  import opened Envelopes
  import opened LockHistory
  import opened Results

  /** One positive row of the observer. */
  datatype Probe = Probe(before: int, after: int)

  // ---------------------------------------------------------------- the observer's segments

  ghost predicate ProbesOrdered(probes: seq<Probe>, first: int, end: int) {
    && (forall i :: 0 <= i < |probes| ==> first <= probes[i].before <= probes[i].after <= end)
    && (forall i, j :: 0 <= i < j < |probes| ==> probes[i].after <= probes[j].before)
  }

  /** A segment needs two probes: from the end of the first to the start of the last. */
  function SegmentOf(probes: seq<Probe>): seq<Segment> {
    if |probes| < 2 then [] else [Segment(probes[0].after, probes[|probes| - 1].before)]
  }

  /** Accepts exactly the ordered probe lists and reports the stretch they prove, never an inverted one. */
  method NativeSegment(probes: seq<Probe>, first: int, end: int) returns (r: Result<seq<Segment>, EvidenceError>)
    requires first <= end
    ensures r.Ok? <==> ProbesOrdered(probes, first, end)
    ensures r.Ok? ==> r.value == SegmentOf(probes) && forall s :: s in r.value ==> first <= s.lo <= s.hi <= end
  {
    var lastAfter, i := first, 0;
    while i < |probes|
      invariant i <= |probes| && ProbesOrdered(probes[..i], first, end)
      invariant (i == 0 && lastAfter == first) || (i > 0 && lastAfter == probes[i - 1].after)
      invariant first <= lastAfter <= end
    {
      assert forall k :: 0 <= k < i ==> probes[..i][k] == probes[k];
      if !(lastAfter <= probes[i].before <= probes[i].after <= end) {
        assert i > 0 ==> probes[i - 1].after == lastAfter;
        return Err(SegmentOrder);
      }
      assert forall k :: 0 <= k < i - 1 ==> probes[k].after <= probes[i - 1].before;
      lastAfter := probes[i].after;
      i := i + 1;
    }
    assert probes[..|probes|] == probes;
    return Ok(SegmentOf(probes));
  }

  // ---------------------------------------------------------------- runs

  datatype Request = Request(send: int, reading: Option<int>)

  /** A finished positive poll: when its worker's lock was found taken, and in which hold. */
  datatype Poll = Poll(worker: nat, before: nat, seen: nat, after: nat, take: nat)

  datatype Finding = Finding(take: nat, at: nat)

  /** A poll under way. */
  datatype Polling = Polling(worker: nat, before: nat, found: Option<Finding>)

  datatype World = World(
    now: nat,                  // the native clock
    times: seq<nat>,           // times[e - 1] is the native time of event e
    request: Option<Request>,  // the outstanding anchor
    brackets: seq<Bracket>,    // answered anchors
    takes: seq<Take>,          // every hold of a lock, in the order they began
    polling: Option<Polling>,  // the observer's present poll
    log: seq<Poll>,            // its positive polls
    retired: set<nat>          // workers it has given up
  )

  const INITIAL := World(0, [], None, [], [], None, [], {})

  datatype Step =
    | Tick | Send | Read | Receive | Mark
    | Acquire(worker: nat) | Release(worker: nat)
    | PollBegin(worker: nat) | PollCheck | PollEnd | GiveUp(worker: nat)

  /** The hold a worker is in, among the first `n`. */
  function OpenTake(takes: seq<Take>, n: nat, v: nat): (k: Option<nat>)
    requires n <= |takes|
    ensures k.Some? ==> k.value < n && takes[k.value].worker == v && takes[k.value].released.None?
    ensures k.None? ==> forall m :: 0 <= m < n && takes[m].worker == v ==> takes[m].released.Some?
  {
    if n == 0 then None
    else if takes[n - 1].worker == v && takes[n - 1].released.None? then Some(n - 1)
    else OpenTake(takes, n - 1, v)
  }

  function HoldOf(w: World, v: nat): Option<nat> { OpenTake(w.takes, |w.takes|, v) }

  predicate Polled(log: seq<Poll>, v: nat) { exists k :: 0 <= k < |log| && log[k].worker == v }

  ghost predicate Enabled(w: World, step: Step) {
    match step
    case Tick => true
    case Send => w.request.None?
    case Read => w.request.Some? && w.request.value.reading.None?
    case Receive => w.request.Some? && w.request.value.reading.Some?
    case Mark => true
    case Acquire(v) => HoldOf(w, v).None?
    case Release(v) => HoldOf(w, v).Some?
    case PollBegin(v) => w.polling.None? && v !in w.retired
    case PollCheck => w.polling.Some?
    case PollEnd => w.polling.Some? && w.polling.value.found.Some?
    case GiveUp(v) => true
  }

  /** The poll's look at the lock; the first negative look after a positive poll gives the worker up. */
  ghost function Checked(w: World): World
    requires w.polling.Some?
  {
    var p := w.polling.value;
    match HoldOf(w, p.worker)
    case Some(k) => w.(polling := Some(p.(found := Some(Finding(k, w.now)))))
    case None => w.(polling := None, retired := if Polled(w.log, p.worker) then w.retired + {p.worker} else w.retired)
  }

  ghost function Next(w: World, step: Step): World
    requires Enabled(w, step)
  {
    match step
    case Tick => w.(now := w.now + 1)
    case Send => w.(times := w.times + [w.now], request := Some(Request(|w.times| + 1, None)))
    case Read => w.(request := Some(w.request.value.(reading := Some(w.now))))
    case Receive =>
      w.(times := w.times + [w.now], request := None,
         brackets := w.brackets + [Bracket(w.request.value.send, |w.times| + 1, w.request.value.reading.value)])
    case Mark => w.(times := w.times + [w.now])
    case Acquire(v) => w.(takes := w.takes + [Take(v, w.now, None)])
    case Release(v) =>
      var k := HoldOf(w, v).value;
      w.(takes := w.takes[k := w.takes[k].(released := Some(w.now))])
    case PollBegin(v) => w.(polling := Some(Polling(v, w.now, None)))
    case PollCheck => Checked(w)
    case PollEnd =>
      var p := w.polling.value;
      w.(polling := None, log := w.log + [Poll(p.worker, p.before, p.found.value.at, w.now, p.found.value.take)])
    case GiveUp(v) =>
      w.(retired := w.retired + {v},
         polling := if w.polling.Some? && w.polling.value.worker == v then None else w.polling)
  }

  ghost function Run(steps: seq<Step>): Option<World> {
    if steps == [] then Some(INITIAL)
    else
      var before := Run(steps[..|steps| - 1]);
      if before.Some? && Enabled(before.value, steps[|steps| - 1])
      then Some(Next(before.value, steps[|steps| - 1])) else None
  }

  lemma RunThen(steps: seq<Step>, step: Step)
    requires Run(steps).Some? && Enabled(Run(steps).value, step)
    ensures Run(steps + [step]) == Some(Next(Run(steps).value, step))
  {
    assert (steps + [step])[..|steps|] == steps;
  }

  ghost function TimeOf(w: World, e: int): int {
    if e < 1 then -1 else if e <= |w.times| then w.times[e - 1] else w.now
  }

  // ---------------------------------------------------------------- what every step keeps

  ghost predicate Clocked(w: World) {
    && (forall i :: 0 <= i < |w.times| ==> w.times[i] <= w.now)
    && (forall i, j :: 0 <= i < j < |w.times| ==> w.times[i] <= w.times[j])
  }

  ghost predicate Timed(b: Bracket, times: seq<nat>) {
    1 <= b.send < b.receive <= |times| && times[b.send - 1] <= b.ns <= times[b.receive - 1]
  }

  ghost predicate Bracketed(w: World) {
    && Chain(w.brackets)
    && (forall i :: 0 <= i < |w.brackets| ==> Timed(w.brackets[i], w.times))
    && (w.request.Some? ==>
          && 1 <= w.request.value.send <= |w.times|
          && (forall i :: 0 <= i < |w.brackets| ==> w.brackets[i].receive < w.request.value.send)
          && (w.request.value.reading.Some? ==>
                w.times[w.request.value.send - 1] <= w.request.value.reading.value <= w.now))
  }

  ghost predicate Locked(w: World) {
    && Orderly(w.takes)
    && forall k :: 0 <= k < |w.takes| ==>
                     w.takes[k].taken <= w.now && (w.takes[k].released.Some? ==> w.takes[k].released.value <= w.now)
  }

  /** The finding was made within the poll, in a hold of its worker. */
  ghost predicate Sound(p: Poll, takes: seq<Take>) {
    p.before <= p.seen <= p.after && FoundAt(takes, p.take, p.worker, p.seen)
  }

  /** Polls follow one another, and so do the holds in which one worker was found. */
  ghost predicate Sequential(log: seq<Poll>) {
    && (forall k, m :: 0 <= k < m < |log| ==> log[k].after <= log[m].before)
    && (forall k, m :: 0 <= k < m < |log| && log[k].worker == log[m].worker ==> log[k].take <= log[m].take)
  }

  ghost predicate Watched(w: World) {
    && Sequential(w.log)
    && (forall k :: 0 <= k < |w.log| ==> Sound(w.log[k], w.takes) && w.log[k].after <= w.now)
    && (w.polling.Some? ==>
          var p := w.polling.value;
          && p.before <= w.now
          && (forall k :: 0 <= k < |w.log| ==> w.log[k].after <= p.before)
          && (p.found.Some? ==>
                && p.before <= p.found.value.at <= w.now
                && FoundAt(w.takes, p.found.value.take, p.worker, p.found.value.at)
                && forall k :: 0 <= k < |w.log| && w.log[k].worker == p.worker ==> w.log[k].take <= p.found.value.take))
  }

  ghost predicate Inv(w: World) { Clocked(w) && Bracketed(w) && Locked(w) && Watched(w) }

  lemma ClockStep(w: World, step: Step)
    requires Clocked(w) && Enabled(w, step)
    ensures Clocked(Next(w, step))
  {
    hide OpenTake, Polled;
  }

  lemma ReceiveStep(w: World)
    requires Clocked(w) && Bracketed(w) && Enabled(w, Receive)
    ensures Bracketed(Next(w, Receive))
  {
    var v := Next(w, Receive);
    var next := v.brackets[|w.brackets|];
    forall i | 0 <= i < |w.brackets|
      ensures v.brackets[i].receive < next.send && v.brackets[i].ns <= next.ns && Timed(v.brackets[i], v.times)
    {
      var b := w.brackets[i];
      assert Timed(b, w.times) && w.times[b.receive - 1] <= w.times[next.send - 1];
    }
  }

  lemma BracketStep(w: World, step: Step)
    requires Clocked(w) && Bracketed(w) && Enabled(w, step)
    ensures Bracketed(Next(w, step))
  {
    hide OpenTake, Polled;
    if step == Receive {
      ReceiveStep(w);
    } else {
      var v := Next(w, step);
      assert v.brackets == w.brackets && w.times <= v.times;
      forall i | 0 <= i < |v.brackets| ensures Timed(v.brackets[i], v.times) && v.brackets[i].receive <= |w.times| {
        assert Timed(w.brackets[i], w.times);
      }
    }
  }

  lemma LockStep(w: World, step: Step)
    requires Locked(w) && Enabled(w, step)
    ensures Locked(Next(w, step))
  {
    hide OpenTake, Polled;
  }

  /** A hold that covered an instant in the past still does after the next step. */
  lemma FoundStays(w: World, step: Step, k: nat, v: nat, t: nat)
    requires Enabled(w, step) && FoundAt(w.takes, k, v, t) && t <= w.now
    ensures FoundAt(Next(w, step).takes, k, v, t)
  {
    hide Polled;
  }

  /** The hold found now is the worker's last. */
  lemma FoundLast(w: World, v: nat, m: nat)
    requires Locked(w) && HoldOf(w, v).Some? && m < |w.takes| && w.takes[m].worker == v
    ensures m <= HoldOf(w, v).value
  {
  }

  lemma LogStays(w: World, step: Step)
    requires Watched(w) && Enabled(w, step) && step != PollEnd
    ensures var v := Next(w, step);
            && v.log == w.log && w.now <= v.now
            && forall k :: 0 <= k < |v.log| ==> Sound(v.log[k], v.takes) && v.log[k].after <= v.now
  {
    hide FoundAt, Polled;
    var v := Next(w, step);
    forall k | 0 <= k < |v.log| ensures Sound(v.log[k], v.takes) && v.log[k].after <= v.now {
      FoundStays(w, step, w.log[k].take, w.log[k].worker, w.log[k].seen);
    }
  }

  lemma PollEnds(w: World)
    requires Watched(w) && Enabled(w, PollEnd)
    ensures Watched(Next(w, PollEnd))
  {
    hide FoundAt;
    var v := Next(w, PollEnd);
    assert v.log[..|w.log|] == w.log;
    assert forall k :: 0 <= k < |w.log| ==> v.log[k] == w.log[k];
  }

  lemma PollChecked(w: World)
    requires Locked(w) && Watched(w) && Enabled(w, PollCheck)
    ensures Watched(Next(w, PollCheck))
  {
    hide OpenTake, Polled;
    var p := w.polling.value;
    if HoldOf(w, p.worker).Some? {
      forall k | 0 <= k < |w.log| && w.log[k].worker == p.worker ensures w.log[k].take <= HoldOf(w, p.worker).value {
        assert Sound(w.log[k], w.takes);
        FoundLast(w, p.worker, w.log[k].take);
      }
    }
  }

  lemma WatchStep(w: World, step: Step)
    requires Locked(w) && Watched(w) && Enabled(w, step)
    ensures Watched(Next(w, step))
  {
    if step == PollEnd {
      PollEnds(w);
    } else if step == PollCheck {
      PollChecked(w);
    } else {
      hide FoundAt, Polled, Sequential, OpenTake;
      LogStays(w, step);
      if w.polling.Some? && w.polling.value.found.Some? {
        var f := w.polling.value.found.value;
        FoundStays(w, step, f.take, w.polling.value.worker, f.at);
      }
    }
  }

  lemma {:induction false} RunKeepsInv(steps: seq<Step>)
    requires Run(steps).Some?
    ensures Inv(Run(steps).value)
  {
    hide Next, Enabled, Clocked, Bracketed, Locked, Watched;
    if steps == [] {
      InitialInv();
    } else {
      var front, step := steps[..|steps| - 1], steps[|steps| - 1];
      RunKeepsInv(front);
      ClockStep(Run(front).value, step);
      BracketStep(Run(front).value, step);
      LockStep(Run(front).value, step);
      WatchStep(Run(front).value, step);
    }
  }

  lemma InitialInv()
    ensures Inv(INITIAL)
  {
  }

  lemma TimeSound(w: World)
    requires Clocked(w) && Bracketed(w)
    ensures Monotone(e => TimeOf(w, e)) && Causal(w.brackets, e => TimeOf(w, e))
  {
    forall i | 0 <= i < |w.brackets|
      ensures TimeOf(w, w.brackets[i].send) <= w.brackets[i].ns <= TimeOf(w, w.brackets[i].receive)
    {
      assert Timed(w.brackets[i], w.times);
    }
  }
}
