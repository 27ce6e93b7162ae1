/**
 The durable barrier in front of a generation: an admission attempt reserves a discovery and a
 registration command, and may crash between any two durable writes, be paused, or fail. The files
 are the fields of `Runner`; each assignment to one is one durable write.
 */
module Admission {
  import opened Results

  datatype Phase = Discovery | Registration

  /** Steps are filed under the key of the command they reserve. */
  datatype Key = Key(attempt: nat, phase: Phase) | Elsewhere(n: nat)

  /** A finished command. `same` says whether its inventory equals the adopted one. */
  datatype Record = Record(phase: Option<Phase>, ok: bool, same: bool)

  datatype Status = Started | Complete | PausedBefore(phase: Phase) | Failed

  datatype Attempt = Attempt(status: Status, binding: int, discovery: Option<nat>, registration: Option<nat>,
                             same: bool, pauseNext: nat)

  datatype Outcome = Returned(command: nat) | Paused | Raised | Crashed

  /** What held when an attempt was first written: the unresolved commands, the journal and the attempt before. */
  datatype Beginning = Beginning(attempt: nat, unresolved: set<nat>, journal: nat, previous: Option<Attempt>,
                                 reserved: bool)

  class Runner {
    const binding: int
    var next: nat                        // journal.json
    var steps: map<Key, nat>             // steps/<key>.json
    var records: map<nat, Record>        // commands/<n>/result.json
    var attempts: map<nat, Attempt>      // reports/generation-admission-<id>.json
    var current: Option<nat>             // reports/generation-admission-current.json
    ghost var owner: map<nat, nat>       // which attempt reserved a command
    ghost var begun: seq<Beginning>

    constructor (binding: int)
      ensures Valid() && this.binding == binding && begun == []
    {
      this.binding := binding;
      next, steps, records, attempts, current := 1, map[], map[], map[], None;
      owner, begun := map[], [];
    }

    ghost predicate Succeeded(s: nat)
      reads this
    {
      s in records && records[s].ok
    }

    ghost function Unresolved(): set<nat>
      reads this
    {
      set s | s in owner && !Succeeded(s)
    }

    /** Commands that the attempt reserved, all among those listed and all successful. */
    ghost predicate OwnsOnly(id: nat, commands: set<nat>)
      reads this
    {
      && (forall s :: s in owner && owner[s] == id ==> s in commands)
      && (forall s :: s in commands ==> s in owner && owner[s] == id && Succeeded(s))
    }

    /** The result of a successful command of that phase is there. */
    predicate Evidence(command: Option<nat>, phase: Phase)
      reads this
    {
      && command.Some? && command.value in records && records[command.value].phase == Some(phase)
      && records[command.value].ok
    }

    /** The discovery the attempt names found the inventory unchanged. */
    predicate FoundSame(a: Attempt)
      reads this
    {
      a.same && Evidence(a.discovery, Discovery) && records[a.discovery.value].same
    }

    /** What the status written last promises about the commands of the attempt. */
    ghost predicate StatusTrue(id: nat)
      reads this
      requires id in attempts
    {
      var a := attempts[id];
      match a.status
      case Started => true
      case Failed => true
      case PausedBefore(Discovery) => OwnsOnly(id, {}) && a.pauseNext <= next
      case PausedBefore(Registration) => FoundSame(a) && OwnsOnly(id, {a.discovery.value}) && a.pauseNext <= next
      case Complete => FoundSame(a) && Evidence(a.registration, Registration)
                       && OwnsOnly(id, {a.discovery.value, a.registration.value})
    }

    ghost predicate Filed()
      reads this
    {
      && (forall s :: s in owner ==> s < next && owner[s] in attempts)
      && (forall s :: s in records ==> s < next)
      && (forall k :: k in steps ==> steps[k] < next)
      && (forall k :: k in steps && k.Key? ==> k.attempt in attempts)
      && (current.Some? ==> current.value in attempts)
    }

    /** Whenever an attempt began, everything reserved before had succeeded, and a pause had been left untouched. */
    ghost predicate HistorySafe()
      reads this
    {
      forall i :: 0 <= i < |begun| ==>
        && begun[i].unresolved == {}
        && (begun[i].previous.Some? && begun[i].previous.value.status.PausedBefore? ==>
              begun[i].journal == begun[i].previous.value.pauseNext && !begun[i].reserved)
    }

    ghost predicate Valid()
      reads this
    {
      && Filed() && HistorySafe()
      && (forall s :: s in owner && Some(owner[s]) != current ==> Succeeded(s))
      && (current.Some? ==> StatusTrue(current.value))
    }

    /**
     A new attempt may begin: there is none before it, or the one before completed, or it was paused and
     neither its next command nor any other has been reserved since.
     */
    predicate Admissible()
      reads this
      requires Filed()
    {
      current.Some? ==>
        var a := attempts[current.value];
        && a.binding == binding
        && match a.status
           case Started => false
           case Failed => false
           case PausedBefore(phase) =>
             && Key(current.value, phase) !in steps && next == a.pauseNext
             && (phase == Registration ==> Evidence(a.discovery, Discovery) && a.same)
           case Complete => Evidence(a.discovery, Discovery) && Evidence(a.registration, Registration) && a.same
    }

    /** The journalled command: replayed if its step is filed, else reserved, run and recorded. */
    method Call(key: Key) returns (r: Outcome)
      requires Filed() && key.Key? && current == Some(key.attempt)
      modifies this`next, this`steps, this`records, this`owner
      ensures Filed()
      ensures r == Paused ==> next == old(next) && steps == old(steps) && records == old(records) && owner == old(owner)
      ensures r == Paused ==> key !in steps
      ensures old(next) <= next
      ensures forall k :: k in steps ==> k in old(steps) || k == key
      ensures forall s :: s in old(owner) ==> s in owner && owner[s] == old(owner)[s]
      ensures forall s :: s in owner && s !in old(owner) ==> owner[s] == key.attempt
      ensures forall s :: s in old(records) ==> s in records && records[s] == old(records)[s]
      ensures r.Returned? ==> r.command in records
      ensures r.Returned? && key !in old(steps) ==>
                && r.command in owner && r.command !in old(owner)
                && (forall s :: s in owner ==> s in old(owner) || s == r.command)
      ensures r.Returned? && key !in old(steps) ==> records[r.command].phase == Some(key.phase)
    {
      if key in steps {
        var filed := steps[key];
        if filed !in records { return Raised; }  // interrupted command requires review
        return Returned(filed);
      }
      var pause: bool := *;
      if pause { return Paused; }
      if * { return Raised; }  // space admission, changed binary
      var sequence := next;
      next := next + 1;
      owner := owner[sequence := key.attempt];
      if * { return Crashed; }
      if * { return Raised; }  // the command directory cannot be made
      steps := steps[key := sequence];
      if * { return Crashed; }
      if * { return Raised; }  // the pipes of the child cannot be drained
      var ok: bool, same: bool := *, *;
      records := records[sequence := Record(Some(key.phase), ok, same)];
      if * { return Crashed; }
      if !ok {
        if * { return Raised; }  // interrupted or failed to launch
      }
      return Returned(sequence);
    }

    method Require(key: Key) returns (r: Outcome)
      requires Filed() && key.Key? && current == Some(key.attempt) && key !in steps
      modifies this`next, this`steps, this`records, this`owner
      ensures Filed()
      ensures r == Paused ==> next == old(next) && steps == old(steps) && records == old(records) && owner == old(owner)
      ensures r == Paused ==> key !in steps
      ensures old(next) <= next
      ensures forall k :: k in steps ==> k in old(steps) || k == key
      ensures forall s :: s in old(owner) ==> s in owner && owner[s] == old(owner)[s]
      ensures forall s :: s in owner && s !in old(owner) ==> owner[s] == key.attempt
      ensures forall s :: s in old(records) ==> s in records && records[s] == old(records)[s]
      ensures r.Returned? ==> Succeeded(r.command) && records[r.command].phase == Some(key.phase)
      ensures r.Returned? ==>
                && r.command in owner && r.command !in old(owner)
                && (forall s :: s in owner ==> s in old(owner) || s == r.command)
    {
      r := Call(key);
      if r.Returned? && !records[r.command].ok { r := Raised; }
    }

    /** The review of the attempt before: may a new one begin? */
    method Review() returns (admitted: bool)
      requires Valid()
      ensures admitted <==> Admissible()
      ensures admitted ==> Unresolved() == {}
      ensures admitted && current.Some? && attempts[current.value].status.PausedBefore? ==>
                var held := attempts[current.value];
                held.pauseNext == next && Key(current.value, held.status.phase) !in steps
    {
      if current.None? {
        assert forall s :: s in owner ==> Succeeded(s);
        return true;
      }
      var previous := attempts[current.value];
      assert forall s :: s in owner && owner[s] != current.value ==> Succeeded(s);
      if previous.binding != binding { return false; }
      match previous.status
      case Started => return false;
      case Failed => return false;
      case PausedBefore(phase) =>
        if Key(current.value, phase) in steps { return false; }
        if next != previous.pauseNext { return false; }
        if phase == Registration && (!Evidence(previous.discovery, Discovery) || !previous.same) { return false; }
        return true;
      case Complete =>
        return Evidence(previous.discovery, Discovery) && Evidence(previous.registration, Registration)
          && previous.same;
    }

    /** Attempt `id` is the current one, still under way, and everything reserved before it succeeded. */
    ghost predicate Open(id: nat)
      reads this
    {
      && Filed() && HistorySafe() && id in attempts && current == Some(id) && attempts[id].status == Started
      && forall s :: s in owner && owner[s] != id ==> Succeeded(s)
    }

    /** The last durable write of an attempt that did not complete; it may itself be lost in a crash. */
    method Close(id: nat, attempt: Attempt, phase: Phase, r: Outcome) returns (left: Outcome)
      requires Open(id) && !r.Returned?
      requires r == Paused ==>
                 if phase == Discovery then OwnsOnly(id, {})
                 else FoundSame(attempt) && OwnsOnly(id, {attempt.discovery.value})
      modifies this`attempts
      ensures Valid() && left in {r, Crashed}
      ensures left == Crashed ==> attempts == old(attempts)
      ensures left != Crashed ==>
                attempts == old(attempts)[id := if r == Paused && Key(id, phase) !in steps
                                                then attempt.(status := PausedBefore(phase), pauseNext := next)
                                                else attempt.(status := Failed)]
    {
      if r == Crashed { return Crashed; }
      if * { return Crashed; }
      if r == Paused && Key(id, phase) !in steps {
        attempts := attempts[id := attempt.(status := PausedBefore(phase), pauseNext := next)];
      } else {
        attempts := attempts[id := attempt.(status := Failed)];
      }
      return r;
    }

    /** The state an attempt begins in, as its history records it. */
    ghost function Snapshot(id: nat): Beginning
      reads this
      requires Filed()
    {
      var previous := if current.Some? then Some(attempts[current.value]) else None;
      Beginning(id, Unresolved(), next, previous,
                previous.Some? && previous.value.status.PausedBefore?
                && Key(current.value, previous.value.status.phase) in steps)
    }

    /** Review, pause check and the two writes that make `id` the current attempt. */
    method Begin(id: nat) returns (left: Option<Outcome>)
      requires Valid() && id !in attempts
      modifies this`begun, this`attempts, this`current
      ensures Valid()
      ensures left.Some? ==> !left.value.Returned?
      ensures left == Some(Paused) ==> Admissible()
      ensures left.None? ==>
                && Open(id) && OwnsOnly(id, {}) && attempts[id] == Attempt(Started, binding, None, None, false, 0)
                && forall k :: k in steps && k.Key? ==> k.attempt != id
      ensures begun == old(begun) || begun == old(begun) + [old(Snapshot(id))]
      ensures old(current.Some? && attempts[current.value].status in {Started, Failed}) ==>
                left == Some(Raised) && begun == old(begun) && attempts == old(attempts) && current == old(current)
    {
      var admitted := Review();
      if !admitted { return Some(Raised); }
      var pause: bool := *;
      if pause { return Some(Paused); }
      assert forall s :: s in owner ==> Succeeded(s) by {
        assert forall s :: s in owner && !Succeeded(s) ==> s in Unresolved();
      }
      begun := begun + [Snapshot(id)];
      attempts := attempts[id := Attempt(Started, binding, None, None, false, 0)];
      if * { return Some(Crashed); }
      current := Some(id);
      if * { return Some(Crashed); }
      return None;
    }

    /** The discovery half: on success the attempt file names the command and its inventory verdict. */
    method Discover(id: nat) returns (r: Outcome)
      requires Open(id) && OwnsOnly(id, {}) && attempts[id] == Attempt(Started, binding, None, None, false, 0)
      requires forall k :: k in steps && k.Key? ==> k.attempt != id
      modifies this`next, this`steps, this`records, this`owner, this`attempts
      ensures !r.Returned? ==> Valid()
      ensures r == Paused ==> Admissible()
      ensures r.Returned? ==>
                && Open(id) && OwnsOnly(id, {r.command})
                && attempts[id] == Attempt(Started, binding, Some(r.command), None, true, 0) && FoundSame(attempts[id])
                && Key(id, Registration) !in steps
    {
      var attempt := attempts[id];
      r := Require(Key(id, Discovery));
      if !r.Returned? {
        r := Close(id, attempt, Discovery, r);
        return;
      }
      var same := records[r.command].same;
      attempt := attempt.(discovery := Some(r.command), same := same);
      if * { return Crashed; }
      attempts := attempts[id := attempt];
      if !same {
        r := Close(id, attempt, Discovery, Raised);
      }
    }

    /** The registration half, which completes the attempt. */
    method Register(id: nat, discovery: nat) returns (r: Outcome)
      requires Open(id) && OwnsOnly(id, {discovery})
      requires attempts[id] == Attempt(Started, binding, Some(discovery), None, true, 0) && FoundSame(attempts[id])
      requires Key(id, Registration) !in steps
      modifies this`next, this`steps, this`records, this`owner, this`attempts
      ensures Valid()
      ensures r == Paused || r.Returned? ==> Admissible()
      ensures r.Returned? ==>
                && attempts[id].status == Complete && StatusTrue(id) && attempts[id].discovery == Some(discovery)
                && records[discovery].same
    {
      var attempt := attempts[id];
      r := Require(Key(id, Registration));
      if !r.Returned? {
        r := Close(id, attempt, Registration, r);
        return;
      }
      if * { return Crashed; }
      attempts := attempts[id := attempt.(status := Complete, registration := Some(r.command))];
    }

    /**
     One admission, under any crash, pause or failure. It never begins an attempt while a command of
     an earlier one is unresolved, a stuck attempt bars every later one, and what it returns is a
     completed attempt whose two commands succeeded on an unchanged inventory.
     `id` stands for a fresh random identifier.
     */
    method Admit(id: nat) returns (r: Outcome)
      requires Valid() && id !in attempts
      modifies this
      ensures Valid()
      ensures begun == old(begun) || begun == old(begun) + [old(Snapshot(id))]
      ensures old(current.Some? && attempts[current.value].status in {Started, Failed}) ==>
                && r == Raised && begun == old(begun) && attempts == old(attempts) && next == old(next)
                && current == old(current)
      ensures r.Returned? ==>
                && current == Some(id) && id in attempts && attempts[id].status == Complete && StatusTrue(id)
                && attempts[id].discovery == Some(r.command) && Unresolved() == {}
                && Succeeded(r.command) && records[r.command].phase == Some(Discovery) && records[r.command].same
      ensures r == Paused || r.Returned? ==> Admissible()
    {
      var left := Begin(id);
      if left.Some? { return left.value; }
      r := Discover(id);
      if r.Returned? {
        var registered := Register(id, r.command);
        if !registered.Returned? { r := registered; }
      }
    }

    /** Commands of the later phases share the journal and the record store. */
    method OtherCommand(n: nat)
      requires Valid()
      modifies this`next, this`steps, this`records
      ensures Valid() && begun == old(begun)
    {
      var sequence := next;
      next := next + 1;
      if * { return; }
      steps := steps[Elsewhere(n) := sequence];
      if * { return; }
      var ok: bool := *;
      records := records[sequence := Record(None, ok, false)];
    }
  }

  /** Every run of admissions and other commands, in any order and number, keeps the barrier. */
  method AnyRun(binding: int, turns: nat) returns (runner: Runner)
    ensures fresh(runner) && runner.Valid()
  {
    runner := new Runner(binding);
    for i := 0 to turns
      invariant fresh(runner) && runner.Valid()
    {
      if * {
        var id: nat := *;
        if id !in runner.attempts {
          var outcome := runner.Admit(id);
        }
      } else {
        runner.OtherCommand(i);
      }
    }
  }
}
