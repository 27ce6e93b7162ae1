/** The bookkeeping of supervised processes: which identities are unresolved, and the evidence log of them. */
module ProcessTracker {
  import opened Integers
  import opened Sequences

  datatype Key = Key(pid: nat, created: int)

  datatype Kind = Discovered | Retired

  /** One line of the identity log, with the length of its encoding. */
  datatype Event = Event(kind: Kind, key: Key, size: nat)

  datatype Settings = Settings(
    maxActive: nat, maxSeen: nat, maxEvent: nat, maxLog: nat, maxSample: nat, maxTelemetry: nat)

  /** What inspecting one process gives; Unreadable stands for every exception that is not caught. */
  datatype Sight = Absent | Zombie | Running(rss: nat) | Vanished | Unreadable

  datatype Record = Record(key: Key, rss: nat)

  // ---------------------------------------------------------------- what a log says

  function SizeOf(events: seq<Event>): nat {
    if events == [] then 0 else SizeOf(events[..|events| - 1]) + events[|events| - 1].size
  }

  /** The identities a log leaves open. */
  function Replay(events: seq<Event>): set<Key> {
    if events == [] then {}
    else
      var e, front := events[|events| - 1], Replay(events[..|events| - 1]);
      if e.kind == Discovered then front + {e.key} else front - {e.key}
  }

  /** Each identity is discovered only while closed and retired only while open. */
  predicate Alternates(events: seq<Event>) {
    events == []
    || var e, front := events[|events| - 1], events[..|events| - 1];
       Alternates(front) && (e.kind == Retired <==> e.key in Replay(front))
  }

  function Count(events: seq<Event>, kind: Kind): nat {
    if events == [] then 0
    else Count(events[..|events| - 1], kind) + if events[|events| - 1].kind == kind then 1 else 0
  }

  /** A well-formed log has as many open identities as discoveries not retired. */
  lemma {:induction false} OpenCount(events: seq<Event>)
    requires Alternates(events)
    ensures Count(events, Discovered) == Count(events, Retired) + |Replay(events)|
  {
    if events != [] {
      OpenCount(events[..|events| - 1]);
    }
  }

  /** Every retirement follows a discovery of the same identity. */
  lemma {:induction false} RetiredWasDiscovered(events: seq<Event>, i: nat)
    requires Alternates(events) && i < |events| && events[i].kind == Retired
    ensures exists j :: 0 <= j < i && events[j].kind == Discovered && events[j].key == events[i].key
  {
    var front := events[..|events| - 1];
    if i < |front| {
      RetiredWasDiscovered(front, i);
      var j :| 0 <= j < i && front[j].kind == Discovered && front[j].key == front[i].key;
      assert events[j] == front[j];
    } else {
      var j := OpenWasDiscovered(front, events[i].key);
      assert events[j] == front[j];
    }
  }

  lemma {:induction false} OpenWasDiscovered(events: seq<Event>, key: Key) returns (j: nat)
    requires key in Replay(events)
    ensures j < |events| && events[j].kind == Discovered && events[j].key == key
  {
    j := |events| - 1;
    if !(events[j].kind == Discovered && events[j].key == key) {
      j := OpenWasDiscovered(events[..j], key);
    }
  }

  lemma Appended(events: seq<Event>, e: Event)
    ensures (events + [e])[..|events|] == events
    ensures SizeOf(events + [e]) == SizeOf(events) + e.size
    ensures Replay(events + [e]) == if e.kind == Discovered then Replay(events) + {e.key} else Replay(events) - {e.key}
    ensures Alternates(events + [e]) <==> Alternates(events) && (e.kind == Retired <==> e.key in Replay(events))
    ensures forall kind :: Count(events + [e], kind) == Count(events, kind) + if e.kind == kind then 1 else 0
  {
    assert (events + [e])[..|events|] == events;
  }

  /** The length of some encoded line; what it says is not modelled. */
  method LineLength() returns (size: nat) {
    size := *;
  }

  // ---------------------------------------------------------------- insertion-ordered keys

  lemma {:induction false} WithoutMiddle(a: seq<Key>, key: Key, b: seq<Key>)
    requires key !in a
    ensures Without(a + [key] + b, key) == a + b
  {
    hide Without;
    if a == [] {
      WithoutNext(key, b, key);
      assert a + [key] + b == [key] + b && a + b == b;
    } else {
      var x, rest := a[0], a[1..];
      assert a == [x] + rest;
      WithoutMiddle(rest, key, b);
      WithoutNext(x, rest + [key] + b, key);
      assert a + [key] + b == [x] + (rest + [key] + b) && a + b == [x] + (rest + b);
    }
  }

  lemma DistinctMiddle(a: seq<Key>, key: Key, b: seq<Key>)
    requires Distinct(a + [key] + b)
    ensures key !in a && key !in b && Distinct(a + b)
    ensures Elements(a + b) == Elements(a + [key] + b) - {key}
  {
    var all := a + [key] + b;
    assert all[|a|] == key;
    assert forall i :: 0 <= i < |a| ==> all[i] == a[i];
    assert forall i :: 0 <= i < |b| ==> all[|a| + 1 + i] == b[i];
    assert forall x :: x in all <==> x in a || x == key || x in b;
    var both := a + b;
    assert forall i :: 0 <= i < |both| ==> both[i] == all[if i < |a| then i else i + 1];
  }

  lemma DistinctEnd(a: seq<Key>, key: Key)
    requires Distinct(a) && key !in a
    ensures Distinct(a + [key]) && Elements(a + [key]) == Elements(a) + {key}
  {
  }

  function Keys(records: seq<Record>): seq<Key> {
    if records == [] then [] else Keys(records[..|records| - 1]) + [records[|records| - 1].key]
  }

  lemma KeysEmpty()
    ensures Keys([]) == []
  {
  }

  lemma KeysStep(records: seq<Record>, r: Record)
    ensures Keys(records + [r]) == Keys(records) + [r.key]
  {
    assert (records + [r])[..|records|] == records;
  }

  lemma HeadNext<T>(a: seq<T>, s: seq<T>, i: nat)
    requires i < |s|
    ensures a + s[i..] == a + [s[i]] + s[i + 1..]
  {
  }

  // ---------------------------------------------------------------- the account

  /** The counters against the unresolved identities and the log; `unlogged` is one whose evidence could not be kept. */
  ghost predicate Accounts(
    active: seq<Key>, discovered: nat, retired: nat, events: seq<Event>, unlogged: set<Key>, settings: Settings)
  {
    && Distinct(active)
    && discovered == retired + |active|
    && |unlogged| <= 1 && unlogged <= Elements(active) && Replay(events) == Elements(active) - unlogged
    && discovered == Count(events, Discovered) + |unlogged| && retired == Count(events, Retired)
    && |active| <= settings.maxActive + |unlogged| && discovered <= settings.maxSeen + |unlogged|
  }

  lemma AccountsUnlogged(
    active: seq<Key>, discovered: nat, retired: nat, events: seq<Event>, settings: Settings, key: Key)
    requires Accounts(active, discovered, retired, events, {}, settings) && key !in active
    ensures Accounts(active + [key], discovered + 1, retired, events, {key}, settings)
  {
    hide Replay, Count, Distinct, Elements;
    DistinctEnd(active, key);
    ElementsMember(active, key);
  }

  lemma ElementsMember(active: seq<Key>, key: Key)
    ensures key in Elements(active) <==> key in active
  {
  }

  lemma AccountsDiscovered(
    active: seq<Key>, discovered: nat, retired: nat, events: seq<Event>, settings: Settings, e: Event)
    requires Accounts(active, discovered, retired, events, {}, settings) && e.kind == Discovered && e.key !in active
    requires discovered + 1 <= settings.maxSeen && |active| + 1 <= settings.maxActive
    ensures Accounts(active + [e.key], discovered + 1, retired, events + [e], {}, settings)
  {
    hide Replay, Count, Distinct, Elements;
    DistinctEnd(active, e.key);
    Appended(events, e);
    assert Elements(active + [e.key]) - {} == Elements(active) + {e.key};
  }

  lemma AccountsRetired(
    a: seq<Key>, b: seq<Key>, discovered: nat, retired: nat, events: seq<Event>, settings: Settings, e: Event)
    requires Accounts(a + [e.key] + b, discovered, retired, events, {}, settings) && e.kind == Retired
    ensures Accounts(a + b, discovered, retired + 1, events + [e], {}, settings)
    ensures Without(a + [e.key] + b, e.key) == a + b
  {
    hide Replay, Count, Distinct, Elements;
    DistinctMiddle(a, e.key, b);
    WithoutMiddle(a, e.key, b);
    Appended(events, e);
    assert Elements(a + b) - {} == Elements(a + b);
  }

  lemma AccountsOpen(
    active: seq<Key>, discovered: nat, retired: nat, events: seq<Event>, settings: Settings, key: Key)
    requires Accounts(active, discovered, retired, events, {}, settings)
    ensures key in Replay(events) <==> key in active
    ensures |active| <= settings.maxActive && discovered <= settings.maxSeen
  {
    hide Replay, Count, Distinct;
  }

  // ---------------------------------------------------------------- the tracker

  class ActiveIdentities {
    const settings: Settings
    var active: seq<Key>
    var discovered: nat
    var retired: nat
    var bytes: nat

    /** The complete lines of the log file, and the length of a torn last one. */
    ghost var events: seq<Event>
    ghost var torn: nat

    /** An identity whose discovery could not be logged, once the run has failed on it. */
    ghost var unlogged: set<Key>
    ghost var failed: bool

    ghost predicate LogValid()
      reads this
    {
      && bytes == SizeOf(events) && bytes + torn <= settings.maxLog
      && Alternates(events) && forall i :: 0 <= i < |events| ==> events[i].size <= settings.maxEvent
    }

    /** Holds in every state between two operations, failed ones included. */
    ghost predicate Valid()
      reads this
    {
      && LogValid() && Accounts(active, discovered, retired, events, unlogged, settings)
      && (!failed ==> torn == 0 && unlogged == {})
    }

    constructor (settings: Settings)
      ensures Valid() && !failed && this.settings == settings && active == [] && discovered == 0 && events == []
    {
      this.settings, active, discovered, retired, bytes := settings, [], 0, 0, 0;
      events, torn, unlogged, failed := [], 0, {}, false;
    }

    /** Append one line: admitted by size, written in full and flushed, or nothing is counted. */
    method Log(kind: Kind, key: Key) returns (ok: bool, ghost e: Event)
      requires LogValid() && torn == 0 && (kind == Retired <==> key in Replay(events))
      modifies `bytes, `events, `torn
      ensures LogValid() && (ok ==> torn == 0) && e.kind == kind && e.key == key
      ensures events == if ok then old(events) + [e] else old(events)
    {
      hide Replay, Alternates, SizeOf, Count;
      var size := LineLength();
      e := Event(kind, key, size);
      if size > settings.maxEvent || bytes + size > settings.maxLog { return false, e; }
      var written: nat := *;
      if written < size {
        torn := written;
        return false, e;
      }
      if * {
        torn := size;
        return false, e;
      }
      Appended(events, e);
      bytes, events := bytes + size, events + [e];
      return true, e;
    }

    /** The identity is kept for cleanup even where its admission or its evidence fails. */
    method Add(key: Key) returns (ok: bool)
      requires Valid() && !failed
      modifies this
      ensures Valid() && failed == !ok
      ensures active == if key in old(active) then old(active) else old(active) + [key]
      ensures retired == old(retired)
      ensures ok ==> |active| <= settings.maxActive && discovered <= settings.maxSeen
    {
      hide Accounts, Replay, Alternates, SizeOf, Count;
      AccountsOpen(active, discovered, retired, events, settings, key);
      if key in active { return true; }
      AccountsUnlogged(active, discovered, retired, events, settings, key);
      ghost var was := active;
      active, discovered := active + [key], discovered + 1;
      if discovered > settings.maxSeen || |active| > settings.maxActive {
        failed, unlogged := true, {key};
        return false;
      }
      ghost var e;
      ok, e := Log(Discovered, key);
      if ok {
        AccountsDiscovered(was, old(discovered), retired, old(events), settings, e);
      } else {
        failed, unlogged := true, {key};
      }
    }

    /** Log first, forget second: a failed write leaves the identity active. */
    method Retire(key: Key, ghost a: seq<Key>, ghost b: seq<Key>) returns (ok: bool)
      requires Valid() && !failed && active == a + [key] + b
      modifies this
      ensures Valid() && failed == !ok && discovered == old(discovered)
      ensures active == if ok then a + b else old(active)
    {
      hide Accounts, Replay, Alternates, SizeOf, Count, Without;
      AccountsOpen(active, discovered, retired, events, settings, key);
      ghost var e;
      ok, e := Log(Retired, key);
      if !ok {
        failed := true;
        return;
      }
      AccountsRetired(a, b, discovered, retired, old(events), settings, e);
      active, retired := Without(active, key), retired + 1;
    }

    /** An exception nobody catches ends the run; nothing else changes. */
    method Fail()
      requires Valid()
      modifies `failed
      ensures Valid() && failed
    {
      failed := true;
    }

    /** One active identity: recorded if it runs, retired if it is gone. */
    method Inspect(key: Key, records: seq<Record>, ghost rest: seq<Key>) returns (ok: bool, next: seq<Record>)
      requires Valid() && !failed && active == Keys(records) + [key] + rest
      modifies this
      ensures Valid() && failed == !ok && discovered == old(discovered) && |active| <= |old(active)|
      ensures ok ==> active == Keys(next) + rest
    {
      hide Valid, Keys;
      next := records;
      var sight: Sight := *;
      match sight {
        case Running(rss) =>
          next := records + [Record(key, rss)];
          KeysStep(records, Record(key, rss));
          ok := true;
        case Unreadable =>
          Fail();
          ok := false;
        case _ =>
          ok := Retire(key, Keys(records), rest);
      }
    }

    /** Inspect every active identity; what is left active is exactly what is recorded, in order. */
    method Sample() returns (ok: bool, records: seq<Record>)
      requires Valid() && !failed
      modifies this
      ensures Valid() && failed == !ok && discovered == old(discovered)
      ensures ok ==> Keys(records) == active
      ensures |active| <= |old(active)|
    {
      hide Valid, Keys;
      var snapshot, i := active, 0;
      ok, records := true, [];
      KeysEmpty();
      while i < |snapshot|
        invariant 0 <= i <= |snapshot| && Valid() && !failed && ok && discovered == old(discovered)
        invariant active == Keys(records) + snapshot[i..] && |active| <= |snapshot|
      {
        HeadNext(Keys(records), snapshot, i);
        ok, records := Inspect(snapshot[i], records, snapshot[i + 1..]);
        if !ok { return; }
        i := i + 1;
      }
    }
  }

  // ---------------------------------------------------------------- the sampling loop

  datatype Limits = Limits(group: nat, process: nat)

  /** What one child of the root turns out to be. */
  datatype Child = Owned(key: Key) | Gone | Unproven

  function Total(records: seq<Record>): nat {
    if records == [] then 0 else Total(records[..|records| - 1]) + records[|records| - 1].rss
  }

  predicate Within(records: seq<Record>, limits: Limits) {
    Total(records) <= limits.group && forall i :: 0 <= i < |records| ==> records[i].rss <= limits.process
  }

  lemma {:induction false} KeysCount(records: seq<Record>)
    ensures |Keys(records)| == |records|
  {
    if records != [] { KeysCount(records[..|records| - 1]); }
  }

  method AddAll(tracker: ActiveIdentities, children: seq<Child>) returns (ok: bool)
    requires tracker.Valid() && !tracker.failed
    modifies tracker
    ensures tracker.Valid() && tracker.failed == !ok
    ensures forall k :: 0 <= k < |old(tracker.active)| ==> old(tracker.active)[k] in tracker.active
    ensures ok ==> forall i :: 0 <= i < |children| ==> children[i] != Unproven
    ensures ok ==> forall i :: 0 <= i < |children| && children[i].Owned? ==> children[i].key in tracker.active
  {
    hide Accounts;
    var i := 0;
    ghost var was := tracker.active;
    while i < |children|
      invariant 0 <= i <= |children| && tracker.Valid() && !tracker.failed
      invariant |was| <= |tracker.active| && tracker.active[..|was|] == was
      invariant forall k :: 0 <= k < i ==> children[k] != Unproven
      invariant forall k :: 0 <= k < i && children[k].Owned? ==> children[k].key in tracker.active
    {
      match children[i] {
        case Gone =>
        case Unproven =>
          tracker.Fail();
          return false;
        case Owned(key) =>
          var added := tracker.Add(key);
          if !added { return false; }
      }
      i := i + 1;
    }
    ok := true;
  }

  /** What a finished supervision leaves: the samples it logged, the peak it reports, the telemetry it wrote. */
  datatype Watched = Watched(complete: bool, samples: seq<seq<Record>>, peak: nat, telemetry: nat)

  function Peak(samples: seq<seq<Record>>): nat {
    if samples == [] then 0 else Max(Peak(samples[..|samples| - 1]), Total(samples[|samples| - 1]))
  }

  lemma PeakStep(samples: seq<seq<Record>>, records: seq<Record>)
    ensures Peak(samples + [records]) == Max(Peak(samples), Total(records))
  {
    assert (samples + [records])[..|samples|] == samples;
  }

  /**
   * The loop of `invoke`, for at most `rounds` samples before the deadline. It ends complete only if every sample
   * stayed within the limits and the tracker never failed; its count guard after sampling never fires.
   */
  method Supervise(tracker: ActiveIdentities, root: Key, limits: Limits, rounds: nat) returns (r: Watched)
    requires tracker.Valid() && !tracker.failed && tracker.active == []
    modifies tracker
    ensures tracker.Valid()
    ensures r.telemetry <= tracker.settings.maxTelemetry && |r.samples| <= rounds
    ensures r.complete ==> r.samples != [] && !tracker.failed
    ensures r.complete ==> Keys(r.samples[|r.samples| - 1]) == tracker.active
    ensures r.complete ==> r.peak == Peak(r.samples) && r.peak <= limits.group
    ensures r.complete ==> forall i :: 0 <= i < |r.samples| ==> Within(r.samples[i], limits)
    ensures forall i :: 0 <= i < |r.samples| ==> |r.samples[i]| <= tracker.settings.maxActive
  {
    hide Within, Total, Accounts, Keys;
    var samples: seq<seq<Record>>, peak: nat, telemetry: nat := [], 0, 0;
    var ok := tracker.Add(root);
    if !ok { return Watched(false, samples, peak, telemetry); }
    while |samples| < rounds
      invariant tracker.Valid() && !tracker.failed && |samples| <= rounds
      invariant telemetry <= tracker.settings.maxTelemetry && peak == Peak(samples) && peak <= Max(limits.group, 0)
      invariant forall i :: 0 <= i < |samples| ==>
                  Within(samples[i], limits) && |samples[i]| <= tracker.settings.maxActive
      decreases rounds - |samples|
    {
      var records: seq<Record>;
      ok, records := tracker.Sample();
      if !ok { return Watched(false, samples, peak, telemetry); }
      var children: seq<Child> := *;
      ok := AddAll(tracker, children);
      if !ok { return Watched(false, samples, peak, telemetry); }
      ok, records := tracker.Sample();
      if !ok { return Watched(false, samples, peak, telemetry); }
      peak := Max(peak, Total(records));
      var size := LineLength();
      if size > tracker.settings.maxSample || telemetry + size > tracker.settings.maxTelemetry {
        return Watched(false, samples, peak, telemetry);
      }
      telemetry := telemetry + size;
      PeakStep(samples, records);
      samples := samples + [records];
      KeysCount(records);
      AccountsOpen(tracker.active, tracker.discovered, tracker.retired, tracker.events, tracker.settings, root);
      assert |records| <= tracker.settings.maxActive;
      if |records| > tracker.settings.maxActive { return Watched(false, samples, peak, telemetry); }
      if !Within(records, limits) { return Watched(false, samples, peak, telemetry); }
      WithinTotal(records, limits);
      var code: int, exited: bool, late: bool, fault: bool, orphan: bool := *, *, *, *, *;
      if fault || late { return Watched(false, samples, peak, telemetry); }
      if exited {
        return Watched(!orphan && code == 0, samples, peak, telemetry);
      }
    }
    return Watched(false, samples, peak, telemetry);
  }

  lemma WithinTotal(records: seq<Record>, limits: Limits)
    requires Within(records, limits)
    ensures Total(records) <= limits.group
  {
  }
}
