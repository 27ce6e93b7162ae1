/** What a chain of brackets proves: the true time of a stretch of events, inside one native segment. */
module Envelopes {
  import opened Results
  import opened CausalBrackets

  /** A proven stretch of native activity: from the first positive probe's end to the last one's start. */
  datatype Segment = Segment(lo: int, hi: int)

  datatype Proof = Proof(lower: int, upper: int, segment: nat)

  /** Those of the first `n` brackets that were answered before `start`. */
  function Before(brackets: seq<Bracket>, n: nat, start: int): seq<Bracket>
    requires n <= |brackets|
  {
    if n == 0 then []
    else if brackets[n - 1].receive < start then Before(brackets, n - 1, start) + [brackets[n - 1]]
    else Before(brackets, n - 1, start)
  }

  /** Those of the brackets from `n` on that were requested after `finish`. */
  function After(brackets: seq<Bracket>, n: nat, finish: int): seq<Bracket>
    requires n <= |brackets|
    decreases |brackets| - n
  {
    if n == |brackets| then []
    else if brackets[n].send > finish then [brackets[n]] + After(brackets, n + 1, finish)
    else After(brackets, n + 1, finish)
  }

  /** The first segment holding both readings, counted from `i`. */
  function Holding(segments: seq<Segment>, i: nat, lower: int, upper: int): Option<nat>
    requires i <= |segments|
    decreases |segments| - i
  {
    if i == |segments| then None
    else if segments[i].lo <= lower <= upper <= segments[i].hi then Some(i)
    else Holding(segments, i + 1, lower, upper)
  }

  lemma {:induction false} HoldingFirst(segments: seq<Segment>, i: nat, lower: int, upper: int)
    requires i <= |segments|
    ensures var s := Holding(segments, i, lower, upper);
            && (s.Some? ==> i <= s.value < |segments| && segments[s.value].lo <= lower <= upper <= segments[s.value].hi)
            && forall k :: i <= k < (if s.Some? then s.value else |segments|) ==>
                             !(segments[k].lo <= lower <= upper <= segments[k].hi)
    decreases |segments| - i
  {
    if i < |segments| && !(segments[i].lo <= lower <= upper <= segments[i].hi) {
      HoldingFirst(segments, i + 1, lower, upper);
    }
  }

  function Envelope(brackets: seq<Bracket>, segments: seq<Segment>, start: int, finish: int): Option<Proof> {
    var before, after := Before(brackets, |brackets|, start), After(brackets, 0, finish);
    if before == [] || after == [] then None
    else
      var lower, upper := before[|before| - 1].ns, after[0].ns;
      match Holding(segments, 0, lower, upper)
      case None => None
      case Some(s) => Some(Proof(lower, upper, s))
  }

  lemma ProofIndex(brackets: seq<Bracket>, segments: seq<Segment>, start: int, finish: int)
    requires Envelope(brackets, segments, start, finish).Some?
    ensures Envelope(brackets, segments, start, finish).value.segment < |segments|
  {
    var before, after := Before(brackets, |brackets|, start), After(brackets, 0, finish);
    HoldingFirst(segments, 0, before[|before| - 1].ns, after[0].ns);
  }

  /** In a chain the brackets answered before `start` are a prefix. */
  lemma {:induction false} BeforeIsPrefix(brackets: seq<Bracket>, n: nat, start: int) returns (k: nat)
    requires n <= |brackets| && Chain(brackets)
    ensures k <= n && Before(brackets, n, start) == brackets[..k]
    ensures forall i :: 0 <= i < n ==> (brackets[i].receive < start <==> i < k)
  {
    k := 0;
    if n > 0 {
      k := BeforeIsPrefix(brackets, n - 1, start);
      if brackets[n - 1].receive < start {
        assert forall i :: 0 <= i < n - 1 ==> brackets[i].receive < brackets[n - 1].send < start;
        k := n;
      }
    }
  }

  /** In a chain the brackets requested after `finish` are a suffix. */
  lemma {:induction false} AfterIsSuffix(brackets: seq<Bracket>, n: nat, finish: int) returns (k: nat)
    requires n <= |brackets| && Chain(brackets)
    ensures n <= k <= |brackets| && After(brackets, n, finish) == brackets[k..]
    ensures forall i :: n <= i < |brackets| ==> (brackets[i].send > finish <==> k <= i)
    decreases |brackets| - n
  {
    k := n;
    if n < |brackets| {
      k := AfterIsSuffix(brackets, n + 1, finish);
      if brackets[n].send > finish {
        assert forall i :: n < i < |brackets| ==> finish < brackets[n].receive < brackets[i].send;
        assert brackets[n..] == [brackets[n]] + brackets[n + 1..];
        k := n;
      }
    }
  }

  /** True native time never decreases from one event to the next. */
  ghost predicate Monotone(time: int -> int) {
    forall e, f :: e <= f ==> time(e) <= time(f)
  }

  /** Each reading was taken between its request and its answer. */
  ghost predicate Causal(brackets: seq<Bracket>, time: int -> int) {
    forall i :: 0 <= i < |brackets| ==> time(brackets[i].send) <= brackets[i].ns <= time(brackets[i].receive)
  }

  /** An envelope bounds the true time of every moment from start to finish, inside one segment. */
  lemma EnvelopeSound(brackets: seq<Bracket>, segments: seq<Segment>, start: int, finish: int, time: int -> int)
    requires Chain(brackets) && Monotone(time) && Causal(brackets, time)
    requires Envelope(brackets, segments, start, finish).Some?
    ensures var p := Envelope(brackets, segments, start, finish).value;
            p.segment < |segments|
            && forall e :: start <= e <= finish ==>
                             segments[p.segment].lo <= p.lower <= time(e) <= p.upper <= segments[p.segment].hi
  {
    var n := BeforeIsPrefix(brackets, |brackets|, start);
    var k := AfterIsSuffix(brackets, 0, finish);
    var low, high := brackets[n - 1], brackets[k];
    HoldingFirst(segments, 0, low.ns, high.ns);
    forall e | start <= e <= finish ensures low.ns <= time(e) <= high.ns {
      assert time(low.receive) <= time(e) <= time(high.send);
    }
  }

  /** Anchors `i` and `j` bracket the stretch, with both readings in segment `k`. */
  ghost predicate Witnesses(brackets: seq<Bracket>, segments: seq<Segment>, i: nat, j: nat, k: nat, start: int,
                            finish: int) {
    && i < |brackets| && j < |brackets| && k < |segments|
    && brackets[i].receive < start && finish < brackets[j].send
    && segments[k].lo <= brackets[i].ns && brackets[j].ns <= segments[k].hi
  }

  ghost predicate Provable(brackets: seq<Bracket>, segments: seq<Segment>, start: int, finish: int) {
    exists i: nat, j: nat, k: nat :: Witnesses(brackets, segments, i, j, k, start, finish)
  }

  /** The nearest pair of anchors proves activity whenever any pair of anchors does. */
  lemma EnvelopeComplete(brackets: seq<Bracket>, segments: seq<Segment>, start: int, finish: int)
    requires Chain(brackets) && start <= finish
    ensures Envelope(brackets, segments, start, finish).Some? <==> Provable(brackets, segments, start, finish)
  {
    var n := BeforeIsPrefix(brackets, |brackets|, start);
    var m := AfterIsSuffix(brackets, 0, finish);
    if Provable(brackets, segments, start, finish) {
      var i: nat, j: nat, k: nat :| Witnesses(brackets, segments, i, j, k, start, finish);
      assert i < n && m <= j;
      assert brackets[i].ns <= brackets[n - 1].ns && brackets[m].ns <= brackets[j].ns;
      assert brackets[n - 1].receive < brackets[m].send;
      assert n - 1 < m;
      HoldingFirst(segments, 0, brackets[n - 1].ns, brackets[m].ns);
    }
    if Envelope(brackets, segments, start, finish).Some? {
      var p := Envelope(brackets, segments, start, finish).value;
      HoldingFirst(segments, 0, brackets[n - 1].ns, brackets[m].ns);
      assert Witnesses(brackets, segments, n - 1, m, p.segment, start, finish);
    }
  }

  /** Activity proven for a whole stretch is proven for every part of it. */
  lemma EnvelopeNarrows(brackets: seq<Bracket>, segments: seq<Segment>, start: int, finish: int, s: int, f: int)
    requires Chain(brackets) && start <= s <= f <= finish
    requires Envelope(brackets, segments, start, finish).Some?
    ensures Envelope(brackets, segments, s, f).Some?
  {
    EnvelopeComplete(brackets, segments, start, finish);
    EnvelopeComplete(brackets, segments, s, f);
    var i: nat, j: nat, k: nat :| Witnesses(brackets, segments, i, j, k, start, finish);
    assert Witnesses(brackets, segments, i, j, k, s, f);
  }
}
