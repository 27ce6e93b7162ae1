/**
 The bracket protocol shared by the overlap evaluators. The page numbers its own events; every
 anchor sends a request, has the native side read its clock, and receives the answer. Only the
 order of the events and the readings are trusted, never the page's own clock.
 */
module CausalBrackets {
  import opened Results

  // ---------------------------------------------------------------- anchor evidence

  /** `ns` is None when the decimal text is lossy, out of range or not decimal at all. */
  datatype Native = Native(runId: string, anchorId: int, clock: string, pid: int, ns: Option<nat>, session: string)

  datatype Anchor = Anchor(anchorId: int, send: int, receive: Option<int>, native: Option<Native>,
                           error: Option<string>)

  /** What a receipt is checked against: its own run, the observer's clock and root process. */
  datatype Context = Context(runId: string, clock: string, pid: int, maxEvent: int, sessionLimit: Option<nat>)

  datatype Bracket = Bracket(send: int, receive: int, ns: int)

  datatype EvidenceError =
    | BadEvent | AnchorOrder | PendingAnchor | FailedAnchor | NativeIdentity | NativeClock | NativeSession
    | SampleOrder | SegmentOrder | CohortTiming | InputContext | MissingAcknowledgment

  predicate EventInRange(e: int, ctx: Context) { 0 < e <= ctx.maxEvent }

  function PriorReceive(anchors: seq<Anchor>, i: nat): int
    requires i <= |anchors|
  {
    if i == 0 || anchors[i - 1].receive.None? then 0 else anchors[i - 1].receive.value
  }

  function PriorNative(anchors: seq<Anchor>, i: nat): Option<Native>
    requires i <= |anchors|
  {
    if i == 0 then None else anchors[i - 1].native
  }

  predicate NativeAgrees(native: Native, i: nat, ctx: Context) {
    && native.runId == ctx.runId && native.anchorId == i + 1 && native.clock == ctx.clock && native.pid == ctx.pid
  }

  predicate SessionAgrees(native: Native, prior: Option<Native>, ctx: Context) {
    && native.session != "" && (ctx.sessionLimit.Some? ==> |native.session| <= ctx.sessionLimit.value)
    && (prior.Some? ==> prior.value.session == native.session)
  }

  predicate ClockAgrees(native: Native, prior: Option<Native>) {
    && native.ns.Some? && 0 < native.ns.value < 0x1_0000_0000_0000_0000
    && (prior.Some? && prior.value.ns.Some? ==> prior.value.ns.value <= native.ns.value)
  }

  /** Every rule one anchor has to meet, given the anchor before it. Only the last may be pending. */
  predicate AnchorAdmissible(anchors: seq<Anchor>, i: nat, ctx: Context)
    requires i < |anchors|
  {
    var a := anchors[i];
    && a.anchorId == i + 1 && a.send > PriorReceive(anchors, i) && EventInRange(a.send, ctx)
    && match a.receive
       case None => i == |anchors| - 1 && a.native.None? && a.error == Some("incomplete")
       case Some(receive) =>
         && EventInRange(receive, ctx) && receive > a.send && a.error.None? && a.native.Some?
         && NativeAgrees(a.native.value, i, ctx)
         && ClockAgrees(a.native.value, PriorNative(anchors, i))
         && SessionAgrees(a.native.value, PriorNative(anchors, i), ctx)
  }

  ghost predicate Admissible(anchors: seq<Anchor>, ctx: Context) {
    forall i :: 0 <= i < |anchors| ==> AnchorAdmissible(anchors, i, ctx)
  }

  /** The bracket of an answered anchor. */
  function BracketOf(a: Anchor): Bracket
    requires a.receive.Some? && a.native.Some? && a.native.value.ns.Some?
  {
    Bracket(a.send, a.receive.value, a.native.value.ns.value)
  }

  /** Brackets follow one another without overlap, and so do their readings. */
  ghost predicate Chain(brackets: seq<Bracket>) {
    && (forall i :: 0 <= i < |brackets| ==> brackets[i].send < brackets[i].receive)
    && (forall i, j :: 0 <= i < j < |brackets| ==>
                         brackets[i].receive < brackets[j].send && brackets[i].ns <= brackets[j].ns)
  }

  /** The loop's memory of the anchors before `i`, all of which were answered. */
  ghost predicate Remembers(anchors: seq<Anchor>, i: nat, priorReceive: int, priorNs: int, session: Option<string>) {
    && i <= |anchors|
    && priorReceive == PriorReceive(anchors, i)
    && match PriorNative(anchors, i)
       case None => i == 0 && priorNs == 0 && session.None?
       case Some(n) => n.ns == Some(priorNs) && session == Some(n.session)
  }

  method CheckAnchor(anchors: seq<Anchor>, i: nat, priorReceive: int, priorNs: int, session: Option<string>,
                     seen: set<int>, ctx: Context) returns (error: Option<EvidenceError>)
    requires i < |anchors| && Remembers(anchors, i, priorReceive, priorNs, session)
    requires forall e :: e in seen ==> e <= priorReceive
    ensures error.None? <==> AnchorAdmissible(anchors, i, ctx)
  {
    var a := anchors[i];
    if a.anchorId != i + 1 || a.send <= priorReceive { return Some(AnchorOrder); }
    if !EventInRange(a.send, ctx) || a.send in seen { return Some(BadEvent); }
    if a.receive.None? {
      if i != |anchors| - 1 || a.native.Some? || a.error != Some("incomplete") { return Some(PendingAnchor); }
      return None;
    }
    var receive := a.receive.value;
    if !EventInRange(receive, ctx) || receive == a.send || receive in seen { return Some(BadEvent); }
    if receive <= a.send || a.error.Some? || a.native.None? { return Some(FailedAnchor); }
    var native := a.native.value;
    if !NativeAgrees(native, i, ctx) { return Some(NativeIdentity); }
    if native.ns.None? || native.ns.value == 0 || native.ns.value >= 0x1_0000_0000_0000_0000
      || native.ns.value < priorNs {
      return Some(NativeClock);
    }
    if native.session == "" || (ctx.sessionLimit.Some? && |native.session| > ctx.sessionLimit.value)
       || (session.Some? && session.value != native.session) {
      return Some(NativeSession);
    }
    return None;
  }

  /** `brackets` are those of the first answered anchors. */
  ghost predicate BracketsOf(anchors: seq<Anchor>, brackets: seq<Bracket>) {
    && |brackets| <= |anchors|
    && forall k :: 0 <= k < |brackets| ==>
                     anchors[k].receive.Some? && anchors[k].native.Some? && anchors[k].native.value.ns.Some?
                     && brackets[k] == BracketOf(anchors[k])
  }

  lemma {:induction false} AdmissibleChain(anchors: seq<Anchor>, brackets: seq<Bracket>, ctx: Context)
    requires Admissible(anchors, ctx) && BracketsOf(anchors, brackets)
    ensures Chain(brackets)
  {
    if brackets != [] {
      var n := |brackets| - 1;
      AdmissibleChain(anchors, brackets[..n], ctx);
      assert AnchorAdmissible(anchors, n, ctx);
      forall i | 0 <= i < n ensures brackets[i].receive < brackets[n].send && brackets[i].ns <= brackets[n].ns {
        assert brackets[..n][i] == brackets[i] && brackets[..n][n - 1] == brackets[n - 1];
        assert anchors[n - 1].native.Some?;
      }
    }
  }

  ghost predicate Answered(anchors: seq<Anchor>, n: nat) {
    n <= |anchors| && forall k :: 0 <= k < n ==> anchors[k].receive.Some?
  }

  /** Only the last anchor may be without an answer. */
  function AnsweredCount(anchors: seq<Anchor>): nat {
    if anchors != [] && anchors[|anchors| - 1].receive.None? then |anchors| - 1 else |anchors|
  }

  ghost predicate EventsSeen(anchors: seq<Anchor>, n: nat, seen: set<int>) {
    && n <= |anchors|
    && forall k :: 0 <= k < n ==>
                     anchors[k].send in seen && (anchors[k].receive.Some? ==> anchors[k].receive.value in seen)
  }

  /**
   Validation accepts exactly the admissible anchor lists; each answered anchor then gives one
   bracket, in order, and every anchor event is recorded as seen.
   */
  method ValidateAnchors(anchors: seq<Anchor>, ctx: Context)
    returns (r: Result<(seq<Bracket>, set<int>), EvidenceError>)
    ensures r.Ok? <==> Admissible(anchors, ctx)
    ensures r.Ok? ==> Chain(r.value.0) && BracketsOf(anchors, r.value.0)
    ensures r.Ok? ==> |r.value.0| == AnsweredCount(anchors)
    ensures r.Ok? ==> EventsSeen(anchors, |anchors|, r.value.1)
  {
    var seen, brackets: seq<Bracket> := {}, [];
    var priorReceive, priorNs: int, session: Option<string> := 0, 0, None;
    for i := 0 to |anchors|
      invariant forall k :: 0 <= k < i ==> AnchorAdmissible(anchors, k, ctx)
      invariant BracketsOf(anchors, brackets)
      invariant |brackets| == AnsweredCount(anchors[..i])
      invariant i < |anchors| ==> Answered(anchors, i) && Remembers(anchors, i, priorReceive, priorNs, session)
      invariant EventsSeen(anchors, i, seen)
      invariant i < |anchors| ==> forall e :: e in seen ==> e <= priorReceive
    {
      var a := anchors[i];
      var error := CheckAnchor(anchors, i, priorReceive, priorNs, session, seen, ctx);
      if error.Some? { return Err(error.value); }
      seen := seen + {a.send};
      if a.receive.Some? {
        var native := a.native.value;
        seen := seen + {a.receive.value};
        brackets := brackets + [Bracket(a.send, a.receive.value, native.ns.value)];
        priorReceive, priorNs, session := a.receive.value, native.ns.value, Some(native.session);
      }
    }
    assert anchors[..|anchors|] == anchors;
    AdmissibleChain(anchors, brackets, ctx);
    return Ok((brackets, seen));
  }
}
