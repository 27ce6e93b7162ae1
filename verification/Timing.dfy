/** Timing distributions by nearest rank, and the summary of a covered case. */
module Timing {
  import opened Results
  import opened SampleCounts
  import opened SampleLedger
  import opened Sorting

  // ---------------------------------------------------------------- nearest rank

  const MAX_SAMPLES := 3264

  datatype Distribution = Distribution(count: nat, min: real, p50: real, p95: real, p99: real, max: real)

  function Rank(ordered: seq<real>, percent: nat): real
    requires ordered != [] && 1 <= percent <= 100
  {
    RankInRange(|ordered|, percent);
    ordered[(|ordered| * percent + 99) / 100 - 1]
  }

  lemma RankInRange(n: nat, percent: nat)
    requires n > 0 && 1 <= percent <= 100
    ensures 1 <= (n * percent + 99) / 100 <= n
    ensures (n * percent + 99) / 100 * 100 >= n * percent
    ensures ((n * percent + 99) / 100 - 1) * 100 < n * percent
  {
    assert 1 <= n * percent <= n * 100 by { Scaled(n, percent); }
  }

  lemma Scaled(n: nat, percent: nat)
    requires n > 0 && 1 <= percent <= 100
    ensures 1 <= n * percent <= n * 100
  {
  }

  function DistributionOf(values: seq<real>): Option<Distribution> {
    if values == [] || |values| > MAX_SAMPLES || !Nonnegative(values) then None
    else
      var ordered := Sort(values, ASCENDING);
      Some(Distribution(|ordered|, ordered[0], Rank(ordered, 50), Rank(ordered, 95), Rank(ordered, 99),
                        ordered[|ordered| - 1]))
  }

  /** The value at a percentage is the least sample that at least that percentage of the samples do not exceed. */
  lemma NearestRank(values: seq<real>, percent: nat)
    requires values != [] && 1 <= percent <= 100
    ensures var v := Rank(Sort(values, ASCENDING), percent);
            && v in values
            && AtMost(values, v) * 100 >= |values| * percent
            && Below(values, v) * 100 < |values| * percent
  {
    hide Sort, AtMost, Below;
    var ordered := Sort(values, ASCENDING);
    RankInRange(|values|, percent);
    var k := (|values| * percent + 99) / 100 - 1;
    var v := ordered[k];
    SortSorts(values, ASCENDING);
    SameElements(ordered, values);
    assert v in ordered;
    assert forall i :: 0 <= i < k ==> ASCENDING(ordered[i], v);
    assert forall i :: k < i < |ordered| ==> ASCENDING(v, ordered[i]);
    ManyAtMost(ordered, k + 1, v);
    FewBelow(ordered, k, v);
    SortCounts(values, v);
  }

  /** In a sorted list, ranks and ends are in order. */
  lemma RanksOrdered(ordered: seq<real>, p: nat, q: nat)
    requires SortedBy(ordered, ASCENDING) && ordered != [] && 1 <= p <= q <= 100
    ensures ordered[0] <= Rank(ordered, p) <= Rank(ordered, q) <= ordered[|ordered| - 1]
  {
    var n := |ordered|;
    RankInRange(n, p);
    RankInRange(n, q);
    RankGrows(n, p, q);
    InOrder(ordered, 0, (n * p + 99) / 100 - 1);
    InOrder(ordered, (n * p + 99) / 100 - 1, (n * q + 99) / 100 - 1);
    InOrder(ordered, (n * q + 99) / 100 - 1, n - 1);
  }

  lemma RankGrows(n: nat, p: nat, q: nat)
    requires p <= q
    ensures (n * p + 99) / 100 <= (n * q + 99) / 100
  {
    assert n * p <= n * q;
  }

  /** The reported figures are in order. */
  lemma FiguresOrdered(values: seq<real>)
    requires DistributionOf(values).Some?
    ensures var d := DistributionOf(values).value;
            0.0 <= d.min <= d.p50 <= d.p95 <= d.p99 <= d.max && d.count == |values|
    ensures forall i :: 0 <= i < |values| ==>
              DistributionOf(values).value.min <= values[i] <= DistributionOf(values).value.max
  {
    hide Sort, Rank, SortedBy;
    var ordered := Sort(values, ASCENDING);
    SortSorts(values, ASCENDING);
    SameElements(ordered, values);
    RanksOrdered(ordered, 50, 95);
    RanksOrdered(ordered, 95, 99);
    assert ordered[0] in values;
    forall i | 0 <= i < |values| ensures ordered[0] <= values[i] <= ordered[|ordered| - 1] {
      assert values[i] in ordered;
      var k :| 0 <= k < |ordered| && ordered[k] == values[i];
      InOrder(ordered, 0, k);
      InOrder(ordered, k, |ordered| - 1);
    }
  }

  /** `figure` is the least sample that `percent` in a hundred of the samples do not exceed. */
  ghost predicate IsRank(values: seq<real>, figure: real, percent: nat) {
    && figure in values
    && AtMost(values, figure) * 100 >= |values| * percent && Below(values, figure) * 100 < |values| * percent
  }

  /** The reported figures are the median, the ninety-fifth and the ninety-ninth percentile by nearest rank. */
  lemma FiguresRanked(values: seq<real>)
    requires DistributionOf(values).Some?
    ensures var d := DistributionOf(values).value;
            && IsRank(values, d.p50, 50) && IsRank(values, d.p95, 95) && IsRank(values, d.p99, 99)
            && d.min in values && d.max in values
  {
    hide Sort, Rank, AtMost, Below;
    NearestRank(values, 50);
    NearestRank(values, 95);
    NearestRank(values, 99);
    var ordered := Sort(values, ASCENDING);
    SameElements(ordered, values);
    assert ordered[0] in ordered && ordered[|ordered| - 1] in ordered;
  }

  lemma {:induction false} CountsGrow(s: seq<real>, v: real, w: real)
    ensures v <= w ==> AtMost(s, v) <= AtMost(s, w)
    ensures v < w ==> AtMost(s, v) <= Below(s, w)
  {
    if s != [] { CountsGrow(s[1..], v, w); }
  }

  /** A percentile does not exceed a bound exactly when that share of the samples does not. */
  lemma RankWithin(values: seq<real>, figure: real, percent: nat, bound: real)
    requires IsRank(values, figure, percent)
    ensures figure <= bound <==> AtMost(values, bound) * 100 >= |values| * percent
  {
    hide AtMost, Below;
    CountsGrow(values, figure, bound);
    CountsGrow(values, bound, figure);
  }

  // ---------------------------------------------------------------- groups of measured samples

  /** A sample that counts towards a recipe's timings. */
  predicate Counts(s: Sample, request: Request, recipe: int) {
    var id := Identity(s, request);
    id.Some? && id.value.0 == recipe && id.value.1 >= request.warmups
  }

  function ElapsedOf(s: Sample): real { if s.elapsed.Some? then s.elapsed.value else 0.0 }

  function Fields(): set<Quantity> {
    { WorkerElapsed, Seal, Accept, PublicationElapsed,
      VerifiedBefore, StagingSetup, Decoding, Recipe, Metadata, Encoding, VerifiedAfter, Syncing, RenderTotal,
      OriginalHash, PublicationTotal, Hashing, Capturing, Linking, Durability }
  }

  function Phases(): set<Quantity> { Fields() + {Authority(0), Authority(1), Authority(2), Authority(3)} }

  predicate IsPhase(q: Quantity) { q != Elapsed && (q.Authority? ==> q.index < 4) }

  /** Everything but the whole operation is a phase, with four authority intervals. */
  lemma PhasesExact(q: Quantity)
    ensures q in Phases() <==> IsPhase(q)
    ensures q in Fields() <==> IsPhase(q) && !q.Authority?
  {
  }

  predicate Exports(request: Request) { request.phase in {Export, ExportCorrectness} }

  /** Every field is there, nothing is negative, and a fresh export has four authority intervals. */
  predicate SoundTimings(t: Timings) {
    && (forall q :: q in Fields() ==> q in t.fields && t.fields[q] >= 0.0)
    && t.intervals.Some? && |t.intervals.value| == 4 && Nonnegative(t.intervals.value)
  }

  function DurationOf(t: Timings, q: Quantity): (d: real)
    requires SoundTimings(t) && IsPhase(q)
    ensures d >= 0.0
  {
    PhasesExact(q);
    if q.Authority? then t.intervals.value[q.index] else t.fields[q]
  }

  /** What an observation says of a quantity. */
  function ValueOf(s: Sample, q: Quantity): real {
    if q == Elapsed then ElapsedOf(s)
    else if s.timings.Some? && SoundTimings(s.timings.value) && IsPhase(q) then DurationOf(s.timings.value, q)
    else 0.0
  }

  /** The measured values of one recipe among the first `n` observations. */
  function Measured(values: seq<Sample>, request: Request, recipe: int, q: Quantity, n: nat): seq<real>
    requires n <= |values|
  {
    if n == 0 then []
    else
      var front := Measured(values, request, recipe, q, n - 1);
      if Counts(values[n - 1], request, recipe) then front + [ValueOf(values[n - 1], q)] else front
  }

  ghost function MeasuredIds(values: seq<Sample>, request: Request, recipe: int, n: nat): set<Id>
    requires n <= |values|
  {
    if n == 0 then {}
    else
      var front := MeasuredIds(values, request, recipe, n - 1);
      if Counts(values[n - 1], request, recipe) then front + {Identity(values[n - 1], request).value} else front
  }

  lemma {:induction false} MeasuredIdsMember(values: seq<Sample>, request: Request, recipe: int, n: nat, id: Id)
    requires n <= |values|
    ensures id in MeasuredIds(values, request, recipe, n) <==>
            HitBefore(values, request, n, id) && id.0 == recipe && id.1 >= request.warmups
  {
    hide Identity;
    if n > 0 {
      MeasuredIdsMember(values, request, recipe, n - 1, id);
      assert HitBefore(values, request, n, id) <==>
             HitBefore(values, request, n - 1, id) || Identity(values[n - 1], request) == Some(id);
    }
  }

  lemma {:induction false} MeasuredCount(values: seq<Sample>, request: Request, recipe: int, q: Quantity, n: nat)
    requires n <= |values|
    requires forall i, j :: 0 <= i < j < |values| ==> Identity(values[i], request) != Identity(values[j], request)
    ensures |MeasuredIds(values, request, recipe, n)| == |Measured(values, request, recipe, q, n)|
  {
    hide Identity;
    if n > 0 {
      MeasuredCount(values, request, recipe, q, n - 1);
      if Counts(values[n - 1], request, recipe) {
        MeasuredIdsMember(values, request, recipe, n - 1, Identity(values[n - 1], request).value);
      }
    }
  }

  /** The identities a recipe's timings must come from. */
  function Timed(request: Request, recipe: int): set<Id> {
    RecipeRow(recipe, request.warmups + request.repetitions) - RecipeRow(recipe, request.warmups)
  }

  lemma TimedSize(request: Request, recipe: int)
    ensures |Timed(request, recipe)| == request.repetitions
  {
    var all, warm := RecipeRow(recipe, request.warmups + request.repetitions), RecipeRow(recipe, request.warmups);
    RowSize(recipe, request.warmups + request.repetitions);
    RowSize(recipe, request.warmups);
    forall id | id in warm ensures id in all {
      RowMember(recipe, request.warmups, id);
      RowMember(recipe, request.warmups + request.repetitions, id);
    }
    assert all == warm + Timed(request, recipe);
  }

  /** In a covered case every recipe has exactly `repetitions` measured values and no warmup among them. */
  lemma GroupsExact(values: seq<Sample>, request: Request, recipe: int, q: Quantity)
    requires ExpectedIdentities(request).Some? && Bijects(values, request, ExpectedIdentities(request).value)
    requires 0 <= recipe < RecipeCount(request)
    ensures |Measured(values, request, recipe, q, |values|)| == request.repetitions
    ensures MeasuredIds(values, request, recipe, |values|) == Timed(request, recipe)
  {
    hide Identity, ExpectedIdentities, RecipeRow;
    var found := MeasuredIds(values, request, recipe, |values|);
    forall id: Id ensures id in found <==> id in Timed(request, recipe) {
      MeasuredIdsMember(values, request, recipe, |values|, id);
      RowMember(recipe, request.warmups + request.repetitions, id);
      RowMember(recipe, request.warmups, id);
      ExpectedMember(request, id);
      HitIsExpected(values, request, ExpectedIdentities(request).value, id);
    }
    assert found == Timed(request, recipe);
    MeasuredCount(values, request, recipe, q, |values|);
    TimedSize(request, recipe);
  }

  lemma HitIsExpected(values: seq<Sample>, request: Request, expected: set<Id>, id: Id)
    requires Bijects(values, request, expected)
    ensures HitBefore(values, request, |values|, id) <==> id in expected
  {
    hide Identity;
    if id in expected {
      assert Hit(values, request, id);
    }
    if HitBefore(values, request, |values|, id) {
      var i :| 0 <= i < |values| && Identity(values[i], request) == Some(id);
    }
  }

  /** Other recipes have none. */
  lemma {:induction false} NoStrangers(values: seq<Sample>, request: Request, recipe: int, q: Quantity, n: nat)
    requires ExpectedIdentities(request).Some? && n <= |values|
    requires forall i :: 0 <= i < |values| ==>
               && Identity(values[i], request).Some?
               && Identity(values[i], request).value in ExpectedIdentities(request).value
    requires !(0 <= recipe < RecipeCount(request))
    ensures Measured(values, request, recipe, q, n) == []
  {
    hide Identity, ExpectedIdentities;
    if n > 0 {
      NoStrangers(values, request, recipe, q, n - 1);
      ExpectedMember(request, Identity(values[n - 1], request).value);
    }
  }
}
