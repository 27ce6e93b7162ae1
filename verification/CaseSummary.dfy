/** `summarize_case`: one pass over the observations, then one distribution per recipe. */
module CaseSummary {
  import opened Results
  import opened SampleCounts
  import opened SampleLedger
  import opened Timing

  datatype Error = BadCoverage | BadRecord | BadDistribution | WrongMeasuredCount

  /** One recipe's figures: its elapsed time, the phases of an export, and whether the target was met. */
  datatype Configuration = Configuration(recipe: int, elapsed: Distribution, phases: map<Quantity, Distribution>,
                                         target: Option<real>, met: Option<bool>)

  /** The fixed target of a phase, in milliseconds; that of an export depends on its format. */
  function TargetOf(request: Request): Option<real>
    requires request.phase == Export ==> request.outputs != []
  {
    match request.phase
    case Kernel | OverlapImport | OverlapExport => Some(100.0)
    case WarmService => Some(250.0)
    case Full => Some(5000.0)
    case FirstRaw => Some(20000.0)
    case Export =>
      (match request.outputs[0]
       case JpegFile => Some(25000.0)
       case PngFile => Some(40000.0)
       case TiffFile => Some(30000.0))
    case _ => None
  }

  predicate IsWarmup(s: Sample, request: Request) {
    Identity(s, request).Some? && Identity(s, request).value.1 < request.warmups
  }

  /** The record's own claims hold: its warmup flag and, unless refused, its time and those of its phases. */
  predicate Truthful(s: Sample, request: Request) {
    && s.warmup == Some(IsWarmup(s, request))
    && (request.phase != Refusal ==> s.elapsed.Some? && s.elapsed.value >= 0.0)
    && (Exports(request) ==> s.timings.Some? && SoundTimings(s.timings.value))
  }

  predicate WellMade(s: Sample, request: Request) { s.kind == Observation && Truthful(s, request) }

  ghost predicate Summarizable(request: Request, values: seq<Sample>) {
    && ExpectedIdentities(request).Some?
    && Bijects(values, request, ExpectedIdentities(request).value)
    && forall i :: 0 <= i < |values| ==> WellMade(values[i], request)
  }

  /** The values collected for one recipe. */
  datatype Collected = Collected(elapsed: seq<real>, phases: map<Quantity, seq<real>>)

  /** The quantities a case collects besides the elapsed time. */
  function PhasesOf(request: Request): set<Quantity> { if Exports(request) then Phases() else {} }

  function Series(groups: map<int, Collected>, recipe: int, q: Quantity): seq<real> {
    if recipe !in groups then []
    else if q == Elapsed then groups[recipe].elapsed
    else if q in groups[recipe].phases then groups[recipe].phases[q]
    else []
  }

  predicate Collects(request: Request, q: Quantity) { q == Elapsed || q in PhasesOf(request) }

  /** Each group holds its recipe's measured values so far, and no group is empty. */
  ghost predicate Grouped(groups: map<int, Collected>, values: seq<Sample>, request: Request, n: nat)
    requires n <= |values|
  {
    && (forall recipe, q :: Collects(request, q) ==>
          Series(groups, recipe, q) == Measured(values, request, recipe, q, n))
    && (forall recipe :: recipe in groups ==>
          groups[recipe].elapsed != [] && groups[recipe].phases.Keys == PhasesOf(request))
  }

  /** Each detail appended to its own list. */
  function Appended(phases: map<Quantity, seq<real>>, details: map<Quantity, real>): map<Quantity, seq<real>> {
    map q | q in phases.Keys + details.Keys ::
      (if q in phases then phases[q] else []) + (if q in details then [details[q]] else [])
  }

  function Collect(groups: map<int, Collected>, recipe: int, elapsed: real, details: map<Quantity, real>)
    : map<int, Collected>
  {
    var group := if recipe in groups then groups[recipe] else Collected([], map[]);
    groups[recipe := Collected(group.elapsed + [elapsed], Appended(group.phases, details))]
  }

  /** The phase durations of an export; other cases have none. */
  function DetailsOf(s: Sample, request: Request): map<Quantity, real> {
    if Exports(request) then map q | q in Phases() :: ValueOf(s, q) else map[]
  }

  lemma GroupedSkips(groups: map<int, Collected>, values: seq<Sample>, request: Request, n: nat)
    requires n < |values| && Grouped(groups, values, request, n) && IsWarmup(values[n], request)
    ensures Grouped(groups, values, request, n + 1)
  {
    hide Series, ValueOf, Collects, Phases;
    forall recipe, q ensures Measured(values, request, recipe, q, n + 1) == Measured(values, request, recipe, q, n) {}
  }

  lemma SeriesAdds(groups: map<int, Collected>, s: Sample, request: Request, recipe: int, other: int, q: Quantity)
    requires Collects(request, q)
    requires recipe in groups ==> groups[recipe].phases.Keys == PhasesOf(request)
    ensures Series(Collect(groups, recipe, ElapsedOf(s), DetailsOf(s, request)), other, q)
            == if other == recipe then Series(groups, other, q) + [ValueOf(s, q)] else Series(groups, other, q)
  {
    hide ValueOf, Phases;
    ElapsedValue(s);
    NoElapsedPhase(request, q);
  }

  lemma ElapsedValue(s: Sample)
    ensures ValueOf(s, Elapsed) == ElapsedOf(s)
  {
  }

  lemma KeysAdded(groups: map<int, Collected>, s: Sample, request: Request, recipe: int)
    requires recipe in groups ==> groups[recipe].phases.Keys == PhasesOf(request)
    ensures var next := Collect(groups, recipe, ElapsedOf(s), DetailsOf(s, request));
            next[recipe].elapsed != [] && next[recipe].phases.Keys == PhasesOf(request)
  {
    hide ValueOf, Phases;
  }

  lemma GroupedAdds(groups: map<int, Collected>, values: seq<Sample>, request: Request, n: nat, recipe: int)
    requires n < |values| && Grouped(groups, values, request, n)
    requires Identity(values[n], request).Some? && !IsWarmup(values[n], request)
    requires recipe == Identity(values[n], request).value.0
    ensures var next := Collect(groups, recipe, ElapsedOf(values[n]), DetailsOf(values[n], request));
            Grouped(next, values, request, n + 1)
  {
    hide Identity, Series, ValueOf, Collects, Collect, PhasesOf, DetailsOf;
    var s := values[n];
    var next := Collect(groups, recipe, ElapsedOf(s), DetailsOf(s, request));
    forall other, q | Collects(request, q)
      ensures Series(next, other, q) == Measured(values, request, other, q, n + 1)
    {
      SeriesAdds(groups, s, request, recipe, other, q);
      assert Series(groups, other, q) == Measured(values, request, other, q, n);
      assert Counts(s, request, other) <==> other == recipe;
    }
    forall other | other in next ensures next[other].elapsed != [] && next[other].phases.Keys == PhasesOf(request) {
      KeysAdded(groups, s, request, recipe);
      CollectOnly(groups, recipe, ElapsedOf(s), DetailsOf(s, request), other);
    }
  }

  lemma CollectOnly(groups: map<int, Collected>, recipe: int, elapsed: real, details: map<Quantity, real>, other: int)
    ensures var next := Collect(groups, recipe, elapsed, details);
            other in next && other != recipe ==> other in groups && next[other] == groups[other]
  {
  }

  /** The first pass: coverage, classification and grouping, or nothing. */
  method Group(request: Request, values: seq<Sample>) returns (r: Result<map<int, Collected>, Error>)
    ensures r.Ok? <==> Summarizable(request, values)
    ensures r.Ok? && request.phase != Refusal ==> Grouped(r.value, values, request, |values|)
    ensures r.Ok? && request.phase == Refusal ==> r.value == map[]
    ensures r.Err? ==> r.error == BadCoverage || r.error == BadRecord
  {
    hide Identity, Took, Bijects, Grouped, Measured, IsWarmup, Exports, SoundTimings, Collect, PhasesOf, ValueOf,
         DetailsOf, Truthful, Collects, Series, ExpectedIdentities, ElapsedOf;
    var expected := ExpectedIdentities(request);
    if expected.None? { return Err(BadCoverage); }
    if |values| != |expected.value| {
      SizesDiffer(values, request, expected.value);
      return Err(BadCoverage);
    }
    var seen: set<Id>, groups: map<int, Collected>, i := {}, map[], 0;
    TookNone(values, request, expected.value);
    NothingGrouped(values, request);
    while i < |values|
      invariant 0 <= i <= |values| && Took(values, request, i, seen, expected.value)
      invariant forall k :: 0 <= k < i ==> WellMade(values[k], request)
      invariant if request.phase == Refusal then groups == map[] else Grouped(groups, values, request, i)
    {
      var value := values[i];
      var id := Identity(value, request);
      if id.None? || id.value !in expected.value || id.value in seen {
        TookBad(values, request, i, seen, expected.value);
        return Err(BadCoverage);
      }
      TookNext(values, request, i, seen, expected.value);
      seen := seen + {id.value};
      if !WellMade(value, request) { return Err(BadRecord); }
      if request.phase != Refusal {
        if IsWarmup(value, request) {
          GroupedSkips(groups, values, request, i);
        } else {
          GroupedAdds(groups, values, request, i, id.value.0);
          groups := Collect(groups, id.value.0, ElapsedOf(value), DetailsOf(value, request));
        }
      }
      i := i + 1;
    }
    TookAll(values, request, seen, expected.value);
    if seen != expected.value { return Err(BadCoverage); }
    return Ok(groups);
  }

  lemma SizesDiffer(values: seq<Sample>, request: Request, expected: set<Id>)
    requires |values| != |expected|
    ensures !Bijects(values, request, expected)
  {
  }

  lemma NothingGrouped(values: seq<Sample>, request: Request)
    ensures Grouped(map[], values, request, 0)
  {
  }

  /** What every measured value was: a time that is not negative. */
  lemma {:induction false} MeasuredNonnegative(values: seq<Sample>, request: Request, recipe: int, q: Quantity, n: nat)
    requires n <= |values| && request.phase != Refusal && forall i :: 0 <= i < |values| ==> WellMade(values[i], request)
    ensures Nonnegative(Measured(values, request, recipe, q, n))
  {
    hide Counts, IsWarmup, Exports, SoundTimings;
    if n > 0 { MeasuredNonnegative(values, request, recipe, q, n - 1); }
  }

  lemma Distributed(values: seq<real>)
    requires 0 < |values| <= MAX_SAMPLES && Nonnegative(values)
    ensures DistributionOf(values).Some?
  {
  }

  lemma OfRecipe(request: Request, values: seq<Sample>, groups: map<int, Collected>, recipe: int)
    requires Summarizable(request, values) && Grouped(groups, values, request, |values|)
    ensures recipe in groups <==> 0 <= recipe < RecipeCount(request)
  {
    hide Identity, Measured, WellMade, PhasesOf;
    assert Series(groups, recipe, Elapsed) == Measured(values, request, recipe, Elapsed, |values|);
    assert 0 < request.repetitions;
    if 0 <= recipe < RecipeCount(request) {
      GroupsExact(values, request, recipe, Elapsed);
    } else {
      NoStrangers(values, request, recipe, Elapsed, |values|);
    }
  }

  /** Every recipe of a covered case has a distribution of each quantity, over exactly its repetitions. */
  lemma GroupTimed(request: Request, values: seq<Sample>, groups: map<int, Collected>, recipe: int, q: Quantity)
    requires Summarizable(request, values) && request.phase != Refusal && Grouped(groups, values, request, |values|)
    requires Collects(request, q) && 0 <= recipe < RecipeCount(request)
    ensures recipe in groups && groups[recipe].phases.Keys == PhasesOf(request)
    ensures var series := Series(groups, recipe, q);
            && series == Measured(values, request, recipe, q, |values|)
            && DistributionOf(series).Some? && |series| == request.repetitions
  {
    hide Identity, Measured, WellMade, PhasesOf, Series, Collects, DistributionOf, Bijects, RecipeCount;
    OfRecipe(request, values, groups, recipe);
    assert Series(groups, recipe, q) == Measured(values, request, recipe, q, |values|);
    assert 0 < request.repetitions <= 100;
    GroupsExact(values, request, recipe, q);
    MeasuredNonnegative(values, request, recipe, q, |values|);
    Distributed(Measured(values, request, recipe, q, |values|));
  }

  /** One distribution for each list. */
  function Distributions(phases: map<Quantity, seq<real>>): (r: Option<map<Quantity, Distribution>>)
    ensures r.Some? <==> forall q :: q in phases ==> DistributionOf(phases[q]).Some?
    ensures r.Some? ==> r.value.Keys == phases.Keys
    ensures r.Some? ==> forall q :: q in phases ==> DistributionOf(phases[q]) == Some(r.value[q])
  {
    if forall q :: q in phases ==> DistributionOf(phases[q]).Some?
    then Some(map q | q in phases :: DistributionOf(phases[q]).value) else None
  }

  /** What the summary says of one recipe. */
  ghost predicate Summarizes(c: Configuration, recipe: int, values: seq<Sample>, request: Request)
    requires request.phase == Export ==> request.outputs != []
  {
    && c.recipe == recipe && c.elapsed.count == request.repetitions
    && DistributionOf(Measured(values, request, recipe, Elapsed, |values|)) == Some(c.elapsed)
    && c.phases.Keys == PhasesOf(request)
    && (forall q :: q in c.phases ==>
          && DistributionOf(Measured(values, request, recipe, q, |values|)) == Some(c.phases[q])
          && c.phases[q].count == request.repetitions)
    && c.target == TargetOf(request)
    && c.met == if c.target.None? then None else Some(c.elapsed.p95 <= c.target.value)
  }

  /** A target is met exactly when at least ninety-five in a hundred of the measured times keep it. */
  ghost predicate TargetKept(c: Configuration, recipe: int, values: seq<Sample>, request: Request)
    requires request.phase == Export ==> request.outputs != []
  {
    var times, target := Measured(values, request, recipe, Elapsed, |values|), TargetOf(request);
    && |times| == request.repetitions
    && c.met == if target.None? then None else Some(AtMost(times, target.value) * 100 >= 95 * request.repetitions)
  }

  lemma SummaryKeeps(c: Configuration, recipe: int, values: seq<Sample>, request: Request)
    requires (request.phase == Export ==> request.outputs != []) && Summarizes(c, recipe, values, request)
    ensures TargetKept(c, recipe, values, request)
  {
    hide DistributionOf, TargetOf, Measured, AtMost, IsRank;
    var times, target := Measured(values, request, recipe, Elapsed, |values|), TargetOf(request);
    CountIsSize(times);
    FiguresRanked(times);
    if target.Some? { RankWithin(times, c.elapsed.p95, 95, target.value); }
  }

  /** Each reported distribution is that of the measured values of its own quantity, by nearest rank. */
  ghost predicate Ranked(d: Distribution, values: seq<real>) {
    && d.count == |values| && IsRank(values, d.p50, 50) && IsRank(values, d.p95, 95) && IsRank(values, d.p99, 99)
    && d.min in values && d.max in values && forall i :: 0 <= i < |values| ==> d.min <= values[i] <= d.max
  }

  ghost predicate FiguresTold(c: Configuration, recipe: int, values: seq<Sample>, request: Request) {
    && Ranked(c.elapsed, Measured(values, request, recipe, Elapsed, |values|))
    && forall q :: q in c.phases ==> Ranked(c.phases[q], Measured(values, request, recipe, q, |values|))
  }

  lemma DistributionRanked(values: seq<real>)
    requires DistributionOf(values).Some?
    ensures Ranked(DistributionOf(values).value, values)
  {
    hide DistributionOf, IsRank;
    FiguresRanked(values);
    FiguresOrdered(values);
  }

  lemma SummaryRanked(c: Configuration, recipe: int, values: seq<Sample>, request: Request)
    requires (request.phase == Export ==> request.outputs != []) && Summarizes(c, recipe, values, request)
    ensures FiguresTold(c, recipe, values, request)
  {
    hide DistributionOf, TargetOf, Measured, Ranked;
    DistributionRanked(Measured(values, request, recipe, Elapsed, |values|));
    forall q | q in c.phases ensures Ranked(c.phases[q], Measured(values, request, recipe, q, |values|)) {
      DistributionRanked(Measured(values, request, recipe, q, |values|));
    }
  }

  method SummarizeRecipe(request: Request, values: seq<Sample>, groups: map<int, Collected>, recipe: int)
    returns (r: Result<Configuration, Error>)
    requires Summarizable(request, values) && request.phase != Refusal && Grouped(groups, values, request, |values|)
    requires 0 <= recipe < RecipeCount(request) && (request.phase == Export ==> request.outputs != [])
    ensures r.Ok? && Summarizes(r.value, recipe, values, request)
  {
    hide Summarizable, Grouped, Measured, DistributionOf, PhasesOf, TargetOf;
    GroupTimed(request, values, groups, recipe, Elapsed);
    var group := groups[recipe];
    var elapsed := DistributionOf(group.elapsed);
    if elapsed.None? { return Err(BadDistribution); }
    CountIsSize(group.elapsed);
    if elapsed.value.count != request.repetitions { return Err(WrongMeasuredCount); }
    forall q | q in group.phases
      ensures group.phases[q] == Measured(values, request, recipe, q, |values|)
      ensures DistributionOf(group.phases[q]).Some?
              && DistributionOf(group.phases[q]).value.count == request.repetitions
    {
      NoElapsedPhase(request, q);
      GroupTimed(request, values, groups, recipe, q);
      CountIsSize(group.phases[q]);
    }
    var phases := Distributions(group.phases);
    if phases.None? { return Err(BadDistribution); }
    var target := TargetOf(request);
    var met := if target.None? then None else Some(elapsed.value.p95 <= target.value);
    return Ok(Configuration(recipe, elapsed.value, phases.value, target, met));
  }

  lemma NoElapsedPhase(request: Request, q: Quantity)
    ensures q in PhasesOf(request) ==> q != Elapsed
  {
    PhasesExact(q);
  }

  /**
   * Succeeds exactly on a covered, well-made case; the later guards on distributions and on measured counts never
   * fire. Each recipe is summarized by the distributions of its own measured values, and its target is met exactly
   * when their ninety-fifth percentile does not exceed it.
   */
  method SummarizeCase(request: Request, values: seq<Sample>) returns (r: Result<seq<Configuration>, Error>)
    ensures r.Ok? <==> Summarizable(request, values)
    ensures r.Err? ==> r.error != WrongMeasuredCount && r.error != BadDistribution
    ensures r.Ok? ==> request.phase == Export ==> request.outputs != []
    ensures r.Ok? && request.phase == Refusal ==> r.value == []
    ensures r.Ok? && request.phase != Refusal ==>
              |r.value| == RecipeCount(request)
              && forall k :: 0 <= k < |r.value| ==>
                   && Summarizes(r.value[k], k, values, request) && FiguresTold(r.value[k], k, values, request)
                   && TargetKept(r.value[k], k, values, request)
  {
    hide Summarizable, Grouped, Summarizes, FiguresTold, TargetKept, ExpectedIdentities;
    var grouped := Group(request, values);
    if grouped.Err? { return Err(grouped.error); }
    var groups := grouped.value;
    OneOutput(request, values);
    var result: seq<Configuration>, recipe := [], 0;
    if request.phase == Refusal { return Ok([]); }
    while recipe < RecipeCount(request)
      invariant 0 <= recipe <= RecipeCount(request) && |result| == recipe
      invariant forall k :: 0 <= k < recipe ==>
                  && Summarizes(result[k], k, values, request) && FiguresTold(result[k], k, values, request)
                  && TargetKept(result[k], k, values, request)
    {
      var configuration := SummarizeRecipe(request, values, groups, recipe);
      SummaryKeeps(configuration.value, recipe, values, request);
      SummaryRanked(configuration.value, recipe, values, request);
      result := result + [configuration.value];
      recipe := recipe + 1;
    }
    return Ok(result);
  }

  lemma OneOutput(request: Request, values: seq<Sample>)
    requires Summarizable(request, values)
    ensures request.phase == Export ==> request.outputs != []
  {
  }

  lemma CountIsSize(values: seq<real>)
    requires DistributionOf(values).Some?
    ensures DistributionOf(values).value.count == |values|
  {
  }

  // ---------------------------------------------------------------- where a figure comes from

  lemma {:induction false} MeasuredFrom(
    values: seq<Sample>, request: Request, recipe: int, q: Quantity, n: nat, v: real) returns (i: nat)
    requires n <= |values| && v in Measured(values, request, recipe, q, n)
    ensures i < n && Counts(values[i], request, recipe) && v == ValueOf(values[i], q)
  {
    hide Counts, ValueOf;
    if v in Measured(values, request, recipe, q, n - 1) {
      i := MeasuredFrom(values, request, recipe, q, n - 1, v);
    } else {
      i := n - 1;
    }
  }

  /** The time an export observation records under a name, or as its authority interval of that number. */
  predicate Records(s: Sample, q: Quantity, v: real) {
    match q
    case Elapsed => s.elapsed == Some(v)
    case Authority(index) =>
      && s.timings.Some? && s.timings.value.intervals.Some?
      && index < |s.timings.value.intervals.value| && s.timings.value.intervals.value[index] == v
    case _ => s.timings.Some? && q in s.timings.value.fields && s.timings.value.fields[q] == v
  }

  /** Every figure of an export is a time some measured observation records for that very quantity. */
  lemma FigureRecorded(c: Configuration, values: seq<Sample>, request: Request, q: Quantity, v: real)
    returns (i: nat)
    requires Summarizable(request, values) && Exports(request) && FiguresTold(c, 0, values, request)
    requires c.phases.Keys == PhasesOf(request) && (q == Elapsed || q in c.phases)
    requires var d := if q == Elapsed then c.elapsed else c.phases[q];
             v in {d.min, d.p50, d.p95, d.p99, d.max}
    ensures i < |values| && values[i].warmup == Some(false) && Records(values[i], q, v)
  {
    hide Measured, Summarizable, IsRank, Records, Counts, ValueOf, Phases;
    FigureMeasured(c, values, request, q, v);
    i := MeasuredFrom(values, request, 0, q, |values|, v);
    CountedWellMade(values, request, i);
    ValueRecorded(values[i], request, q);
  }

  lemma FigureMeasured(c: Configuration, values: seq<Sample>, request: Request, q: Quantity, v: real)
    requires FiguresTold(c, 0, values, request) && (q == Elapsed || q in c.phases)
    requires var d := if q == Elapsed then c.elapsed else c.phases[q];
             v in {d.min, d.p50, d.p95, d.p99, d.max}
    ensures v in Measured(values, request, 0, q, |values|)
  {
    hide Measured, AtMost, Below;
  }

  lemma CountedWellMade(values: seq<Sample>, request: Request, i: nat)
    requires Summarizable(request, values) && i < |values| && Counts(values[i], request, 0)
    ensures WellMade(values[i], request) && values[i].warmup == Some(false)
  {
    hide Bijects, Identity, ExpectedIdentities, SoundTimings;
  }

  lemma ValueRecorded(s: Sample, request: Request, q: Quantity)
    requires WellMade(s, request) && Exports(request) && (q == Elapsed || q in Phases())
    ensures Records(s, q, ValueOf(s, q))
  {
    hide Phases, Fields, IsWarmup;
    PhasesExact(q);
  }

  /** At least `n` of the times are within `ms` milliseconds. */
  predicate Within(times: seq<real>, ms: real, n: nat) { AtMost(times, ms) >= n }

  /** What it takes to meet the target of each phase, in measured times and milliseconds. */
  lemma TargetsTold(c: Configuration, recipe: int, values: seq<Sample>, request: Request)
    requires Summarizable(request, values) && (request.phase == Export ==> request.outputs != [])
    requires TargetKept(c, recipe, values, request)
    ensures var times := Measured(values, request, recipe, Elapsed, |values|);
            match request.phase
            case Kernel => |times| == 100 && c.met == Some(Within(times, 100.0, 95))
            case WarmService => |times| == 100 && c.met == Some(Within(times, 250.0, 95))
            case OverlapImport => |times| == 100 && c.met == Some(Within(times, 100.0, 95))
            case OverlapExport => |times| == 100 && c.met == Some(Within(times, 100.0, 95))
            case Full => |times| == 20 && c.met == Some(Within(times, 5000.0, 19))
            case FirstRaw => |times| == 20 && c.met == Some(Within(times, 20000.0, 19))
            case Export =>
              && |times| == 20
              && (request.outputs[0] == JpegFile ==> c.met == Some(Within(times, 25000.0, 19)))
              && (request.outputs[0] == PngFile ==> c.met == Some(Within(times, 40000.0, 19)))
              && (request.outputs[0] == TiffFile ==> c.met == Some(Within(times, 30000.0, 19)))
            case _ => |times| == 1 && c.met == None
  {
    hide Measured, AtMost, Bijects;
  }

  /** How many recipes a case of each phase counts, and how many observations of each it holds, warmups included. */
  lemma ObservationsTold(request: Request, values: seq<Sample>) returns (recipes: nat, each: nat)
    requires Summarizable(request, values)
    ensures |values| == recipes * each
    ensures recipes == match request.phase
                       case Kernel => |request.recipes|
                       case Full => |request.recipes|
                       case Correctness => |request.recipes|
                       case Support100mp => |request.recipes|
                       case ProxyReference => |request.recipes|
                       case LargeCancellation => |request.recipes|
                       case _ => 1
    ensures each == match request.phase
                    case Kernel => 102
                    case WarmService => 102
                    case Full => 22
                    case FirstRaw => 22
                    case Export => 22
                    case OverlapImport => 100
                    case OverlapExport => 100
                    case _ => 1
  {
    hide Bijects, WellMade, Grid;
    recipes, each := RecipeCount(request), request.warmups + request.repetitions;
    BijectsSize(values, request, ExpectedIdentities(request).value);
    GridSize(recipes, each);
  }

  lemma BijectsSize(values: seq<Sample>, request: Request, expected: set<Id>)
    requires Bijects(values, request, expected)
    ensures |values| == |expected|
  {
  }

  /** A paired and covered ledger needs nothing more of its observations than truthful claims. */
  lemma LedgerSummarizes(request: Request, records: seq<Sample>)
    requires Paired(records) && ExpectedIdentities(request).Some?
    requires Bijects(EveryOther(records, 1, |records| / 2), request, ExpectedIdentities(request).value)
    requires forall k :: 0 <= k < |records| ==> records[k].kind == Observation ==> Truthful(records[k], request)
    ensures Summarizable(request, EveryOther(records, 1, |records| / 2))
  {
    hide Truthful, Bijects, ExpectedIdentities;
    var values := EveryOther(records, 1, |records| / 2);
    forall k | 0 <= k < |values| ensures WellMade(values[k], request) {
      assert PairAt(records, k);
    }
  }
}
