/** The attempt/observation ledger of a campaign case, and its exact coverage of recipes and iterations. */
module SampleLedger {
  import opened Results
  import opened Sequences

  /** A decoded field: absent, an integer, or a value of another type. */
  datatype Field = Missing | Int(n: int) | Foreign(text: string)

  datatype Kind = Attempt | Observation | OtherKind

  /** What an observation may time: the whole operation, and the phases of an export. */
  datatype Quantity =
    | Elapsed
    | WorkerElapsed | Seal | Accept | PublicationElapsed
    | VerifiedBefore | StagingSetup | Decoding | Recipe | Metadata | Encoding | VerifiedAfter | Syncing | RenderTotal
    | OriginalHash | PublicationTotal
    | Hashing | Capturing | Linking | Durability
    | Authority(index: nat)

  /** The phases of an export as recorded, with its authority intervals if they are a list. */
  datatype Timings = Timings(fields: map<Quantity, real>, intervals: Option<seq<real>>)

  datatype Sample = Sample(kind: Kind, recipe: Field, iteration: Field, warmup: Option<bool>, elapsed: Option<real>,
                           timings: Option<Timings>)

  // ---------------------------------------------------------------- pairing

  /** `(value.get('recipe_index', 0), value.get('iteration'))` */
  function Claimed(s: Sample): (Field, Field) { (if s.recipe == Missing then Int(0) else s.recipe, s.iteration) }

  /** Attempts and observations alternate, and each observation repeats its attempt's identity. */
  predicate Paired(records: seq<Sample>) {
    && |records| % 2 == 0
    && forall k :: 0 <= k < |records| / 2 ==> PairAt(records, k)
  }

  predicate PairAt(records: seq<Sample>, k: nat)
    requires 2 * k + 1 < |records|
  {
    && records[2 * k].kind == Attempt && records[2 * k + 1].kind == Observation
    && Claimed(records[2 * k]) == Claimed(records[2 * k + 1])
  }

  /** Every other record, from the first or from the second. */
  function EveryOther(records: seq<Sample>, first: nat, n: nat): (r: seq<Sample>)
    requires first <= 1 && (n == 0 || 2 * (n - 1) + first < |records|)
    ensures |r| == n && forall k :: 0 <= k < n ==> r[k] == records[2 * k + first]
  {
    if n == 0 then [] else EveryOther(records, first, n - 1) + [records[2 * (n - 1) + first]]
  }

  datatype Ledger = Ledger(attempts: seq<Sample>, values: seq<Sample>)

  /** The reader's walk with one pending attempt. */
  method Observations(records: seq<Sample>) returns (r: Option<Ledger>)
    ensures r.Some? <==> Paired(records)
    ensures r.Some? ==> r.value.attempts == EveryOther(records, 0, |records| / 2)
    ensures r.Some? ==> r.value.values == EveryOther(records, 1, |records| / 2)
  {
    hide Claimed;
    var attempts: seq<Sample>, values: seq<Sample> := [], [];
    var pending: Option<(Field, Field)>, i := None, 0;
    ghost var k := 0;
    while i < |records|
      invariant i <= |records| && i == 2 * k + if pending.Some? then 1 else 0
      invariant pending.Some? ==> records[2 * k].kind == Attempt && pending.value == Claimed(records[2 * k])
      invariant attempts == EveryOther(records, 0, if pending.Some? then k + 1 else k)
                && values == EveryOther(records, 1, k)
      invariant forall m :: 0 <= m < k ==> PairAt(records, m)
    {
      var value := records[i];
      if value.kind == Attempt && pending.None? {
        pending := Some(Claimed(value));
        attempts := attempts + [value];
      } else if value.kind == Observation && pending.Some? {
        if pending.value != Claimed(value) {
          assert !PairAt(records, k);
          NotPaired(records, k);
          return None;
        }
        assert PairAt(records, k);
        values := values + [value];
        pending, k := None, k + 1;
      } else {
        Unpaired(records, i);
        return None;
      }
      i := i + 1;
    }
    if pending.Some? { return None; }
    return Some(Ledger(attempts, values));
  }

  lemma NotPaired(records: seq<Sample>, k: nat)
    requires 2 * k + 1 < |records| && !PairAt(records, k)
    ensures !Paired(records)
  {
    assert k < |records| / 2;
  }

  /** A record out of turn spoils the pairing. */
  lemma Unpaired(records: seq<Sample>, i: nat)
    requires i < |records| && records[i].kind != if i % 2 == 0 then Attempt else Observation
    ensures !Paired(records)
  {
    assert 2 * (i / 2) == i || 2 * (i / 2) + 1 == i;
    if |records| % 2 == 0 {
      assert !PairAt(records, i / 2);
    }
  }

  // ---------------------------------------------------------------- the identities a case must have

  datatype Phase =
    | Kernel | WarmService | Full | FirstRaw | Export | OverlapImport | OverlapExport
    | Correctness | Support100mp | Refusal | ProxyReference | ExportCorrectness | LargeCancellation
    | UnknownPhase

  datatype Format = JpegFile | PngFile | TiffFile

  datatype Request = Request(phase: Phase, warmups: nat, repetitions: nat, recipes: seq<string>, outputs: seq<Format>)

  function FixedCounts(phase: Phase): Option<(nat, nat)> {
    match phase
    case Kernel | WarmService => Some((2, 100))
    case Full | FirstRaw | Export => Some((2, 20))
    case OverlapImport | OverlapExport => Some((0, 100))
    case UnknownPhase => None
    case _ => Some((0, 1))
  }

  predicate PixelPhase(phase: Phase) {
    phase in {Correctness, Kernel, Full, Support100mp, ProxyReference, LargeCancellation}
  }

  type Id = (int, int)

  function RecipeRow(recipe: int, n: nat): set<Id> {
    if n == 0 then {} else RecipeRow(recipe, n - 1) + {(recipe, n - 1)}
  }

  function Grid(recipes: nat, n: nat): set<Id> {
    if recipes == 0 then {} else Grid(recipes - 1, n) + RecipeRow(recipes - 1, n)
  }

  function RecipeCount(request: Request): nat { if PixelPhase(request.phase) then |request.recipes| else 1 }

  function ExpectedIdentities(request: Request): Option<set<Id>> {
    var recipes := request.recipes;
    if FixedCounts(request.phase) != Some((request.warmups, request.repetitions)) then None
    else if !(1 <= |recipes| <= 32) then None
    else if request.phase in {WarmService, FirstRaw} && (|recipes| != 2 || recipes[0] == recipes[1]) then None
    else if request.phase in {Export, ExportCorrectness} && (|recipes| != 1 || |request.outputs| != 1) then None
    else Some(Grid(RecipeCount(request), request.warmups + request.repetitions))
  }

  lemma {:induction false} RowMember(recipe: int, n: nat, id: Id)
    ensures id in RecipeRow(recipe, n) <==> id.0 == recipe && 0 <= id.1 < n
  {
    if n > 0 { RowMember(recipe, n - 1, id); }
  }

  lemma {:induction false} RowSize(recipe: int, n: nat)
    ensures |RecipeRow(recipe, n)| == n
  {
    if n > 0 {
      RowSize(recipe, n - 1);
      RowMember(recipe, n - 1, (recipe, n - 1));
    }
  }

  /** The grid is the Cartesian product. */
  lemma {:induction false} GridMember(recipes: nat, n: nat, id: Id)
    ensures id in Grid(recipes, n) <==> 0 <= id.0 < recipes && 0 <= id.1 < n
  {
    if recipes > 0 {
      GridMember(recipes - 1, n, id);
      RowMember(recipes - 1, n, id);
    }
  }

  lemma {:induction false} GridSize(recipes: nat, n: nat)
    ensures |Grid(recipes, n)| == recipes * n
  {
    hide RecipeRow;
    if recipes > 0 {
      GridSize(recipes - 1, n);
      RowSize(recipes - 1, n);
      RowIsNew(recipes - 1, n);
      DisjointSizes(Grid(recipes - 1, n), RecipeRow(recipes - 1, n));
      OneMore(recipes, n);
    }
  }

  lemma RowIsNew(recipes: nat, n: nat)
    ensures Grid(recipes, n) !! RecipeRow(recipes, n)
  {
    hide Grid, RecipeRow;
    forall id | id in Grid(recipes, n) ensures id !in RecipeRow(recipes, n) {
      GridMember(recipes, n, id);
      RowMember(recipes, n, id);
    }
  }

  lemma DisjointSizes<T>(a: set<T>, b: set<T>)
    requires a !! b
    ensures |a + b| == |a| + |b|
  {
  }

  lemma OneMore(recipes: nat, n: nat)
    requires recipes > 0
    ensures (recipes - 1) * n + n == recipes * n
  {
  }

  /** `sample_identity`: integers only, and an explicit recipe where pixels are compared. */
  function Identity(s: Sample, request: Request): Option<Id> {
    if !s.iteration.Int? || s.recipe.Foreign? then None
    else if PixelPhase(request.phase) && s.recipe == Missing then None
    else Some((Claimed(s).0.n, s.iteration.n))
  }

  // ---------------------------------------------------------------- coverage

  /** One record for each expected identity, and nothing else. */
  ghost predicate Bijects(records: seq<Sample>, request: Request, expected: set<Id>) {
    && |records| == |expected|
    && (forall i :: 0 <= i < |records| ==>
          Identity(records[i], request).Some? && Identity(records[i], request).value in expected)
    && (forall i, j :: 0 <= i < j < |records| ==> Identity(records[i], request) != Identity(records[j], request))
    && (forall id :: id in expected ==> Hit(records, request, id))
  }

  predicate Hit(records: seq<Sample>, request: Request, id: Id) {
    exists i :: 0 <= i < |records| && Identity(records[i], request) == Some(id)
  }

  /** After `i` records, `seen` holds their identities, all expected and none twice. */
  ghost predicate Took(records: seq<Sample>, request: Request, i: nat, seen: set<Id>, expected: set<Id>)
    requires i <= |records|
  {
    && |seen| == i && seen <= expected
    && (forall k :: 0 <= k < i ==> Identity(records[k], request).Some? && Identity(records[k], request).value in seen)
    && (forall j, k :: 0 <= j < k < i ==> Identity(records[j], request) != Identity(records[k], request))
    && (forall id :: id in seen ==> HitBefore(records, request, i, id))
  }

  predicate HitBefore(records: seq<Sample>, request: Request, n: nat, id: Id)
    requires n <= |records|
  {
    exists i :: 0 <= i < n && Identity(records[i], request) == Some(id)
  }

  /** The loop over one list; with equal counts the final comparison of sets cannot fail. */
  method CoverList(records: seq<Sample>, request: Request, expected: set<Id>) returns (ok: bool)
    requires |records| == |expected|
    ensures ok <==> Bijects(records, request, expected)
  {
    hide Identity, Took, HitBefore, Bijects;
    var seen: set<Id>, i := {}, 0;
    TookNone(records, request, expected);
    while i < |records|
      invariant 0 <= i <= |records| && Took(records, request, i, seen, expected)
    {
      var key := Identity(records[i], request);
      if key.None? || key.value !in expected || key.value in seen {
        TookBad(records, request, i, seen, expected);
        return false;
      }
      TookNext(records, request, i, seen, expected);
      seen := seen + {key.value};
      i := i + 1;
    }
    TookAll(records, request, seen, expected);
    if seen != expected { return false; }
    return true;
  }

  lemma TookNone(records: seq<Sample>, request: Request, expected: set<Id>)
    ensures Took(records, request, 0, {}, expected)
  {
  }

  lemma TookNext(records: seq<Sample>, request: Request, i: nat, seen: set<Id>, expected: set<Id>)
    requires i < |records| && Took(records, request, i, seen, expected)
    requires var id := Identity(records[i], request); id.Some? && id.value in expected && id.value !in seen
    ensures Took(records, request, i + 1, seen + {Identity(records[i], request).value}, expected)
  {
    hide Identity;
    var next := seen + {Identity(records[i], request).value};
    forall id | id in next ensures HitBefore(records, request, i + 1, id) {
      if id in seen {
        var k :| 0 <= k < i && Identity(records[k], request) == Some(id);
      } else {
        assert Identity(records[i], request) == Some(id);
      }
    }
  }

  lemma TookBad(records: seq<Sample>, request: Request, i: nat, seen: set<Id>, expected: set<Id>)
    requires i < |records| && Took(records, request, i, seen, expected)
    requires var id := Identity(records[i], request); id.Some? && id.value in expected ==> id.value in seen
    ensures !Bijects(records, request, expected)
  {
    hide Identity;
    var id := Identity(records[i], request);
    if id.Some? && id.value in expected {
      assert HitBefore(records, request, i, id.value);
      var k :| 0 <= k < i && Identity(records[k], request) == id;
    }
  }

  lemma TookAll(records: seq<Sample>, request: Request, seen: set<Id>, expected: set<Id>)
    requires |records| == |expected| && Took(records, request, |records|, seen, expected)
    ensures seen == expected && Bijects(records, request, expected)
  {
    hide Identity;
    SameSize(seen, expected);
    forall id | id in expected ensures Hit(records, request, id) {
      assert HitBefore(records, request, |records|, id);
      var k :| 0 <= k < |records| && Identity(records[k], request) == Some(id);
    }
  }

  predicate SameIdentities(attempts: seq<Sample>, values: seq<Sample>) {
    |attempts| == |values| && forall i :: 0 <= i < |attempts| ==> Claimed(attempts[i]) == Claimed(values[i])
  }

  /** Both lists must biject with recipes times iterations, in the same order. */
  method SampleCoverage(request: Request, attempts: seq<Sample>, values: seq<Sample>) returns (ok: bool)
    ensures ok <==>
            && ExpectedIdentities(request).Some?
            && Bijects(attempts, request, ExpectedIdentities(request).value)
            && Bijects(values, request, ExpectedIdentities(request).value)
            && SameIdentities(attempts, values)
  {
    var expected := ExpectedIdentities(request);
    if expected.None? { return false; }
    ExpectedNonempty(request);
    if expected.value == {} || |attempts| != |expected.value| || |values| != |expected.value| { return false; }
    var first := CoverList(attempts, request, expected.value);
    if !first { return false; }
    var second := CoverList(values, request, expected.value);
    if !second { return false; }
    return SameIdentities(attempts, values);
  }

  lemma ExpectedMember(request: Request, id: Id)
    requires ExpectedIdentities(request).Some?
    ensures id in ExpectedIdentities(request).value <==>
            0 <= id.0 < RecipeCount(request) && 0 <= id.1 < request.warmups + request.repetitions
  {
    hide Grid;
    GridMember(RecipeCount(request), request.warmups + request.repetitions, id);
  }

  lemma ExpectedNonempty(request: Request)
    requires ExpectedIdentities(request).Some?
    ensures ExpectedIdentities(request).value != {}
  {
    ExpectedMember(request, (0, 0));
  }

  /** In a paired ledger the two lists always agree, so the last comparison only repeats the pairing. */
  lemma PairedAgree(records: seq<Sample>)
    requires Paired(records)
    ensures SameIdentities(EveryOther(records, 0, |records| / 2), EveryOther(records, 1, |records| / 2))
  {
    var n := |records| / 2;
    forall k | 0 <= k < n ensures Claimed(EveryOther(records, 0, n)[k]) == Claimed(EveryOther(records, 1, n)[k]) {
      assert PairAt(records, k);
    }
  }
}
