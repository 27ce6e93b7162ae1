/** The percentile metrics of a frame cohort: the linear percentile of NumPy, and its budget. */
module FrameMetrics {
  import opened Results
  import opened SampleCounts
  import opened Sorting

  // ---------------------------------------------------------------- the linear percentile

  /** The hundredths of a place at which a percentage falls among `n` samples. */
  function Place(n: nat, percent: nat): nat
    requires n > 0
  {
    (n - 1) * percent
  }

  lemma PlaceInside(n: nat, percent: nat)
    requires n > 0 && percent <= 100
    ensures Place(n, percent) <= (n - 1) * 100
    ensures Place(n, percent) / 100 < n && (Place(n, percent) % 100 > 0 ==> Place(n, percent) / 100 + 1 < n)
  {
    if percent < 100 { assert (n - 1) * percent <= (n - 1) * 100; }
  }

  function Between(a: real, b: real, hundredths: nat): real { a + (b - a) * (hundredths as real / 100.0) }

  function Percentile(ordered: seq<real>, percent: nat): real
    requires ordered != [] && percent <= 100
  {
    PlaceInside(|ordered|, percent);
    var place := Place(|ordered|, percent);
    var lower, rest := place / 100, place % 100;
    if rest == 0 then ordered[lower] else Between(ordered[lower], ordered[lower + 1], rest)
  }

  /** The places on either side of a percentage. */
  function Lower(n: nat, percent: nat): (k: nat)
    requires n > 0 && percent <= 100
    ensures k < n
  {
    PlaceInside(n, percent);
    Place(n, percent) / 100
  }

  function Upper(n: nat, percent: nat): (k: nat)
    requires n > 0 && percent <= 100
    ensures Lower(n, percent) <= k < n
  {
    PlaceInside(n, percent);
    if Place(n, percent) % 100 == 0 then Place(n, percent) / 100 else Place(n, percent) / 100 + 1
  }

  lemma BetweenBounds(a: real, b: real, h: nat, k: nat)
    requires a <= b && h <= k <= 100
    ensures a <= Between(a, b, h) <= Between(a, b, k) <= b
  {
    var x, y, d := h as real / 100.0, k as real / 100.0, b - a;
    assert 0.0 <= x <= y <= 1.0;
    assert 0.0 <= d * x;
    assert d * y - d * x == d * (y - x);
    assert d - d * y == d * (1.0 - y);
  }

  /** The percentile lies between the samples on either side of its place. */
  lemma PercentileBounds(ordered: seq<real>, percent: nat)
    requires ordered != [] && percent <= 100 && SortedBy(ordered, ASCENDING)
    ensures ordered[Lower(|ordered|, percent)] <= Percentile(ordered, percent) <= ordered[Upper(|ordered|, percent)]
  {
    hide Between;
    var n := |ordered|;
    PlaceInside(n, percent);
    InOrder(ordered, Lower(n, percent), Upper(n, percent));
    var rest := Place(n, percent) % 100;
    if rest > 0 { BetweenBounds(ordered[Lower(n, percent)], ordered[Upper(n, percent)], rest, rest); }
  }

  lemma PlaceGrows(n: nat, p: nat, q: nat)
    requires n > 0 && p <= q
    ensures Place(n, p) <= Place(n, q)
  {
    assert (n - 1) * q == (n - 1) * p + (n - 1) * (q - p);
  }

  /** From sample `k` to the next, as many hundredths of the way as the percentage is past it. */
  lemma PercentileLinear(ordered: seq<real>, percent: nat, k: nat, hundredths: nat)
    requires ordered != [] && percent <= 100 && hundredths < 100
    requires Place(|ordered|, percent) == 100 * k + hundredths
    ensures k < |ordered| && (hundredths > 0 ==> k + 1 < |ordered|)
    ensures Percentile(ordered, percent)
            == if hundredths == 0 then ordered[k] else Way(ordered[k], ordered[k + 1], hundredths)
  {
    hide Between;
    PlaceInside(|ordered|, percent);
    if hundredths > 0 { BetweenIsWay(ordered[k], ordered[k + 1], hundredths); }
  }

  /** The level that lies `h` hundredths of the way from `a` to `b`. */
  function Way(a: real, b: real, h: nat): real { ((100 - h) as real * a + h as real * b) / 100.0 }

  lemma BetweenIsWay(a: real, b: real, h: nat)
    ensures Between(a, b, h) == Way(a, b, h)
  {
    assert (b - a) * (h as real / 100.0) == (h as real * b - h as real * a) / 100.0;
  }

  /** The level of evenly spaced samples at a hundredth of a place. */
  function EvenLevel(first: real, step: real, place: nat): real { first + step * (place as real) / 100.0 }

  lemma EvenWhole(first: real, step: real, k: nat, a: real)
    requires a == first + step * (k as real)
    ensures EvenLevel(first, step, 100 * k) == a
  {
  }

  lemma EvenWay(first: real, step: real, k: nat, h: nat, a: real, b: real)
    requires a == first + step * (k as real) && b == first + step * ((k + 1) as real)
    ensures Way(a, b, h) == EvenLevel(first, step, 100 * k + h)
  {
    assert b == a + step;
    assert step * ((100 * k + h) as real) == 100.0 * (step * (k as real)) + step * (h as real);
  }

  lemma EvenShare(first: real, step: real, n: nat, percent: nat)
    requires n > 0
    ensures EvenLevel(first, step, Place(n, percent)) == first + step * ((n - 1) as real * percent as real) / 100.0
  {
    assert ((n - 1) * percent) as real == (n - 1) as real * percent as real;
  }

  /** Evenly spaced samples have the percentile at that share of their range. */
  lemma EvenPercentile(ordered: seq<real>, percent: nat, first: real, step: real)
    requires ordered != [] && percent <= 100
    requires forall i :: 0 <= i < |ordered| ==> ordered[i] == first + step * (i as real)
    ensures Percentile(ordered, percent) == first + step * ((|ordered| - 1) as real * percent as real) / 100.0
  {
    hide Percentile, Way, Place, EvenLevel;
    var k, h := Place(|ordered|, percent) / 100, Place(|ordered|, percent) % 100;
    PercentileLinear(ordered, percent, k, h);
    if h == 0 {
      EvenWhole(first, step, k, ordered[k]);
    } else {
      EvenWay(first, step, k, h, ordered[k], ordered[k + 1]);
    }
    EvenShare(first, step, |ordered|, percent);
  }

  /** A larger percentage never has a smaller percentile. */
  lemma PercentileGrows(ordered: seq<real>, p: nat, q: nat)
    requires ordered != [] && p <= q <= 100 && SortedBy(ordered, ASCENDING)
    ensures Percentile(ordered, p) <= Percentile(ordered, q)
  {
    hide Between, Place;
    var n := |ordered|;
    PlaceInside(n, p);
    PlaceInside(n, q);
    PlaceGrows(n, p, q);
    PercentileBounds(ordered, p);
    PercentileBounds(ordered, q);
    var k := Lower(n, p);
    if k == Lower(n, q) {
      if Place(n, q) % 100 > 0 {
        InOrder(ordered, k, k + 1);
        BetweenBounds(ordered[k], ordered[k + 1], Place(n, p) % 100, Place(n, q) % 100);
      }
    } else {
      assert Upper(n, p) <= Lower(n, q);
      InOrder(ordered, Upper(n, p), Lower(n, q));
    }
  }

  /** The order in which the samples are listed does not matter. */
  lemma PercentileOrderless(a: seq<real>, b: seq<real>, percent: nat)
    requires multiset(a) == multiset(b) && a != [] && percent <= 100
    ensures b != [] && Percentile(Sort(a, ASCENDING), percent) == Percentile(Sort(b, ASCENDING), percent)
  {
    hide Percentile;
    SortSorts(a, ASCENDING);
    SortSorts(b, ASCENDING);
    SortedUnique(Sort(a, ASCENDING), Sort(b, ASCENDING), ASCENDING);
    assert |multiset(a)| == |a| && |multiset(b)| == |b|;
  }

  // ---------------------------------------------------------------- the metrics

  datatype Metrics = Metrics(count: nat, p95: real, p99: real, max: real, overBudget: nat, passes: bool)

  function Largest(values: seq<real>): (m: real)
    requires values != []
    ensures m in values && forall i :: 0 <= i < |values| ==> values[i] <= m
  {
    if |values| == 1 then values[0]
    else
      var m := Largest(values[..|values| - 1]);
      assert forall i :: 0 <= i < |values| - 1 ==> values[i] == values[..|values| - 1][i];
      if values[|values| - 1] > m then values[|values| - 1] else m
  }

  ghost predicate MetricsOf(m: Metrics, values: seq<real>, budget: real) {
    && values != []
    && m.count == |values|
    && m.p95 == Percentile(Sort(values, ASCENDING), 95) && m.p99 == Percentile(Sort(values, ASCENDING), 99)
    && m.max == Largest(values)
    && m.overBudget == |values| - AtMost(values, budget)
    && m.passes == (m.p95 <= budget)
  }

  method CountOver(values: seq<real>, budget: real) returns (over: nat)
    ensures over == |values| - AtMost(values, budget)
  {
    over := 0;
    var k := |values|;
    while k > 0
      invariant 0 <= k <= |values| && over == |values| - k - AtMost(values[k..], budget)
    {
      k := k - 1;
      assert values[k..][1..] == values[k + 1..];
      if values[k] > budget { over := over + 1; }
    }
    assert values[0..] == values;
  }

  method PercentileMetrics(values: seq<real>, budget: real) returns (r: Option<Metrics>)
    ensures r.Some? <==> values != [] && Nonnegative(values)
    ensures r.Some? ==> MetricsOf(r.value, values, budget)
  {
    if values == [] || !Nonnegative(values) { return None; }
    var ordered := Sort(values, ASCENDING);
    var over := CountOver(values, budget);
    var p95 := Percentile(ordered, 95);
    return Some(Metrics(|values|, p95, Percentile(ordered, 99), Largest(values), over, p95 <= budget));
  }

  /** The figures are in order and bounded by the samples. */
  lemma MetricsOrdered(m: Metrics, values: seq<real>, budget: real)
    requires MetricsOf(m, values, budget)
    ensures m.p95 <= m.p99 <= m.max && m.max in values && forall i :: 0 <= i < |values| ==> values[i] <= m.max
  {
    hide Percentile;
    var ordered := Sort(values, ASCENDING);
    SortSorts(values, ASCENDING);
    PercentileGrows(ordered, 95, 99);
    PercentileBounds(ordered, 99);
    SameElements(ordered, values);
    assert ordered[Upper(|ordered|, 99)] in values;
  }

  /** The level at a percentage: that of the sample there, or so many hundredths of the way from one to the next. */
  function LevelAt(ordered: seq<real>, percent: nat): real
    requires ordered != [] && percent <= 100
  {
    PlaceInside(|ordered|, percent);
    var k, h := (|ordered| - 1) * percent / 100, (|ordered| - 1) * percent % 100;
    if h == 0 then ordered[k] else Way(ordered[k], ordered[k + 1], h)
  }

  /** The figures are the levels at their percentages; the budget is met exactly when the first is within it. */
  ghost predicate Interpolated(m: Metrics, values: seq<real>, budget: real) {
    && values != []
    && m.p95 == LevelAt(Sort(values, ASCENDING), 95) && m.p99 == LevelAt(Sort(values, ASCENDING), 99)
    && (m.passes <==> LevelAt(Sort(values, ASCENDING), 95) <= budget)
  }

  lemma MetricsInterpolated(m: Metrics, values: seq<real>, budget: real)
    requires MetricsOf(m, values, budget)
    ensures Interpolated(m, values, budget)
  {
    hide Percentile, Way, LevelAt;
    LevelIsPercentile(Sort(values, ASCENDING), 95);
    LevelIsPercentile(Sort(values, ASCENDING), 99);
  }

  lemma LevelIsPercentile(ordered: seq<real>, percent: nat)
    requires ordered != [] && percent <= 100
    ensures LevelAt(ordered, percent) == Percentile(ordered, percent)
  {
    hide Percentile, Way;
    var place := (|ordered| - 1) * percent;
    PercentileLinear(ordered, percent, place / 100, place % 100);
  }

  /**
   A met budget leaves no more samples over it than stand above the percentile's place, and it is met
   whenever no more are over it than stand above the place after it.
   */
  lemma BudgetMeans(m: Metrics, values: seq<real>, budget: real)
    requires MetricsOf(m, values, budget)
    ensures m.passes ==> m.overBudget < |values| - Lower(|values|, 95)
    ensures m.overBudget < |values| - Upper(|values|, 95) ==> m.passes
    ensures Place(|values|, 95) % 100 == 0 ==> (m.passes <==> m.overBudget < |values| - Lower(|values|, 95))
  {
    hide Percentile, AtMost;
    var ordered, n := Sort(values, ASCENDING), |values|;
    SortSorts(values, ASCENDING);
    SortCounts(values, budget);
    PercentileBounds(ordered, 95);
    SortedAtMost(ordered, Lower(n, 95), budget);
    SortedAtMost(ordered, Upper(n, 95), budget);
  }

  /** So a cohort within its budget has at most five in a hundred of its other frames over it. */
  lemma PassingShare(m: Metrics, values: seq<real>, budget: real)
    requires MetricsOf(m, values, budget) && m.passes
    ensures m.overBudget * 100 <= (|values| - 1) * 5 + 99
  {
    BudgetMeans(m, values, budget);
    PlaceInside(|values|, 95);
  }
}
