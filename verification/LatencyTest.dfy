/** The latency test of the overlap evaluators: the linear 95th percentile against a hundred milliseconds. */
module LatencyTest {
  import opened FrameMetrics
  import opened SampleCounts
  import opened Sorting

  function Milliseconds(us: seq<int>): (ms: seq<real>)
    ensures |ms| == |us|
  {
    seq(|us|, i requires 0 <= i < |us| => us[i] as real / 1000.0)
  }

  /** The test on latencies in microseconds. */
  predicate Met(us: seq<int>) {
    us != [] && Percentile(Sort(Milliseconds(us), ASCENDING), 95) <= 100.0
  }

  /** How many latencies exceed a hundred milliseconds. */
  function Slow(us: seq<int>): nat {
    if us == [] then 0 else (if us[0] > 100_000 then 1 else 0) + Slow(us[1..])
  }

  lemma {:induction false} SlowCounted(us: seq<int>)
    ensures AtMost(Milliseconds(us), 100.0) + Slow(us) == |us|
  {
    if us != [] {
      SlowCounted(us[1..]);
      assert Milliseconds(us)[1..] == Milliseconds(us[1..]);
    }
  }

  /** Of a hundred latencies the test weighs the ninety-fifth and the ninety-sixth, nineteen to one. */
  lemma HundredWeighed(us: seq<int>)
    requires |us| == 100
    ensures var ordered := Sort(Milliseconds(us), ASCENDING);
            |ordered| == 100 && (Met(us) <==> 19.0 * ordered[94] + ordered[95] <= 2000.0)
  {
    hide Percentile;
    var ordered := Sort(Milliseconds(us), ASCENDING);
    SortSorts(Milliseconds(us), ASCENDING);
    PercentileLinear(ordered, 95, 94, 5);
  }

  /** It passes with at most four slow ones and fails with more than five. */
  lemma HundredMet(us: seq<int>)
    requires |us| == 100
    ensures Slow(us) <= 4 ==> Met(us)
    ensures Met(us) ==> Slow(us) <= 5
  {
    hide Percentile, AtMost, Slow;
    var ms := Milliseconds(us);
    var ordered := Sort(ms, ASCENDING);
    HundredWeighed(us);
    SlowCounted(us);
    SortSorts(ms, ASCENDING);
    SortCounts(ms, 100.0);
    SortedAtMost(ordered, 94, 100.0);
    SortedAtMost(ordered, 95, 100.0);
    InOrder(ordered, 94, 95);
  }
}
