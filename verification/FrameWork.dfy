/**
 Instrumented work per rendering frame. Instants are integer ticks of the trace clock, and an
 interval stands for the ticks `start <= k < end`, so work is measured by counting covered ticks.
 */
module FrameWork {
  import opened Results
  import opened Sorting

  datatype Interval = Interval(start: int, end: int)

  // ---------------------------------------------------------------- measure of a union

  ghost predicate Covered(ivs: seq<Interval>, k: int) {
    exists i :: 0 <= i < |ivs| && ivs[i].start <= k < ivs[i].end
  }

  /** The number of ticks in `lo <= k < hi` that lie in at least one interval. */
  ghost function Measure(ivs: seq<Interval>, lo: int, hi: int): nat
    decreases hi - lo
  {
    if hi <= lo then 0 else Measure(ivs, lo, hi - 1) + if Covered(ivs, hi - 1) then 1 else 0
  }

  /** `Measure` is the cardinality of the covered part of the window. */
  lemma {:induction false} MeasureIsCardinality(ivs: seq<Interval>, lo: int, hi: int)
    ensures Measure(ivs, lo, hi) == |set k | lo <= k < hi && Covered(ivs, k)|
    decreases hi - lo
  {
    var all := set k | lo <= k < hi && Covered(ivs, k);
    if hi <= lo {
      assert all == {};
    } else {
      MeasureIsCardinality(ivs, lo, hi - 1);
      var smaller := set k | lo <= k < hi - 1 && Covered(ivs, k);
      assert all == smaller + if Covered(ivs, hi - 1) then {hi - 1} else {};
    }
  }

  /** Work in adjacent windows adds up. */
  lemma {:induction false} MeasureAdditive(ivs: seq<Interval>, lo: int, mid: int, hi: int)
    requires lo <= mid <= hi
    ensures Measure(ivs, lo, hi) == Measure(ivs, lo, mid) + Measure(ivs, mid, hi)
    decreases hi - mid
  {
    if mid < hi {
      MeasureAdditive(ivs, lo, mid, hi - 1);
    }
  }

  /** More coverage is never less work, and work never exceeds the window. */
  lemma {:induction false} MeasureMonotone(a: seq<Interval>, b: seq<Interval>, lo: int, hi: int)
    requires forall k :: lo <= k < hi && Covered(a, k) ==> Covered(b, k)
    ensures Measure(a, lo, hi) <= Measure(b, lo, hi)
    ensures lo <= hi ==> Measure(b, lo, hi) <= hi - lo
    decreases hi - lo
  {
    if lo < hi {
      MeasureMonotone(a, b, lo, hi - 1);
    }
  }

  lemma MeasureEqual(a: seq<Interval>, b: seq<Interval>, lo: int, hi: int)
    requires forall k :: lo <= k < hi ==> (Covered(a, k) <==> Covered(b, k))
    ensures Measure(a, lo, hi) == Measure(b, lo, hi)
  {
    MeasureMonotone(a, b, lo, hi);
    MeasureMonotone(b, a, lo, hi);
  }

  lemma {:induction false} MeasureBlank(ivs: seq<Interval>, lo: int, hi: int)
    requires forall k :: lo <= k < hi ==> !Covered(ivs, k)
    ensures Measure(ivs, lo, hi) == 0
    decreases hi - lo
  {
    if lo < hi { MeasureBlank(ivs, lo, hi - 1); }
  }

  lemma {:induction false} MeasureSolid(ivs: seq<Interval>, lo: int, hi: int)
    requires lo <= hi
    requires forall k :: lo <= k < hi ==> Covered(ivs, k)
    ensures Measure(ivs, lo, hi) == hi - lo
    decreases hi - lo
  {
    if lo < hi { MeasureSolid(ivs, lo, hi - 1); }
  }

  lemma CoveredPermutation(a: seq<Interval>, b: seq<Interval>, k: int)
    requires multiset(a) == multiset(b)
    ensures Covered(a, k) <==> Covered(b, k)
  {
    SameElements(a, b);
    if Covered(a, k) {
      var i :| 0 <= i < |a| && a[i].start <= k < a[i].end;
      assert a[i] in b;
    }
    if Covered(b, k) {
      var i :| 0 <= i < |b| && b[i].start <= k < b[i].end;
      assert b[i] in a;
    }
  }

  lemma CoveredSnoc(ivs: seq<Interval>, i: nat, k: int)
    requires i < |ivs|
    ensures Covered(ivs[..i + 1], k) <==> Covered(ivs[..i], k) || ivs[i].start <= k < ivs[i].end
  {
    var more, fewer := ivs[..i + 1], ivs[..i];
    if Covered(fewer, k) {
      var j :| 0 <= j < |fewer| && fewer[j].start <= k < fewer[j].end;
      assert more[j] == fewer[j];
    }
    if Covered(more, k) {
      var j :| 0 <= j < |more| && more[j].start <= k < more[j].end;
      assert j < i ==> fewer[j] == more[j];
    }
    assert more[i] == ivs[i];
  }

  /** The measured work does not depend on the order in which the records arrive. */
  lemma MeasurePermutation(a: seq<Interval>, b: seq<Interval>, lo: int, hi: int)
    requires multiset(a) == multiset(b)
    ensures Measure(a, lo, hi) == Measure(b, lo, hi)
  {
    forall k | lo <= k < hi ensures Covered(a, k) <==> Covered(b, k) { CoveredPermutation(a, b, k); }
    MeasureEqual(a, b, lo, hi);
  }

  // ---------------------------------------------------------------- union_length

  function Intersect(interval: Interval, window: Interval): Option<Interval> {
    var start := if interval.start >= window.start then interval.start else window.start;
    var end := if interval.end <= window.end then interval.end else window.end;
    if end > start then Some(Interval(start, end)) else None
  }

  predicate LexLe(a: Interval, b: Interval) {
    a.start < b.start || (a.start == b.start && a.end <= b.end)
  }

  method Clip(intervals: seq<Interval>, window: Interval) returns (clipped: seq<Interval>)
    ensures forall c :: c in clipped ==> window.start <= c.start < c.end <= window.end
    ensures forall k :: window.start <= k < window.end ==> (Covered(clipped, k) <==> Covered(intervals, k))
  {
    clipped := [];
    for i := 0 to |intervals|
      invariant forall c :: c in clipped ==> window.start <= c.start < c.end <= window.end
      invariant forall k :: window.start <= k < window.end ==> (Covered(clipped, k) <==> Covered(intervals[..i], k))
    {
      ghost var was := clipped;
      var value := Intersect(intervals[i], window);
      if value.Some? {
        clipped := clipped + [value.value];
      }
      forall k | window.start <= k < window.end
        ensures Covered(clipped, k) <==> Covered(intervals[..i + 1], k)
      {
        CoveredSnoc(intervals, i, k);
        if value.Some? {
          assert clipped[..|was|] == was && clipped[..|was| + 1] == clipped;
          CoveredSnoc(clipped, |was|, k);
        }
      }
    }
    assert intervals[..|intervals|] == intervals;
  }

  /**
   The sort-and-sweep of the source. `done` is the sorted prefix already swept: its covered ticks
   below `start` are in `total`, and `[start, end)` is one solid covered block with nothing above.
   */
  ghost predicate Swept(done: seq<Interval>, lo: int, total: int, start: int, end: int) {
    && lo <= start <= end
    && total == Measure(done, lo, start)
    && (forall k :: start <= k < end ==> Covered(done, k))
    && (forall k :: end <= k ==> !Covered(done, k))
  }

  lemma SweptTotal(done: seq<Interval>, lo: int, total: int, start: int, end: int, hi: int)
    requires Swept(done, lo, total, start, end) && end <= hi
    ensures Measure(done, lo, hi) == total + end - start
  {
    MeasureSolid(done, start, end);
    MeasureBlank(done, end, hi);
    MeasureAdditive(done, lo, start, hi);
    MeasureAdditive(done, start, end, hi);
  }

  lemma SweepStep(all: seq<Interval>, i: nat, lo: int, total: int, start: int, end: int)
    requires i < |all| && Swept(all[..i], lo, total, start, end)
    requires start <= all[i].start <= all[i].end
    ensures all[i].start <= end ==>
              Swept(all[..i + 1], lo, total, start, if end >= all[i].end then end else all[i].end)
    ensures all[i].start > end ==>
              Swept(all[..i + 1], lo, total + end - start, all[i].start, all[i].end)
  {
    var done, more, next := all[..i], all[..i + 1], all[i];
    forall k ensures Covered(more, k) <==> Covered(done, k) || next.start <= k < next.end {
      CoveredSnoc(all, i, k);
    }
    MeasureEqual(done, more, lo, start);
    if next.start > end {
      SweptTotal(done, lo, total, start, end, next.start);
      MeasureEqual(done, more, lo, next.start);
    } else {
      var reach := if end >= next.end then end else next.end;
      forall k | start <= k < reach ensures Covered(more, k) {
        assert k < end ==> Covered(done, k);
      }
      forall k | reach <= k ensures !Covered(more, k) {
        assert !Covered(done, k);
      }
    }
  }

  lemma SweptFirst(sorted: seq<Interval>)
    requires sorted != [] && sorted[0].start <= sorted[0].end
    ensures Swept(sorted[..1], sorted[0].start, 0, sorted[0].start, sorted[0].end)
  {
    forall k ensures Covered(sorted[..1], k) <==> sorted[0].start <= k < sorted[0].end {
      CoveredSnoc(sorted, 0, k);
    }
  }

  lemma MeasureBlankBelow(sorted: seq<Interval>, low: int)
    requires SortedBy(sorted, LexLe) && sorted != []
    ensures Measure(sorted, low, sorted[0].start) == 0
  {
    forall k | low <= k < sorted[0].start ensures !Covered(sorted, k) {
      forall i | 0 <= i < |sorted| ensures k < sorted[i].start {
        assert i == 0 || LexLe(sorted[0], sorted[i]);
      }
    }
    MeasureBlank(sorted, low, sorted[0].start);
  }

  /** The loop over the sorted intervals, with the last open block added at the end. */
  method Sweep(sorted: seq<Interval>, ghost low: int, ghost high: int) returns (length: int)
    requires SortedBy(sorted, LexLe) && sorted != []
    requires forall i :: 0 <= i < |sorted| ==> low <= sorted[i].start <= sorted[i].end <= high
    ensures length == Measure(sorted, low, high)
  {
    var total := 0;
    var start, end := sorted[0].start, sorted[0].end;
    SweptFirst(sorted);
    for i := 1 to |sorted|
      invariant Swept(sorted[..i], sorted[0].start, total, start, end)
      invariant start <= sorted[i - 1].start
      invariant end <= high
    {
      assert LexLe(sorted[i - 1], sorted[i]);
      SweepStep(sorted, i, sorted[0].start, total, start, end);
      if sorted[i].start <= end {
        end := if end >= sorted[i].end then end else sorted[i].end;
      } else {
        total := total + end - start;
        start, end := sorted[i].start, sorted[i].end;
      }
    }
    assert sorted[..|sorted|] == sorted;
    SweptTotal(sorted, sorted[0].start, total, start, end, high);
    MeasureBlankBelow(sorted, low);
    MeasureAdditive(sorted, low, sorted[0].start, high);
    return total + end - start;
  }

  ghost predicate Within(ivs: seq<Interval>, lo: int, hi: int) {
    forall iv :: iv in ivs ==> lo <= iv.start && iv.end <= hi
  }

  /** Outside the bounds of the intervals there is no work to count. */
  lemma MeasureAnyBounds(ivs: seq<Interval>, lo: int, hi: int, low: int, high: int)
    requires Within(ivs, lo, hi) && Within(ivs, low, high)
    ensures Measure(ivs, lo, hi) == Measure(ivs, low, high)
  {
    var least, most := if lo <= low then lo else low, if hi >= high then hi else high;
    MeasureWiden(ivs, lo, hi, least, most);
    MeasureWiden(ivs, low, high, least, most);
  }

  lemma MeasureWiden(ivs: seq<Interval>, lo: int, hi: int, least: int, most: int)
    requires Within(ivs, lo, hi) && least <= lo && hi <= most
    ensures Measure(ivs, lo, hi) == Measure(ivs, least, most)
  {
    forall k | k < lo || hi <= k ensures !Covered(ivs, k) {
      forall i | 0 <= i < |ivs| ensures !(ivs[i].start <= k < ivs[i].end) {
        assert ivs[i] in ivs;
      }
    }
    if lo <= hi {
      MeasureBlank(ivs, least, lo);
      MeasureBlank(ivs, hi, most);
      MeasureAdditive(ivs, least, lo, most);
      MeasureAdditive(ivs, lo, hi, most);
    } else {
      MeasureBlank(ivs, least, most);
    }
  }

  /** `union_length` is the measure of the union, whatever the order, overlap or nesting of its input. */
  method UnionLength(intervals: seq<Interval>, window: Option<Interval>) returns (total: int)
    requires window.None? ==> forall iv :: iv in intervals ==> iv.start <= iv.end
    ensures window.Some? ==> total == Measure(intervals, window.value.start, window.value.end)
    ensures window.None? ==> forall lo, hi :: Within(intervals, lo, hi) ==> total == Measure(intervals, lo, hi)
  {
    var clipped := intervals;
    ghost var lo, hi;
    if window.Some? {
      clipped := Clip(intervals, window.value);
      lo, hi := window.value.start, window.value.end;
      MeasureEqual(clipped, intervals, lo, hi);
    } else {
      lo, hi := Bounds(intervals);
    }
    if clipped == [] {
      forall a, b ensures Measure(clipped, a, b) == 0 { MeasureBlank(clipped, a, b); }
      return 0;
    }
    var sorted := Sort(clipped, LexLe);
    SortSorts(clipped, LexLe);
    SameElements(sorted, clipped);
    total := Sweep(sorted, lo, hi);
    MeasurePermutation(sorted, clipped, lo, hi);
    if window.None? {
      forall a, b | Within(intervals, a, b) ensures total == Measure(intervals, a, b) {
        MeasureAnyBounds(intervals, lo, hi, a, b);
      }
    }
  }

  lemma {:induction false} Bounds(ivs: seq<Interval>) returns (lo: int, hi: int)
    ensures Within(ivs, lo, hi)
  {
    lo, hi := 0, 0;
    if ivs != [] {
      lo, hi := Bounds(ivs[1..]);
      lo := if ivs[0].start < lo then ivs[0].start else lo;
      hi := if ivs[0].end > hi then ivs[0].end else hi;
      forall iv | iv in ivs ensures lo <= iv.start && iv.end <= hi {
        assert iv == ivs[0] || iv in ivs[1..];
      }
    }
  }
}
