/** Sorted samples and how many of them lie below a value. */
module SampleCounts {
  import opened Sorting

  const ASCENDING: (real, real) -> bool := (a: real, b: real) => a <= b

  predicate Nonnegative(values: seq<real>) { forall i :: 0 <= i < |values| ==> values[i] >= 0.0 }

  lemma InOrder(ordered: seq<real>, i: nat, j: nat)
    requires SortedBy(ordered, ASCENDING) && i <= j < |ordered|
    ensures ordered[i] <= ordered[j]
  {
    assert i < j ==> ASCENDING(ordered[i], ordered[j]);
  }

  function AtMost(s: seq<real>, v: real): nat {
    if s == [] then 0 else (if s[0] <= v then 1 else 0) + AtMost(s[1..], v)
  }

  function Below(s: seq<real>, v: real): nat {
    if s == [] then 0 else (if s[0] < v then 1 else 0) + Below(s[1..], v)
  }

  lemma {:induction false} InsertCounts(x: real, s: seq<real>, v: real)
    ensures AtMost(Insert(x, s, ASCENDING), v) == AtMost(s, v) + if x <= v then 1 else 0
    ensures Below(Insert(x, s, ASCENDING), v) == Below(s, v) + if x < v then 1 else 0
  {
    if s != [] && !(x <= s[0]) {
      InsertCounts(x, s[1..], v);
      var tail := Insert(x, s[1..], ASCENDING);
      assert ([s[0]] + tail)[1..] == tail;
    } else {
      assert ([x] + s)[1..] == s;
    }
  }

  lemma {:induction false} SortCounts(s: seq<real>, v: real)
    ensures AtMost(Sort(s, ASCENDING), v) == AtMost(s, v) && Below(Sort(s, ASCENDING), v) == Below(s, v)
  {
    if s != [] {
      SortCounts(s[1..], v);
      InsertCounts(s[0], Sort(s[1..], ASCENDING), v);
    }
  }

  lemma {:induction false} ManyAtMost(s: seq<real>, m: nat, v: real)
    requires m <= |s| && forall i :: 0 <= i < m ==> s[i] <= v
    ensures AtMost(s, v) >= m
  {
    if m > 0 {
      assert forall i :: 0 <= i < m - 1 ==> s[1..][i] == s[i + 1];
      ManyAtMost(s[1..], m - 1, v);
    }
  }

  lemma {:induction false} FewBelow(s: seq<real>, m: nat, v: real)
    requires m <= |s| && forall i :: m <= i < |s| ==> s[i] >= v
    ensures Below(s, v) <= m
  {
    if s != [] {
      var less := if m > 0 then m - 1 else 0;
      assert forall i :: less <= i < |s| - 1 ==> s[1..][i] == s[i + 1];
      FewBelow(s[1..], less, v);
    }
  }

  lemma {:induction false} FewAtMost(s: seq<real>, m: nat, v: real)
    requires m <= |s| && forall i :: m <= i < |s| ==> s[i] > v
    ensures AtMost(s, v) <= m
  {
    if s != [] {
      var less := if m > 0 then m - 1 else 0;
      assert forall i :: less <= i < |s| - 1 ==> s[1..][i] == s[i + 1];
      FewAtMost(s[1..], less, v);
    }
  }

  /** In a sorted list the samples up to `v` come first. */
  lemma SortedAtMost(ordered: seq<real>, i: nat, v: real)
    requires SortedBy(ordered, ASCENDING) && i < |ordered|
    ensures ordered[i] <= v <==> AtMost(ordered, v) > i
  {
    hide AtMost;
    if ordered[i] <= v {
      forall k | 0 <= k < i + 1 ensures ordered[k] <= v { InOrder(ordered, k, i); }
      ManyAtMost(ordered, i + 1, v);
    } else {
      forall k | i <= k < |ordered| ensures ordered[k] > v { InOrder(ordered, i, k); }
      FewAtMost(ordered, i, v);
    }
  }
}
