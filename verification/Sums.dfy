/** Finite sums of reals over integer ranges. */
module Sums {

  ghost function Sum(f: int -> real, lo: int, hi: int): real
    decreases hi - lo
  {
    if hi <= lo then 0.0 else Sum(f, lo, hi - 1) + f(hi - 1)
  }

  lemma {:induction false} SumEqual(f: int -> real, g: int -> real, lo: int, hi: int)
    requires forall k :: lo <= k < hi ==> f(k) == g(k)
    ensures Sum(f, lo, hi) == Sum(g, lo, hi)
    decreases hi - lo
  {
    if lo < hi { SumEqual(f, g, lo, hi - 1); }
  }

  lemma {:induction false} SumSplit(f: int -> real, lo: int, mid: int, hi: int)
    requires lo <= mid <= hi
    ensures Sum(f, lo, hi) == Sum(f, lo, mid) + Sum(f, mid, hi)
    decreases hi - mid
  {
    if mid < hi { SumSplit(f, lo, mid, hi - 1); }
  }

  lemma {:induction false} SumZero(f: int -> real, lo: int, hi: int)
    requires forall k :: lo <= k < hi ==> f(k) == 0.0
    ensures Sum(f, lo, hi) == 0.0
    decreases hi - lo
  {
    if lo < hi { SumZero(f, lo, hi - 1); }
  }

  lemma {:induction false} SumScale(f: int -> real, c: real, g: int -> real, lo: int, hi: int)
    requires forall k :: lo <= k < hi ==> g(k) == c * f(k)
    ensures Sum(g, lo, hi) == c * Sum(f, lo, hi)
    decreases hi - lo
  {
    if lo < hi { SumScale(f, c, g, lo, hi - 1); }
  }

  lemma {:induction false} SumAdd(f: int -> real, g: int -> real, h: int -> real, lo: int, hi: int)
    requires forall k :: lo <= k < hi ==> h(k) == f(k) + g(k)
    ensures Sum(h, lo, hi) == Sum(f, lo, hi) + Sum(g, lo, hi)
    decreases hi - lo
  {
    if lo < hi { SumAdd(f, g, h, lo, hi - 1); }
  }

  /** Summing a table by rows or by columns gives the same total. */
  lemma {:induction false} SumSwap(f: (int, int) -> real, n: int, m: int)
    requires 0 <= n
    ensures Sum(i => Sum(j => f(i, j), 0, m), 0, n) == Sum(j => Sum(i => f(i, j), 0, n), 0, m)
    decreases n
  {
    if n == 0 {
      SumZero(j => Sum(i => f(i, j), 0, n), 0, m);
    } else {
      SumSwap(f, n - 1, m);
      var rows := i => Sum(j => f(i, j), 0, m);
      assert Sum(rows, 0, n) == Sum(rows, 0, n - 1) + rows(n - 1);
      var shorter, last, column := j => Sum(i => f(i, j), 0, n - 1), j => f(n - 1, j), j => Sum(i => f(i, j), 0, n);
      forall j | 0 <= j < m ensures column(j) == shorter(j) + last(j) {}
      SumAdd(shorter, last, column, 0, m);
    }
  }

  /** What `k` gives to the places below `m` in all. */
  ghost function Given(weight: (int, int) -> real, k: int, m: int): real { Sum(x => weight(k, x), 0, m) }

  /** What place `x` receives from all `f(k)`. */
  ghost function Received(f: int -> real, weight: (int, int) -> real, n: int, x: int): real {
    Sum(k => f(k) * weight(k, x), 0, n)
  }

  lemma RowGiven(f: int -> real, weight: (int, int) -> real, k: int, m: int)
    requires Given(weight, k, m) == 1.0
    ensures Sum(x => f(k) * weight(k, x), 0, m) == f(k)
  {
    SumScale(x => weight(k, x), f(k), x => f(k) * weight(k, x), 0, m);
    assert f(k) * Given(weight, k, m) == f(k);
  }

  /** Spreading every `f(k)` over `m` places with weights that add up to one keeps the total. */
  lemma SpreadKeepsTotal(f: int -> real, weight: (int, int) -> real, n: nat, m: int)
    requires forall k :: 0 <= k < n ==> Given(weight, k, m) == 1.0
    ensures Sum(x => Received(f, weight, n, x), 0, m) == Sum(f, 0, n)
  {
    var term := (k, x) => f(k) * weight(k, x);
    SumSwap(term, n, m);
    var byRow, byColumn := k => Sum(x => term(k, x), 0, m), x => Sum(k => term(k, x), 0, n);
    forall k | 0 <= k < n ensures byRow(k) == f(k) {
      SumEqual(x => term(k, x), x => f(k) * weight(k, x), 0, m);
      RowGiven(f, weight, k, m);
    }
    SumEqual(byRow, f, 0, n);
    var received := x => Received(f, weight, n, x);
    forall x | 0 <= x < m ensures byColumn(x) == received(x) {
      SumEqual(k => term(k, x), k => f(k) * weight(k, x), 0, n);
    }
    SumEqual(byColumn, received, 0, m);
  }
}
