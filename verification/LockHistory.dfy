/** The history of workers taking and releasing their locks, and what two positive polls say about it. */
module LockHistory {
  import opened Results

  /** One hold of a worker's lock; `released` is None while it lasts. */
  datatype Take = Take(worker: nat, taken: nat, released: Option<nat>)

  /** Holds are listed as they begin; a worker takes its lock again only after releasing it. */
  ghost predicate Orderly(takes: seq<Take>) {
    && (forall k :: 0 <= k < |takes| && takes[k].released.Some? ==> takes[k].taken <= takes[k].released.value)
    && (forall k, m :: 0 <= k < m < |takes| && takes[k].worker == takes[m].worker ==>
                         takes[k].released.Some? && takes[k].released.value <= takes[m].taken)
  }

  predicate Covers(take: Take, t: int, u: int) {
    take.taken <= t && (take.released.Some? ==> u <= take.released.value)
  }

  /** One hold of `v` lasted from `t` to `u`. */
  ghost predicate HeldThroughout(takes: seq<Take>, v: nat, t: int, u: int) {
    exists k :: 0 <= k < |takes| && takes[k].worker == v && Covers(takes[k], t, u)
  }

  /** Hold `k` ended before `u`, and its worker did not take the lock again until after `t`. */
  ghost predicate CutAt(takes: seq<Take>, k: nat, t: int, u: int)
    requires k < |takes|
  {
    && takes[k].released.Some? && takes[k].released.value < u
    && forall m :: k < m < |takes| && takes[m].worker == takes[k].worker ==> t < takes[m].taken
  }

  /** `v` released its lock before `u` and did not take it again until after `t`. */
  ghost predicate Interrupted(takes: seq<Take>, v: nat, t: int, u: int) {
    exists k :: 0 <= k < |takes| && takes[k].worker == v && CutAt(takes, k, t, u)
  }

  /** Some hold of `v` covers the instant `t`. */
  ghost predicate FoundAt(takes: seq<Take>, k: nat, v: nat, t: int) {
    k < |takes| && takes[k].worker == v && Covers(takes[k], t, t)
  }

  /** The last hold of `v` that had begun by `t`. */
  lemma {:induction false} LastBegun(takes: seq<Take>, v: nat, t: int, first: nat, n: nat) returns (k: nat)
    requires first < n <= |takes| && takes[first].worker == v && takes[first].taken <= t
    ensures first <= k < n && takes[k].worker == v && takes[k].taken <= t
    ensures forall m :: k < m < n && takes[m].worker == v ==> t < takes[m].taken
  {
    k := n - 1;
    if !(takes[k].worker == v && takes[k].taken <= t) {
      k := LastBegun(takes, v, t, first, n - 1);
    }
  }

  /**
   A worker found holding its lock by `t` held it throughout from `t` to `u` exactly when no release
   before `u` went without a new hold by `t`.
   */
  lemma HeldExactly(takes: seq<Take>, v: nat, first: nat, t: int, u: int)
    requires Orderly(takes) && t <= u
    requires first < |takes| && takes[first].worker == v && takes[first].taken <= t
    ensures HeldThroughout(takes, v, t, u) <==> !Interrupted(takes, v, t, u)
  {
    var k := LastBegun(takes, v, t, first, |takes|);
    if !HeldThroughout(takes, v, t, u) {
      assert !Covers(takes[k], t, u);
      assert CutAt(takes, k, t, u);
    }
  }

  /** No release of `v` falls between the instants `p` and `q`, the latter excluded. */
  ghost predicate NoRelease(takes: seq<Take>, v: nat, p: int, q: int) {
    forall k :: 0 <= k < |takes| && takes[k].worker == v && takes[k].released.Some? ==>
                  !(p <= takes[k].released.value < q)
  }

  /** Without a release between two instants that enclose the stretch, it is not interrupted. */
  lemma NoReleaseUninterrupted(takes: seq<Take>, v: nat, first: nat, p: int, t: int, u: int, q: int)
    requires Orderly(takes) && FoundAt(takes, first, v, p) && p <= t && u <= q && NoRelease(takes, v, p, q)
    ensures !Interrupted(takes, v, t, u)
  {
  }

  ghost predicate TakesOnce(takes: seq<Take>, v: nat) {
    forall k, m :: 0 <= k < m < |takes| ==> !(takes[k].worker == v && takes[m].worker == v)
  }

  /** Two findings in one hold enclose only stretches that are not interrupted. */
  lemma SameHoldUninterrupted(takes: seq<Take>, v: nat, hold: nat, p: int, t: int, u: int, q: int)
    requires Orderly(takes) && FoundAt(takes, hold, v, p) && FoundAt(takes, hold, v, q) && p <= t && u <= q && t <= u
    ensures HeldThroughout(takes, v, t, u) && !Interrupted(takes, v, t, u)
  {
    assert Covers(takes[hold], t, u);
    HeldExactly(takes, v, hold, t, u);
  }
}
