/** White balance from a chromaticity: Gauss-Jordan elimination of the camera matrix, over the reals. */
module WhiteBalance {
  import opened Reals
  import opened Results

  type Row = r: seq<real> | |r| == 6 witness [0.0, 0.0, 0.0, 0.0, 0.0, 0.0]

  /** Three rows of an augmented system. */
  type System = s: seq<Row> | |s| == 3 witness [ZERO_ROW, ZERO_ROW, ZERO_ROW]

  const ZERO_ROW: Row := [0.0, 0.0, 0.0, 0.0, 0.0, 0.0]

  type Vec3 = v: seq<real> | |v| == 3 witness [0.0, 0.0, 0.0]

  type Matrix3 = m: seq<Vec3> | |m| == 3 witness [ZERO_VEC, ZERO_VEC, ZERO_VEC]

  const ZERO_VEC: Vec3 := [0.0, 0.0, 0.0]

  const TOLERANCE := 0.0000000001

  // ---------------------------------------------------------------- row operations on values

  function Augmented(m: Matrix3): System {
    [ [m[0][0], m[0][1], m[0][2], 1.0, 0.0, 0.0],
      [m[1][0], m[1][1], m[1][2], 0.0, 1.0, 0.0],
      [m[2][0], m[2][1], m[2][2], 0.0, 0.0, 1.0] ]
  }

  function Scaled(r: Row, k: real): Row
    requires k != 0.0
  {
    [r[0] / k, r[1] / k, r[2] / k, r[3] / k, r[4] / k, r[5] / k]
  }

  /** `x` less `k` times `p`. */
  function Less(x: real, k: real, p: real): real { x - k * p }

  function Reduced(r: Row, k: real, p: Row): Row {
    [Less(r[0], k, p[0]), Less(r[1], k, p[1]), Less(r[2], k, p[2]),
     Less(r[3], k, p[3]), Less(r[4], k, p[4]), Less(r[5], k, p[5])]
  }

  /** The first row at or below `c` whose entry in column `c` is largest, looking no further than `n`. */
  function Best(s: System, c: nat, n: nat): (b: nat)
    requires c < n <= 3
    ensures c <= b < n
  {
    if n == c + 1 then c
    else
      var b := Best(s, c, n - 1);
      if Abs(s[n - 1][c]) > Abs(s[b][c]) then n - 1 else b
  }

  function Swapped(s: System, i: nat, j: nat): System
    requires i < 3 && j < 3
  {
    s[i := s[j]][j := s[i]]
  }

  function Normalised(s: System, c: nat): System
    requires c < 3 && s[c][c] != 0.0
  {
    s[c := Scaled(s[c], s[c][c])]
  }

  /** Rows below `n`, other than `c`, cleared in column `c`. */
  function Cleared(s: System, c: nat, n: nat): (t: System)
    requires c < 3 && n <= 3
    ensures t[c] == s[c] && forall r :: n <= r < 3 ==> t[r] == s[r]
  {
    if n == 0 then s
    else
      var t := Cleared(s, c, n - 1);
      if n - 1 == c then t else t[n - 1 := Reduced(t[n - 1], t[n - 1][c], t[c])]
  }

  function Pivoted(s: System, c: nat): System
    requires c < 3
  {
    Swapped(s, c, Best(s, c, 3))
  }

  /** One column: pivot, or give up below the tolerance; scale; clear the other rows. */
  function Step(s: System, c: nat): Option<System>
    requires c < 3
  {
    var p := Pivoted(s, c);
    if Abs(p[c][c]) < TOLERANCE then None else Some(Cleared(Normalised(p, c), c, 3))
  }

  function Eliminated(s: System, n: nat): Option<System>
    requires n <= 3
  {
    if n == 0 then Some(s)
    else
      match Eliminated(s, n - 1)
      case None => None
      case Some(t) => Step(t, n - 1)
  }

  // ---------------------------------------------------------------- solutions are preserved

  function Dot(r: Row, z: Row): real {
    r[0] * z[0] + r[1] * z[1] + r[2] * z[2] + r[3] * z[3] + r[4] * z[4] + r[5] * z[5]
  }

  /** `z` solves the homogeneous system. */
  predicate Solves(s: System, z: Row) { Dot(s[0], z) == 0.0 && Dot(s[1], z) == 0.0 && Dot(s[2], z) == 0.0 }

  lemma Distribute(k: real, a: real, b: real, c: real, d: real, e: real, f: real)
    ensures k * (a + b + c + d + e + f) == k * a + k * b + k * c + k * d + k * e + k * f
  {
  }

  lemma TermScaled(x: real, k: real, z: real)
    requires k != 0.0
    ensures k * ((x / k) * z) == x * z
  {
    assert k * (x / k) == x;
  }

  lemma DotScaled(r: Row, k: real, z: Row)
    requires k != 0.0
    ensures k * Dot(Scaled(r, k), z) == Dot(r, z)
  {
    var s := Scaled(r, k);
    Distribute(k, s[0] * z[0], s[1] * z[1], s[2] * z[2], s[3] * z[3], s[4] * z[4], s[5] * z[5]);
    TermScaled(r[0], k, z[0]);
    TermScaled(r[1], k, z[1]);
    TermScaled(r[2], k, z[2]);
    TermScaled(r[3], k, z[3]);
    TermScaled(r[4], k, z[4]);
    TermScaled(r[5], k, z[5]);
  }

  lemma TermReduced(x: real, k: real, p: real, z: real)
    ensures (x - k * p) * z == x * z - k * (p * z)
  {
  }

  lemma DotReduced(r: Row, k: real, p: Row, z: Row)
    ensures Dot(Reduced(r, k, p), z) == Dot(r, z) - k * Dot(p, z)
  {
    Distribute(k, p[0] * z[0], p[1] * z[1], p[2] * z[2], p[3] * z[3], p[4] * z[4], p[5] * z[5]);
    TermReduced(r[0], k, p[0], z[0]);
    TermReduced(r[1], k, p[1], z[1]);
    TermReduced(r[2], k, p[2], z[2]);
    TermReduced(r[3], k, p[3], z[3]);
    TermReduced(r[4], k, p[4], z[4]);
    TermReduced(r[5], k, p[5], z[5]);
  }

  lemma SwapKeeps(s: System, i: nat, j: nat, z: Row)
    requires i < 3 && j < 3
    ensures Solves(Swapped(s, i, j), z) <==> Solves(s, z)
  {
    hide Dot;
  }

  lemma NormalKeeps(s: System, c: nat, z: Row)
    requires c < 3 && s[c][c] != 0.0
    ensures Solves(Normalised(s, c), z) <==> Solves(s, z)
  {
    hide Dot, Scaled;
    var k, d := s[c][c], Dot(Scaled(s[c], s[c][c]), z);
    DotScaled(s[c], k, z);
    assert k * d == 0.0 <==> d == 0.0;
  }

  lemma {:induction false} ClearKeeps(s: System, c: nat, n: nat, z: Row)
    requires c < 3 && n <= 3
    ensures Solves(Cleared(s, c, n), z) <==> Solves(s, z)
  {
    hide Dot, Reduced;
    if n > 0 {
      ClearKeeps(s, c, n - 1, z);
      var t := Cleared(s, c, n - 1);
      if n - 1 != c {
        DotReduced(t[n - 1], t[n - 1][c], t[c], z);
        assert Dot(t[c], z) == 0.0 ==> t[n - 1][c] * Dot(t[c], z) == 0.0;
      }
    }
  }

  /** Every step keeps the solution set. */
  lemma StepKeeps(s: System, c: nat, z: Row)
    requires c < 3 && Step(s, c).Some?
    ensures Solves(Step(s, c).value, z) <==> Solves(s, z)
  {
    hide Solves, Normalised, Cleared, Swapped, Best;
    var p := Pivoted(s, c);
    SwapKeeps(s, c, Best(s, c, 3), z);
    NormalKeeps(p, c, z);
    ClearKeeps(Normalised(p, c), c, 3, z);
  }

  lemma {:induction false} EliminationKeeps(s: System, n: nat, z: Row)
    requires n <= 3 && Eliminated(s, n).Some?
    ensures Solves(Eliminated(s, n).value, z) <==> Solves(s, z)
  {
    hide Solves, Step;
    if n > 0 {
      EliminationKeeps(s, n - 1, z);
      StepKeeps(Eliminated(s, n - 1).value, n - 1, z);
    }
  }

  // ---------------------------------------------------------------- the left half becomes the identity

  /** The first `n` columns are those of the identity. */
  predicate Unit(s: System, n: nat)
    requires n <= 3
  {
    forall r, c :: 0 <= r < 3 && 0 <= c < n ==> s[r][c] == if r == c then 1.0 else 0.0
  }

  lemma {:induction false} ClearedColumn(s: System, c: nat, n: nat)
    requires c < 3 && n <= 3 && Unit(s, c) && s[c][c] == 1.0
    ensures Unit(Cleared(s, c, n), c) && forall r :: 0 <= r < n && r != c ==> Cleared(s, c, n)[r][c] == 0.0
  {
    if n > 0 {
      ClearedColumn(s, c, n - 1);
      var t := Cleared(s, c, n - 1);
      if n - 1 != c {
        var k := t[n - 1][c];
        assert k * 1.0 == k && k * 0.0 == 0.0;
        assert forall j :: 0 <= j < c ==> t[c][j] == 0.0;
      }
    }
  }

  lemma NormalUnit(s: System, c: nat)
    requires c < 3 && Unit(s, c) && s[c][c] != 0.0
    ensures Unit(Normalised(s, c), c) && Normalised(s, c)[c][c] == 1.0
  {
    var k := s[c][c];
    assert 0.0 / k == 0.0 && k / k == 1.0;
  }

  lemma StepUnit(s: System, c: nat)
    requires c < 3 && Unit(s, c) && Step(s, c).Some?
    ensures Unit(Step(s, c).value, c + 1)
  {
    hide Normalised, Cleared, Best;
    var p := Pivoted(s, c);
    assert Unit(p, c);
    NormalUnit(p, c);
    ClearedColumn(Normalised(p, c), c, 3);
  }

  lemma {:induction false} EliminationUnit(s: System, n: nat)
    requires n <= 3 && Eliminated(s, n).Some?
    ensures Unit(Eliminated(s, n).value, n)
  {
    hide Step;
    if n > 0 {
      EliminationUnit(s, n - 1);
      StepUnit(Eliminated(s, n - 1).value, n - 1);
    }
  }

  // ---------------------------------------------------------------- the right half is the inverse

  function Dot3(a: Vec3, b: Vec3): real { a[0] * b[0] + a[1] * b[1] + a[2] * b[2] }

  function Apply(m: Matrix3, v: Vec3): Vec3 { [Dot3(m[0], v), Dot3(m[1], v), Dot3(m[2], v)] }

  function RightHalf(s: System): Matrix3 { [s[0][3..6], s[1][3..6], s[2][3..6]] }

  /** The homogeneous vector that puts `x` against `y`. */
  function Against(x: Vec3, y: Vec3): Row { [x[0], x[1], x[2], -y[0], -y[1], -y[2]] }

  lemma AugmentedMeans(m: Matrix3, x: Vec3, y: Vec3)
    ensures Solves(Augmented(m), Against(x, y)) <==> Apply(m, x) == y
  {
    var a, z := Augmented(m), Against(x, y);
    assert Dot(a[0], z) == Dot3(m[0], x) - y[0];
    assert Dot(a[1], z) == Dot3(m[1], x) - y[1];
    assert Dot(a[2], z) == Dot3(m[2], x) - y[2];
  }

  lemma UnitRowMeans(s: System, x: Vec3, y: Vec3, i: nat)
    requires i < 3 && Unit(s, 3)
    ensures Dot(s[i], Against(x, y)) == x[i] - Dot3(RightHalf(s)[i], y)
  {
    var r := s[i];
    assert r[0] * x[0] + r[1] * x[1] + r[2] * x[2] == x[i];
    NegatedTerm(r[3], y[0]);
    NegatedTerm(r[4], y[1]);
    NegatedTerm(r[5], y[2]);
  }

  lemma NegatedTerm(a: real, b: real)
    ensures a * (-b) == -(a * b)
  {
  }

  lemma UnitMeans(s: System, x: Vec3, y: Vec3)
    requires Unit(s, 3)
    ensures Solves(s, Against(x, y)) <==> x == Apply(RightHalf(s), y)
  {
    hide Dot, Dot3, Unit, RightHalf, Against;
    UnitRowMeans(s, x, y, 0);
    UnitRowMeans(s, x, y, 1);
    UnitRowMeans(s, x, y, 2);
  }

  function Inverse(m: Matrix3): Option<Matrix3> {
    match Eliminated(Augmented(m), 3)
    case None => None
    case Some(s) => Some(RightHalf(s))
  }

  /** Past elimination, the right half is the inverse of the camera matrix, on both sides. */
  lemma InverseFound(m: Matrix3, x: Vec3, y: Vec3)
    requires Inverse(m).Some?
    ensures Apply(m, x) == y <==> x == Apply(Inverse(m).value, y)
  {
    hide Solves, Unit, Apply, Augmented, Against, RightHalf;
    var s := Eliminated(Augmented(m), 3).value;
    EliminationKeeps(Augmented(m), 3, Against(x, y));
    EliminationUnit(Augmented(m), 3);
    AugmentedMeans(m, x, y);
    UnitMeans(s, x, y);
  }

  /** So a matrix that sends two vectors to one is never inverted. */
  lemma SingularRefused(m: Matrix3, x: Vec3, x': Vec3)
    requires x != x' && Apply(m, x) == Apply(m, x')
    ensures Inverse(m) == None
  {
    hide Inverse, Apply;
    if Inverse(m).Some? {
      InverseFound(m, x, Apply(m, x));
      InverseFound(m, x', Apply(m, x));
    }
  }
}
