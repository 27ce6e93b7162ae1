/** Which camera matrices the white balance can invert, told from the matrix alone. */
module CameraAcceptance {
  import opened CameraWhite
  import opened Reals
  import opened Results
  import opened WhiteBalance

  function Det(m: Matrix3): real {
    m[0][0] * (m[1][1] * m[2][2] - m[1][2] * m[2][1])
    - m[0][1] * (m[1][0] * m[2][2] - m[1][2] * m[2][0])
    + m[0][2] * (m[1][0] * m[2][1] - m[1][1] * m[2][0])
  }

  function Cross(a: real, b: real, c: real, d: real): real { a * b - c * d }

  /** The determinant of two rows in the first column and column `j`. */
  function Minor(m: Matrix3, b: nat, r: nat, j: nat): real
    requires b < 3 && r < 3 && j < 3
  {
    Cross(m[b][0], m[r][j], m[r][0], m[b][j])
  }

  /** The first row with the largest entry in the first column. */
  function Lead(m: Matrix3): (b: nat)
    ensures b < 3
  {
    var b := if Abs(m[1][0]) > Abs(m[0][0]) then 1 else 0;
    if Abs(m[2][0]) > Abs(m[b][0]) then 2 else b
  }

  /** The larger of the two minors of the lead row. */
  function TopMinor(m: Matrix3): real {
    var b := Lead(m);
    Max(Abs(Minor(m, b, (b + 1) % 3, 1)), Abs(Minor(m, b, (b + 2) % 3, 1)))
  }

  /**
   The lead entry, the largest minor over the lead entry, and the determinant over that minor, all
   reach the tolerance.
   */
  predicate ReachesTolerance(m: Matrix3) {
    && Abs(m[Lead(m)][0]) >= TOLERANCE
    && TopMinor(m) >= TOLERANCE * Abs(m[Lead(m)][0])
    && Abs(Det(m)) >= TOLERANCE * TopMinor(m)
  }

  // ---------------------------------------------------------------- products

  /** The product as a term of its own, which keeps proofs from multiplying out. */
  function Times(a: real, b: real): real { a * b }

  lemma AbsPositive(a: real)
    ensures Abs(a) >= 0.0 && (a != 0.0 ==> Abs(a) > 0.0)
  {
  }

  lemma AbsSigned(d: real, e: real)
    requires d == e || d == -e
    ensures Abs(d) == Abs(e)
  {
  }

  lemma SignOfProduct(x: real, y: real)
    ensures x >= 0.0 && y >= 0.0 ==> x * y >= 0.0
    ensures x >= 0.0 && y <= 0.0 ==> x * y <= 0.0
    ensures (-x) * y == x * (-y) == -(x * y)
  {
  }

  lemma AbsTimes(x: real, y: real)
    ensures Abs(Times(x, y)) == Times(Abs(x), Abs(y))
  {
    SignOfProduct(x, y);
    SignOfProduct(-x, y);
  }

  lemma Growing(q: real, t: real, a: real)
    requires a > 0.0
    ensures q >= t <==> Times(q, a) >= Times(t, a)
  {
    SignKept(q - t, a);
    assert (q - t) * a == q * a - t * a;
  }

  lemma SignKept(d: real, a: real)
    requires a > 0.0
    ensures d * a >= 0.0 <==> d >= 0.0
  {
    if d < 0.0 { assert d * a < 0.0; }
  }

  lemma Cancel(a: real, x: real, y: real)
    requires a > 0.0 && Times(a, x) == Times(a, y)
    ensures x == y
  {
    assert a * (x - y) == 0.0;
  }

  lemma Commuted(a: real, b: real)
    ensures Times(a, b) == Times(b, a)
  {
  }

  lemma ToleranceTimes(a: real)
    ensures Times(TOLERANCE, a) == TOLERANCE * a
  {
  }

  /** A quotient reaches the tolerance when its dividend reaches that share of its divisor. */
  lemma Ratio(v: real, x: real, a: real)
    requires a != 0.0 && Times(a, v) == x
    ensures Times(Abs(v), Abs(a)) == Abs(x)
    ensures Abs(v) >= TOLERANCE <==> Abs(x) >= TOLERANCE * Abs(a)
  {
    hide Abs, Times;
    Commuted(a, v);
    AbsTimes(v, a);
    AbsPositive(a);
    Growing(Abs(v), TOLERANCE, Abs(a));
    ToleranceTimes(Abs(a));
  }

  lemma LargerRatio(v: real, w: real, x: real, y: real, a: real)
    requires a != 0.0 && Times(a, v) == x && Times(a, w) == y
    ensures Abs(v) > Abs(w) <==> Abs(x) > Abs(y)
  {
    hide Abs, Times;
    AbsPositive(a);
    Ratio(v, x, a);
    Ratio(w, y, a);
    Growing(Abs(w), Abs(v), Abs(a));
  }

  // ---------------------------------------------------------------- entries after one step

  lemma EntryReduced(x: real, k: real, q: real, y: real, a: real)
    requires Times(a, q) == y
    ensures Times(a, Less(x, k, q)) == Cross(a, x, k, y)
  {
    assert k * (a * q) == a * (k * q);
  }

  lemma {:induction false} ClearedEntry(s: System, c: nat, n: nat, r: nat, j: nat)
    requires c < 3 && r < n <= 3 && r != c && j < 6
    ensures Cleared(s, c, n)[r][j] == Less(s[r][j], s[r][c], s[c][j])
  {
    hide Less;
    if r < n - 1 {
      ClearedEntry(s, c, n - 1, r, j);
    }
  }

  lemma ScaledEntry(s: System, c: nat, j: nat)
    requires c < 3 && j < 6 && s[c][c] != 0.0
    ensures Times(s[c][c], Normalised(s, c)[c][j]) == s[c][j]
  {
    var x, k := s[c][j], s[c][c];
    assert Normalised(s, c)[c][j] == x / k;
    assert k * (x / k) == x;
  }

  lemma StepEntry(s: System, c: nat, r: nat, j: nat)
    requires c < 3 && r < 3 && r != c && j < 6 && Step(s, c).Some?
    ensures var p := Pivoted(s, c);
            p[c][c] != 0.0 && Times(p[c][c], Step(s, c).value[r][j]) == Cross(p[c][c], p[r][j], p[r][c], p[c][j])
  {
    hide Cleared, Best, Times, Cross, Less, Scaled;
    var p := Pivoted(s, c);
    var n := Normalised(p, c);
    ClearedEntry(n, c, 3, r, j);
    ScaledEntry(p, c, j);
    EntryReduced(p[r][j], p[r][c], n[c][j], p[c][j], p[c][c]);
  }

  // ---------------------------------------------------------------- the first column

  /** Where the rows of the matrix stand once row `b` has been swapped to the top. */
  function Order(b: nat): (rows: seq<nat>)
    requires b < 3
    ensures |rows| == 3 && rows[0] == b && forall i :: 0 <= i < 3 ==> rows[i] < 3
  {
    [b, if b == 1 then 0 else 1, if b == 2 then 0 else 2]
  }

  lemma LeadIsBest(m: Matrix3)
    ensures Best(Augmented(m), 0, 3) == Lead(m)
  {
    var s := Augmented(m);
    assert Best(s, 0, 1) == 0;
    assert Best(s, 0, 2) == if Abs(s[1][0]) > Abs(s[0][0]) then 1 else 0;
  }

  lemma FirstPivot(m: Matrix3, i: nat, j: nat)
    requires i < 3 && j < 3
    ensures Pivoted(Augmented(m), 0)[i][j] == m[Order(Lead(m))[i]][j]
  {
    hide Best;
    LeadIsBest(m);
  }

  lemma FirstStep(m: Matrix3)
    ensures Step(Augmented(m), 0).Some? <==> Abs(m[Lead(m)][0]) >= TOLERANCE
    ensures Step(Augmented(m), 0).Some? ==>
              forall r, j :: 1 <= r < 3 && 1 <= j < 3 ==>
                Times(m[Lead(m)][0], Step(Augmented(m), 0).value[r][j]) == Minor(m, Lead(m), Order(Lead(m))[r], j)
  {
    hide Lead, Best, Augmented, Cleared, Normalised, Pivoted, Times, Cross;
    var s := Augmented(m);
    FirstPivot(m, 0, 0);
    if Step(s, 0).Some? {
      forall r, j | 1 <= r < 3 && 1 <= j < 3
        ensures Times(m[Lead(m)][0], Step(s, 0).value[r][j]) == Minor(m, Lead(m), Order(Lead(m))[r], j)
      {
        StepEntry(s, 0, r, j);
        FirstPivot(m, r, 0);
        FirstPivot(m, r, j);
        FirstPivot(m, 0, j);
      }
    }
  }

  // ---------------------------------------------------------------- the second column

  /** The rows in the order of the pivots, with minors over `a` below the first. */
  ghost predicate Placed(m: Matrix3, t: System, q: nat, o: nat, a: real) {
    && q < 3 && o < 3 && q != o && Lead(m) != q && Lead(m) != o
    && Times(a, t[1][1]) == Minor(m, Lead(m), q, 1) && Times(a, t[1][2]) == Minor(m, Lead(m), q, 2)
    && Times(a, t[2][1]) == Minor(m, Lead(m), o, 1) && Times(a, t[2][2]) == Minor(m, Lead(m), o, 2)
  }

  lemma TopIs(m: Matrix3)
    ensures var rows := Order(Lead(m));
            TopMinor(m) == Max(Abs(Minor(m, Lead(m), rows[1], 1)), Abs(Minor(m, Lead(m), rows[2], 1)))
  {
    hide Minor;
    if Lead(m) == 0 {
      assert Order(0) == [0, 1, 2];
    } else if Lead(m) == 1 {
      assert Order(1) == [1, 0, 2];
    }
  }

  lemma SecondPivot(m: Matrix3, t: System, a: real) returns (q: nat, o: nat)
    requires a != 0.0
    requires forall r, j :: 1 <= r < 3 && 1 <= j < 3 ==> Times(a, t[r][j]) == Minor(m, Lead(m), Order(Lead(m))[r], j)
    ensures Placed(m, Pivoted(t, 1), q, o, a)
    ensures Abs(Minor(m, Lead(m), q, 1)) == TopMinor(m)
  {
    hide Minor, Lead, TopMinor, Times, Abs;
    TopIs(m);
    var rows := Order(Lead(m));
    assert Best(t, 1, 2) == 1;
    q, o := rows[1], rows[2];
    if Abs(t[2][1]) > Abs(t[1][1]) { q, o := o, q; }
    LargerRatio(t[2][1], t[1][1], Minor(m, Lead(m), rows[2], 1), Minor(m, Lead(m), rows[1], 1), a);
  }

  // ---------------------------------------------------------------- the third column

  lemma Sylvester(a: real, b: real, c: real, d: real, e: real, f: real, g: real, h: real, i: real)
    ensures (a * e - d * b) * (a * i - g * c) - (a * h - g * b) * (a * f - d * c)
            == a * (a * (e * i - f * h) - b * (d * i - f * g) + c * (d * h - e * g))
  {
  }

  /** The determinant up to sign, from any order of the rows. */
  lemma DetReordered(m: Matrix3, b: nat, q: nat, o: nat)
    requires b < 3 && q < 3 && o < 3 && b != q && b != o && q != o
    ensures Abs(Cross(Minor(m, b, q, 1), Minor(m, b, o, 2), Minor(m, b, o, 1), Minor(m, b, q, 2)))
            == Times(Abs(m[b][0]), Abs(Det(m)))
  {
    hide Minor, Det, Abs, Cross, Times;
    var d := Det([m[b], m[q], m[o]]);
    Expanded(m, b, q, o);
    AbsTimes(m[b][0], d);
    DetSigned(m, b, q, o);
    AbsSigned(d, Det(m));
  }

  lemma DetSigned(m: Matrix3, b: nat, q: nat, o: nat)
    requires b < 3 && q < 3 && o < 3 && b != q && b != o && q != o
    ensures Det([m[b], m[q], m[o]]) == Det(m) || Det([m[b], m[q], m[o]]) == -Det(m)
  {
    hide Det;
    RowsSwapped(m[0], m[1], m[2]);
    assert m == [m[0], m[1], m[2]];
    assert (b, q, o) in {(0, 1, 2), (0, 2, 1), (1, 0, 2), (1, 2, 0), (2, 0, 1), (2, 1, 0)};
  }

  lemma Expanded(m: Matrix3, b: nat, q: nat, o: nat)
    requires b < 3 && q < 3 && o < 3
    ensures Cross(Minor(m, b, q, 1), Minor(m, b, o, 2), Minor(m, b, o, 1), Minor(m, b, q, 2))
            == Times(m[b][0], Det([m[b], m[q], m[o]]))
  {
    var x, y, z := m[b], m[q], m[o];
    Sylvester(x[0], x[1], x[2], y[0], y[1], y[2], z[0], z[1], z[2]);
  }

  lemma RowsSwapped(x: Vec3, y: Vec3, z: Vec3)
    ensures Det([y, x, z]) == Det([x, z, y]) == Det([z, y, x]) == -Det([x, y, z])
    ensures Det([y, z, x]) == Det([z, x, y]) == Det([x, y, z])
  {
  }

  /** What the last column leaves on the diagonal, times the second minor, is the determinant. */
  lemma LastEntry(m: Matrix3, p: System, q: nat, o: nat, a: real, v: real)
    requires Placed(m, p, q, o, a) && a == m[Lead(m)][0] && a != 0.0
    requires p[1][1] != 0.0 && Times(p[1][1], v) == Cross(p[1][1], p[2][2], p[2][1], p[1][2])
    ensures Times(Abs(v), Abs(Minor(m, Lead(m), q, 1))) == Abs(Det(m))
  {
    hide Lead, Minor, Det, Abs, Cross, Times;
    DetReordered(m, Lead(m), q, o);
    Cancelled(p[1][1], p[2][2], p[2][1], p[1][2], a, v, Abs(Det(m)));
  }

  lemma Cancelled(x: real, y: real, z: real, w: real, a: real, v: real, d: real)
    requires a != 0.0 && Times(x, v) == Cross(x, y, z, w)
    requires Abs(Cross(Times(a, x), Times(a, y), Times(a, z), Times(a, w))) == Times(Abs(a), d)
    ensures Times(Abs(v), Abs(Times(a, x))) == d
  {
    hide Abs, Cross, Times;
    var n := Cross(x, y, z, w);
    CrossScaled(a, x, y, z, w);
    AbsTimes(a, Times(a, n));
    AbsPositive(a);
    Cancel(Abs(a), Abs(Times(a, n)), d);
    Regrouped(v, a, x);
    AbsTimes(v, Times(a, x));
  }

  lemma Regrouped(v: real, a: real, x: real)
    ensures Times(v, Times(a, x)) == Times(a, Times(x, v))
  {
  }

  lemma CrossScaled(a: real, x: real, y: real, z: real, w: real)
    ensures Cross(Times(a, x), Times(a, y), Times(a, z), Times(a, w)) == Times(a, Times(a, Cross(x, y, z, w)))
  {
  }

  // ---------------------------------------------------------------- acceptance

  lemma SecondStep(m: Matrix3, t: System)
    requires Step(Augmented(m), 0) == Some(t)
    ensures Step(t, 1).Some? <==> TopMinor(m) >= TOLERANCE * Abs(m[Lead(m)][0])
    ensures Step(t, 1).Some? ==> TopMinor(m) > 0.0 && Times(Abs(Step(t, 1).value[2][2]), TopMinor(m)) == Abs(Det(m))
  {
    hide Lead, Minor, Det, Augmented, Best, Cleared, Normalised, Pivoted, TopMinor, Times, Cross, Abs;
    FirstStep(m);
    var a := m[Lead(m)][0];
    AbsOfZero();
    var q, o := SecondPivot(m, t, a);
    Ratio(Pivoted(t, 1)[1][1], Minor(m, Lead(m), q, 1), a);
    AbsPositive(a);
    if Step(t, 1).Some? {
      StepEntry(t, 1, 2, 2);
      LastEntry(m, Pivoted(t, 1), q, o, a, Step(t, 1).value[2][2]);
    }
  }

  lemma AbsOfZero()
    ensures Abs(0.0) == 0.0
  {
  }

  /**
   The elimination accepts a matrix exactly when its lead entry, its largest minor over that entry,
   and its determinant over that minor all reach the tolerance.
   */
  lemma InvertedExactly(m: Matrix3)
    ensures Inverse(m).Some? <==> ReachesTolerance(m)
  {
    hide Lead, Det, Augmented, TopMinor, Step, Times, Abs;
    var s := Augmented(m);
    FirstStep(m);
    assert Eliminated(s, 1) == Step(s, 0);
    if Step(s, 0).None? {
      GivenUp(s, 1, 3);
    } else {
      var t := Step(s, 0).value;
      SecondStep(m, t);
      assert Eliminated(s, 2) == Step(t, 1);
      if Step(t, 1).None? {
        GivenUp(s, 2, 3);
      } else {
        var u := Step(t, 1).value;
        assert Eliminated(s, 3) == Step(u, 2);
        StopsOnlyNearSingular(u, 2);
        Growing(Abs(u[2][2]), TOLERANCE, TopMinor(m));
        ToleranceTimes(TopMinor(m));
      }
    }
  }

  /** An invertible matrix that is refused, for its smallness in one entry. */
  lemma InvertibleRefused()
    ensures var m: Matrix3 := [[0.00000000001, 0.0, 0.0], [0.0, 1.0, 0.0], [0.0, 0.0, 1.0]];
            Det(m) != 0.0 && (forall x, y :: Apply(m, x) == Apply(m, y) ==> x == y) && Inverse(m) == None
  {
    var m: Matrix3 := [[0.00000000001, 0.0, 0.0], [0.0, 1.0, 0.0], [0.0, 0.0, 1.0]];
    InvertedExactly(m);
    assert Lead(m) == 1 || Lead(m) == 0;
    forall x: Vec3, y: Vec3 | Apply(m, x) == Apply(m, y) ensures x == y {
      DiagonalInjective(x, y);
    }
  }

  lemma DiagonalInjective(x: Vec3, y: Vec3)
    requires var m: Matrix3 := [[0.00000000001, 0.0, 0.0], [0.0, 1.0, 0.0], [0.0, 0.0, 1.0]]; Apply(m, x) == Apply(m, y)
    ensures x == y
  {
    var m: Matrix3 := [[0.00000000001, 0.0, 0.0], [0.0, 1.0, 0.0], [0.0, 0.0, 1.0]];
    assert Apply(m, x)[0] == 0.00000000001 * x[0] && Apply(m, y)[0] == 0.00000000001 * y[0];
    assert Apply(m, x)[1] == x[1] && Apply(m, y)[1] == y[1];
    assert Apply(m, x)[2] == x[2] && Apply(m, y)[2] == y[2];
    assert x == [x[0], x[1], x[2]] && y == [y[0], y[1], y[2]];
  }

  const IDENTITY: Matrix3 := [[1.0, 0.0, 0.0], [0.0, 1.0, 0.0], [0.0, 0.0, 1.0]]

  /** A call that fails at the last channel, with the multipliers of the two before it written. */
  lemma FailsLate(daylight: Vec3, white: WhitePoint)
    requires white == WhitePoint(1.0 / 3.0, 1.0 / 3.0) && daylight == [1.0, 1.0, 0.0]
    ensures Inverse(IDENTITY).Some? && !Balanced(IDENTITY, daylight, white)
    ensures FirstFailing(IDENTITY, daylight, white, 0) == 2
    ensures Response(IDENTITY, white)[0] == 1.2047843 && Response(IDENTITY, white)[1] == 0.9483008
  {
    hide Inverse;
    InvertedExactly(IDENTITY);
    assert Xyz(white) == [1.0, 1.0, 1.0];
    assert Target(white) == [1.2047843, 0.9483008, 0.9088427];
    var t := Target(white);
    assert Apply(IDENTITY, t) == t;
    InverseFound(IDENTITY, t, t);
    assert Response(IDENTITY, white) == t;
    assert Positive(IDENTITY, daylight, white, 0) && Positive(IDENTITY, daylight, white, 1);
    assert !Positive(IDENTITY, daylight, white, 2);
  }

  // ---------------------------------------------------------------- the white point in linear sRGB

  /** The vector has the chromaticities it was given, at unit luminance. */
  lemma XyzChromaticities(white: WhitePoint)
    requires white.y != 0.0
    ensures var v := Xyz(white);
            var sum := v[0] + v[1] + v[2];
            v[1] == 1.0 && sum * white.x == v[0] && sum * white.y == v[1] && sum * (1.0 - white.x - white.y) == v[2]
  {
    var v := Xyz(white);
    SameQuotient(white.x, 1.0 - white.x - white.y, white.y);
    assert white.y / white.y == 1.0;
  }

  lemma SameQuotient(x: real, z: real, y: real)
    requires y != 0.0 && x + y + z == 1.0
    ensures x / y + 1.0 + z / y == 1.0 / y
    ensures (1.0 / y) * x == x / y && (1.0 / y) * z == z / y && (1.0 / y) * y == 1.0
  {
  }

  predicate Near(a: real, b: real, tolerance: real) { Abs(a - b) < tolerance }

  predicate NearWhite(v: Vec3) { forall c :: 0 <= c < 3 ==> Near(v[c], 1.0, 0.0003) }

  /**
   The white point of sRGB (IEC 61966-2-1) is white, and each of its primaries is that primary alone,
   to the rounding of the digits given.
   */
  lemma TargetOfPrimaries()
    ensures var w := Target(WhitePoint(0.3127, 0.3290)); NearWhite(w)
    ensures var r := Target(WhitePoint(0.64, 0.33));
            r[0] > 1.0 && Near(r[1], 0.0, 0.000001) && Near(r[2], 0.0, 0.000001)
    ensures var g := Target(WhitePoint(0.30, 0.60));
            Near(g[0], 0.0, 0.000001) && g[1] > 1.0 && Near(g[2], 0.0, 0.000001)
    ensures var b := Target(WhitePoint(0.15, 0.06));
            Near(b[0], 0.0, 0.000001) && Near(b[1], 0.0, 0.000001) && b[2] > 1.0
  {
    TargetIs(WhitePoint(0.3127, 0.3290));
    TargetIs(WhitePoint(0.64, 0.33));
    TargetIs(WhitePoint(0.30, 0.60));
    TargetIs(WhitePoint(0.15, 0.06));
  }

  lemma TargetIs(white: WhitePoint)
    requires white.y != 0.0
    ensures var v := Xyz(white);
            Target(white) == [3.2404542 * v[0] + -1.5371385 * v[1] + -0.4985314 * v[2],
                              -0.9692660 * v[0] + 1.8760108 * v[1] + 0.0415560 * v[2],
                              0.0556434 * v[0] + -0.2040259 * v[1] + 1.0572252 * v[2]]
  {
  }
}
