/** `custom_wb`: the elimination in place on a 3x6 array, and the multipliers it accepts. */
module CameraWhite {
  import opened Reals
  import opened Results
  import opened WhiteBalance

  // ---------------------------------------------------------------- the array as a system

  ghost predicate Shaped(a: array2<real>) { a.Length0 == 3 && a.Length1 == 6 }

  ghost function RowOf(a: array2<real>, i: nat): Row
    requires Shaped(a) && i < 3
    reads a
  {
    [a[i, 0], a[i, 1], a[i, 2], a[i, 3], a[i, 4], a[i, 5]]
  }

  ghost function SystemOf(a: array2<real>): System
    requires Shaped(a)
    reads a
  {
    [RowOf(a, 0), RowOf(a, 1), RowOf(a, 2)]
  }

  method FindPivot(a: array2<real>, c: nat) returns (best: nat)
    requires Shaped(a) && c < 3
    ensures best == Best(SystemOf(a), c, 3)
  {
    ghost var s := SystemOf(a);
    var r := c + 1;
    best := c;
    while r < 3
      invariant c < r <= 3 && best == Best(s, c, r)
    {
      assert a[r, c] == s[r][c] && a[best, c] == s[best][c];
      if Abs(a[r, c]) > Abs(a[best, c]) { best := r; }
      r := r + 1;
    }
  }

  /** Choose the pivot row and swap it into place. */
  method SwapPivot(a: array2<real>, c: nat) returns (pivoted: bool)
    requires Shaped(a) && c < 3
    modifies a
    ensures pivoted <==> Abs(Pivoted(old(SystemOf(a)), c)[c][c]) >= TOLERANCE
    ensures SystemOf(a) == if pivoted then Pivoted(old(SystemOf(a)), c) else old(SystemOf(a))
  {
    var best := FindPivot(a, c);
    assert a[best, c] == SystemOf(a)[best][c];
    if Abs(a[best, c]) < TOLERANCE { return false; }
    SwapRows(a, c, best);
    return true;
  }

  method SwapRows(a: array2<real>, c: nat, best: nat)
    requires Shaped(a) && c < 3 && best < 3
    modifies a
    ensures SystemOf(a) == Swapped(old(SystemOf(a)), c, best)
  {
    var j := 0;
    while j < 6
      invariant 0 <= j <= 6
      invariant forall k :: 0 <= k < j ==> a[c, k] == old(a[best, k]) && a[best, k] == old(a[c, k])
      invariant forall k :: j <= k < 6 ==> a[c, k] == old(a[c, k]) && a[best, k] == old(a[best, k])
      invariant forall i, k :: 0 <= i < 3 && i != c && i != best && 0 <= k < 6 ==> a[i, k] == old(a[i, k])
    {
      a[c, j], a[best, j] := a[best, j], a[c, j];
      j := j + 1;
    }
    assert forall i :: 0 <= i < 3 && i != c && i != best ==> RowOf(a, i) == old(RowOf(a, i));
    assert RowOf(a, c) == old(RowOf(a, best)) && RowOf(a, best) == old(RowOf(a, c));
  }

  method ScalePivot(a: array2<real>, c: nat)
    requires Shaped(a) && c < 3 && a[c, c] != 0.0
    modifies a
    ensures old(SystemOf(a))[c][c] != 0.0 && SystemOf(a) == Normalised(old(SystemOf(a)), c)
  {
    ghost var s := SystemOf(a);
    var scale, j := a[c, c], 0;
    while j < 6
      invariant 0 <= j <= 6
      invariant forall k :: 0 <= k < j ==> a[c, k] == s[c][k] / scale
      invariant forall k :: j <= k < 6 ==> a[c, k] == s[c][k]
      invariant forall i, k :: 0 <= i < 3 && i != c && 0 <= k < 6 ==> a[i, k] == s[i][k]
    {
      a[c, j] := a[c, j] / scale;
      j := j + 1;
    }
    assert RowOf(a, c) == Scaled(s[c], scale);
    assert SystemOf(a) == Normalised(s, c);
  }

  method ReduceRow(a: array2<real>, c: nat, r: nat)
    requires Shaped(a) && c < 3 && r < 3 && r != c
    modifies a
    ensures var s := old(SystemOf(a));
            SystemOf(a) == s[r := Reduced(s[r], s[r][c], s[c])]
  {
    hide Less;
    var k, j := a[r, c], 0;
    while j < 6
      invariant 0 <= j <= 6
      invariant forall m :: 0 <= m < j ==> a[r, m] == Less(old(a[r, m]), k, old(a[c, m]))
      invariant forall m :: j <= m < 6 ==> a[r, m] == old(a[r, m])
      invariant forall i, m :: 0 <= i < 3 && i != r && 0 <= m < 6 ==> a[i, m] == old(a[i, m])
    {
      a[r, j] := Less(a[r, j], k, a[c, j]);
      j := j + 1;
    }
    assert forall i :: 0 <= i < 3 && i != r ==> RowOf(a, i) == old(RowOf(a, i));
    assert RowOf(a, r) == Reduced(old(RowOf(a, r)), k, old(RowOf(a, c)));
  }

  method ClearColumn(a: array2<real>, c: nat)
    requires Shaped(a) && c < 3
    modifies a
    ensures SystemOf(a) == Cleared(old(SystemOf(a)), c, 3)
  {
    hide Reduced;
    ghost var s := SystemOf(a);
    var r := 0;
    while r < 3
      invariant 0 <= r <= 3 && SystemOf(a) == Cleared(s, c, r)
    {
      if r != c { ReduceRow(a, c, r); }
      r := r + 1;
    }
  }

  /** The whole elimination; on success the array holds the identity beside the inverse. */
  method Eliminate(a: array2<real>) returns (ok: bool)
    requires Shaped(a)
    modifies a
    ensures ok <==> Eliminated(old(SystemOf(a)), 3).Some?
    ensures ok ==> SystemOf(a) == Eliminated(old(SystemOf(a)), 3).value
  {
    hide Normalised, Cleared, Swapped, Best;
    ghost var s := SystemOf(a);
    var c := 0;
    while c < 3
      invariant 0 <= c <= 3 && Eliminated(s, c) == Some(SystemOf(a))
    {
      ghost var t := SystemOf(a);
      var pivoted := SwapPivot(a, c);
      if !pivoted {
        GivenUp(s, c + 1, 3);
        return false;
      }
      assert a[c, c] == SystemOf(a)[c][c];
      ScalePivot(a, c);
      ClearColumn(a, c);
      assert Step(t, c) == Some(SystemOf(a));
      c := c + 1;
    }
    return true;
  }

  lemma {:induction false} GivenUp(s: System, k: nat, n: nat)
    requires k <= n <= 3 && Eliminated(s, k).None?
    ensures Eliminated(s, n).None?
  {
    if k < n { GivenUp(s, k, n - 1); }
  }

  /** Elimination stops at a column exactly when nothing at or below the diagonal reaches the tolerance. */
  lemma StopsOnlyNearSingular(s: System, c: nat)
    requires c < 3
    ensures Step(s, c).None? <==> forall r :: c <= r < 3 ==> Abs(s[r][c]) < TOLERANCE
  {
    hide Normalised, Cleared;
    BestIsLargest(s, c, 3);
  }

  lemma {:induction false} BestIsLargest(s: System, c: nat, n: nat)
    requires c < n <= 3
    ensures forall r :: c <= r < n ==> Abs(s[r][c]) <= Abs(s[Best(s, c, n)][c])
  {
    if n > c + 1 { BestIsLargest(s, c, n - 1); }
  }

  // ---------------------------------------------------------------- multipliers

  const XYZ_TO_RGB: Matrix3 := [
    [3.2404542, -1.5371385, -0.4985314], [-0.9692660, 1.8760108, 0.0415560], [0.0556434, -0.2040259, 1.0572252]]

  datatype WhitePoint = WhitePoint(x: real, y: real)

  function Xyz(white: WhitePoint): Vec3
    requires white.y != 0.0
  {
    [white.x / white.y, 1.0, (1.0 - white.x - white.y) / white.y]
  }

  /** The white point in linear sRGB. */
  function Target(white: WhitePoint): Vec3
    requires white.y != 0.0
  {
    Apply(XYZ_TO_RGB, Xyz(white))
  }

  /** The camera's response to the white point. */
  function Response(camera: Matrix3, white: WhitePoint): Vec3
    requires white.y != 0.0 && Inverse(camera).Some?
  {
    Apply(Inverse(camera).value, Target(white))
  }

  function DotTo(a: Vec3, b: Vec3, n: nat): real
    requires n <= 3
  {
    if n == 0 then 0.0 else DotTo(a, b, n - 1) + a[n - 1] * b[n - 1]
  }

  lemma DotToIsDot(a: Vec3, b: Vec3)
    ensures DotTo(a, b, 3) == Dot3(a, b)
  {
    assert DotTo(a, b, 1) == a[0] * b[0];
    assert DotTo(a, b, 2) == a[0] * b[0] + a[1] * b[1];
  }

  method Accumulate(a: Vec3, b: Vec3) returns (sum: real)
    ensures sum == Dot3(a, b)
  {
    sum := 0.0;
    var j := 0;
    while j < 3
      invariant 0 <= j <= 3 && sum == DotTo(a, b, j)
    {
      sum := sum + a[j] * b[j];
      j := j + 1;
    }
    DotToIsDot(a, b);
  }

  predicate Positive(camera: Matrix3, daylight: Vec3, white: WhitePoint, c: nat)
    requires white.y != 0.0 && Inverse(camera).Some? && c < 3
  {
    Response(camera, white)[c] > 0.0 && daylight[c] > 0.0
  }

  /** The first channel, from `c` on, whose response or daylight value is not positive; three if there is none. */
  function FirstFailing(camera: Matrix3, daylight: Vec3, white: WhitePoint, c: nat): (f: nat)
    requires white.y != 0.0 && Inverse(camera).Some? && c <= 3
    ensures c <= f <= 3
    ensures forall k: nat :: c <= k < f ==> Positive(camera, daylight, white, k)
    ensures f < 3 ==> !Positive(camera, daylight, white, f)
    decreases 3 - c
  {
    if c == 3 || !Positive(camera, daylight, white, c) then c else FirstFailing(camera, daylight, white, c + 1)
  }

  predicate Balanced(camera: Matrix3, daylight: Vec3, white: WhitePoint)
    requires white.y != 0.0
  {
    && Inverse(camera).Some?
    && forall c: nat :: 0 <= c < 3 ==> Positive(camera, daylight, white, c)
  }

  /** The multipliers of the first `f` channels are those of the white point. */
  ghost predicate WrittenTo(mul: seq<real>, camera: Matrix3, daylight: Vec3, white: WhitePoint, f: nat)
    requires white.y != 0.0 && Inverse(camera).Some? && f <= 3 <= |mul|
  {
    forall c :: 0 <= c < f ==>
      Response(camera, white)[c] != 0.0 && mul[c] == daylight[c] / Response(camera, white)[c]
  }

  /** The development parameters the call may change. */
  class Params {
    var userMul: array<real>
    var useCameraWb: bool
    var useAutoWb: bool

    ghost predicate Valid() reads this { userMul.Length == 4 }

    constructor (mul: array<real>)
      requires mul.Length == 4
      ensures Valid() && userMul == mul
    {
      userMul, useCameraWb, useAutoWb := mul, true, false;
    }
  }

  /**
   * Succeeds exactly when the elimination gets through and every channel has a positive response and
   * daylight value. The flags move only on success. A failing call writes the multipliers of the
   * channels before the first failing one and no others, so that it leaves them all alone exactly
   * when the elimination fails or those it writes were there already.
   */
  method CustomWb(camera: Matrix3, daylight: Vec3, white: WhitePoint, params: Params) returns (ok: bool)
    requires white.y != 0.0 && params.Valid()
    modifies params, params.userMul
    ensures params.Valid() && params.userMul == old(params.userMul)
    ensures ok <==> Balanced(camera, daylight, white)
    ensures ok ==> WrittenTo(params.userMul[..], camera, daylight, white, 3)
    ensures ok ==> params.userMul[3] == params.userMul[1] && !params.useCameraWb && !params.useAutoWb
    ensures !ok ==> params.useCameraWb == old(params.useCameraWb) && params.useAutoWb == old(params.useAutoWb)
    ensures Inverse(camera).None? ==> params.userMul[..] == old(params.userMul[..])
    ensures !ok && Inverse(camera).Some? ==>
              var f := FirstFailing(camera, daylight, white, 0);
              && f < 3 && WrittenTo(params.userMul[..], camera, daylight, white, f)
              && params.userMul[f..] == old(params.userMul[f..])
    ensures !ok ==>
              (params.userMul[..] == old(params.userMul[..]) <==>
               Inverse(camera).None?
               || WrittenTo(old(params.userMul[..]), camera, daylight, white, FirstFailing(camera, daylight, white, 0)))
  {
    hide Eliminated, RightHalf, Augmented, Response, Balanced, WrittenTo;
    OnlyInvertible(camera, daylight, white);
    var a := Augment(camera);
    ok := Eliminate(a);
    if !ok { return; }
    RightHalfOf(a);
    ok := Multiply(camera, daylight, white, a, params);
    if !ok {
      LeftAlone(old(params.userMul[..]), params.userMul[..], camera, daylight, white,
                FirstFailing(camera, daylight, white, 0));
    }
  }

  lemma LeftAlone(was: seq<real>, now: seq<real>, camera: Matrix3, daylight: Vec3, white: WhitePoint, f: nat)
    requires white.y != 0.0 && Inverse(camera).Some? && f < 3 && |was| == |now| == 4
    requires WrittenTo(now, camera, daylight, white, f) && now[f..] == was[f..]
    ensures now == was <==> WrittenTo(was, camera, daylight, white, f)
  {
    hide Response;
    assert forall c :: f <= c < 4 ==> now[c] == now[f..][c - f] && was[c] == was[f..][c - f];
  }

  lemma OnlyInvertible(camera: Matrix3, daylight: Vec3, white: WhitePoint)
    requires white.y != 0.0
    ensures Balanced(camera, daylight, white) ==> Inverse(camera).Some?
  {
  }

  /** The camera matrix beside the identity. */
  method Augment(camera: Matrix3) returns (a: array2<real>)
    ensures fresh(a) && Shaped(a) && SystemOf(a) == Augmented(camera)
  {
    a := new real[3, 6];
    var i := 0;
    while i < 3
      invariant 0 <= i <= 3
      invariant forall r, k :: 0 <= r < i && 0 <= k < 6 ==> a[r, k] == Augmented(camera)[r][k]
    {
      a[i, 0], a[i, 1], a[i, 2] := camera[i][0], camera[i][1], camera[i][2];
      a[i, 3], a[i, 4], a[i, 5] :=
        if i == 0 then 1.0 else 0.0, if i == 1 then 1.0 else 0.0, if i == 2 then 1.0 else 0.0;
      i := i + 1;
    }
    assert SystemOf(a) == Augmented(camera);
  }

  ghost function Inverted(a: array2<real>): Matrix3
    requires Shaped(a)
    reads a
  {
    [[a[0, 3], a[0, 4], a[0, 5]], [a[1, 3], a[1, 4], a[1, 5]], [a[2, 3], a[2, 4], a[2, 5]]]
  }

  lemma RightHalfOf(a: array2<real>)
    requires Shaped(a)
    ensures RightHalf(SystemOf(a)) == Inverted(a)
  {
    assert RowOf(a, 0)[3..6] == [a[0, 3], a[0, 4], a[0, 5]];
    assert RowOf(a, 1)[3..6] == [a[1, 3], a[1, 4], a[1, 5]];
    assert RowOf(a, 2)[3..6] == [a[2, 3], a[2, 4], a[2, 5]];
  }

  /** The tail of the call: responses checked and multipliers written channel by channel. */
  method Multiply(ghost camera: Matrix3, daylight: Vec3, white: WhitePoint, a: array2<real>, params: Params)
    returns (ok: bool)
    requires white.y != 0.0 && params.Valid() && Shaped(a) && Inverse(camera) == Some(Inverted(a))
    modifies params, params.userMul
    ensures params.Valid() && params.userMul == old(params.userMul)
    ensures ok <==> Balanced(camera, daylight, white)
    ensures ok ==> WrittenTo(params.userMul[..], camera, daylight, white, 3)
    ensures ok ==> params.userMul[3] == params.userMul[1] && !params.useCameraWb && !params.useAutoWb
    ensures !ok ==> params.useCameraWb == old(params.useCameraWb) && params.useAutoWb == old(params.useAutoWb)
    ensures !ok ==>
              var f := FirstFailing(camera, daylight, white, 0);
              && f < 3 && WrittenTo(params.userMul[..], camera, daylight, white, f)
              && params.userMul[f..] == old(params.userMul[f..])
  {
    hide Dot3, Inverse;
    var xyz := Xyz(white);
    var red := Accumulate(XYZ_TO_RGB[0], xyz);
    var green := Accumulate(XYZ_TO_RGB[1], xyz);
    var blue := Accumulate(XYZ_TO_RGB[2], xyz);
    var rgb: Vec3 := [red, green, blue];
    assert rgb == Target(white);
    ghost var expected := Response(camera, white);
    var c := 0;
    while c < 3
      invariant 0 <= c <= 3 && params.userMul == old(params.userMul)
      invariant params.useCameraWb == old(params.useCameraWb) && params.useAutoWb == old(params.useAutoWb)
      invariant params.userMul[c..] == old(params.userMul[c..])
      invariant forall k: nat :: 0 <= k < c ==> Positive(camera, daylight, white, k)
      invariant forall k :: 0 <= k < c ==> expected[k] != 0.0 && params.userMul[k] == daylight[k] / expected[k]
      invariant a[0, 3] == old(a[0, 3])
    {
      var response := Accumulate([a[c, 3], a[c, 4], a[c, 5]], rgb);
      assert response == expected[c];
      if response <= 0.0 || daylight[c] <= 0.0 {
        assert !Positive(camera, daylight, white, c);
        return false;
      }
      assert params.userMul[c + 1..] == old(params.userMul[c + 1..]) by {
        assert params.userMul[c..][1..] == params.userMul[c + 1..];
        assert old(params.userMul[c..])[1..] == old(params.userMul[c + 1..]);
      }
      params.userMul[c] := daylight[c] / response;
      c := c + 1;
    }
    params.userMul[3] := params.userMul[1];
    params.useCameraWb, params.useAutoWb := false, false;
    return true;
  }

  /** Accepted multipliers are positive, undo the response, and the response does map to the white point. */
  lemma AcceptedBalance(camera: Matrix3, daylight: Vec3, white: WhitePoint, c: nat)
    requires white.y != 0.0 && Balanced(camera, daylight, white) && c < 3
    ensures Apply(camera, Response(camera, white)) == Target(white)
    ensures Positive(camera, daylight, white, c)
    ensures daylight[c] / Response(camera, white)[c] > 0.0
    ensures daylight[c] / Response(camera, white)[c] * Response(camera, white)[c] == daylight[c]
  {
    hide Apply, Inverse;
    InverseFound(camera, Response(camera, white), Target(white));
  }

  /** The response is the only one the camera matrix sends to the white point. */
  lemma ResponseUnique(camera: Matrix3, white: WhitePoint, v: Vec3)
    requires white.y != 0.0 && Inverse(camera).Some? && Apply(camera, v) == Target(white)
    ensures v == Response(camera, white)
  {
    hide Apply, Inverse;
    InverseFound(camera, v, Target(white));
  }
}
