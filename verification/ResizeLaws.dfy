/** What resizing keeps: weights that add up, total alpha and alpha-weighted colour, and constant pictures. */
module ResizeLaws {
  import opened Pixels
  import opened Reals
  import opened Sums
  import opened Resize

  // ---------------------------------------------------------------- weighted totals of samples

  /** Alpha, or one colour weighted by alpha: the quantities resizing averages. */
  datatype Channel = Alpha | Red | Green | Blue

  function Amount(c: Channel, p: Pixel): real {
    match c case Alpha => p.a case Red => p.r * p.a case Green => p.g * p.a case Blue => p.b * p.a
  }

  /** A sample's part of a weighted total. */
  function Part(c: Channel, p: Pixel, w: real): real {
    match c case Alpha => p.a * w case Red => p.r * (p.a * w) case Green => p.g * (p.a * w) case Blue => p.b * (p.a * w)
  }

  lemma PartIsAmount(c: Channel, p: Pixel, w: real)
    ensures Part(c, p, w) == Amount(c, p) * w
  {
    assert p.r * (p.a * w) == p.r * p.a * w && p.g * (p.a * w) == p.g * p.a * w && p.b * (p.a * w) == p.b * p.a * w;
  }

  ghost function Total(c: Channel, t: Taps): real
    requires Paired(t)
    decreases |t.points|
  {
    if t.points == [] then 0.0
    else
      var n := |t.points| - 1;
      Total(c, Taps(t.points[..n], t.weights[..n])) + Part(c, t.points[n], t.weights[n])
  }

  ghost function Weight(t: Taps): real
    requires Paired(t)
    decreases |t.points|
  {
    if t.points == [] then 0.0
    else
      var n := |t.points| - 1;
      Weight(Taps(t.points[..n], t.weights[..n])) + t.weights[n]
  }

  lemma {:induction false} MomentTotals(t: Taps)
    requires Paired(t)
    ensures var m := Moment(t.points, t.weights);
            m.a == Total(Alpha, t) && m.r == Total(Red, t) && m.g == Total(Green, t) && m.b == Total(Blue, t)
    decreases |t.points|
  {
    if t.points != [] {
      var n := |t.points| - 1;
      MomentTotals(Taps(t.points[..n], t.weights[..n]));
    }
  }

  lemma JoinPaired(t: Taps, u: Taps)
    requires Paired(t) && Paired(u)
    ensures Paired(Join(t, u))
  {
  }

  lemma AddTotals(c: Channel, t: Taps, p: Pixel, w: real)
    requires Paired(t)
    ensures Paired(Add(t, p, w))
    ensures Total(c, Add(t, p, w)) == Total(c, t) + Part(c, p, w) && Weight(Add(t, p, w)) == Weight(t) + w
  {
    hide Part;
    var u := Add(t, p, w);
    assert Taps(u.points[..|t.points|], u.weights[..|t.points|]) == t;
  }

  lemma NoTotals(c: Channel)
    ensures Total(c, NO_TAPS) == 0.0 && Weight(NO_TAPS) == 0.0
  {
  }

  lemma LastTap(c: Channel, u: Taps) returns (v: Taps)
    requires Paired(u) && u.points != []
    ensures Paired(v) && |v.points| < |u.points|
    ensures u == Add(v, u.points[|v.points|], u.weights[|v.points|])
    ensures Total(c, u) == Total(c, v) + Part(c, u.points[|v.points|], u.weights[|v.points|])
    ensures Weight(u) == Weight(v) + u.weights[|v.points|]
  {
    v := Taps(u.points[..|u.points| - 1], u.weights[..|u.points| - 1]);
  }

  lemma JoinAdd(t: Taps, v: Taps, p: Pixel, w: real)
    ensures Join(t, Add(v, p, w)) == Add(Join(t, v), p, w)
  {
  }

  lemma {:induction false} JoinTotals(c: Channel, t: Taps, u: Taps)
    requires Paired(t) && Paired(u)
    ensures Paired(Join(t, u))
    ensures Total(c, Join(t, u)) == Total(c, t) + Total(c, u) && Weight(Join(t, u)) == Weight(t) + Weight(u)
    decreases |u.points|
  {
    hide Part;
    if u.points == [] {
      assert Join(t, u) == t;
    } else {
      hide Total, Weight, Join, Add;
      var v := LastTap(c, u);
      var p, w := u.points[|v.points|], u.weights[|v.points|];
      JoinPaired(t, u);
      JoinTotals(c, t, v);
      AddTotals(c, Join(t, v), p, w);
      JoinAdd(t, v, p, w);
    }
  }

  // ---------------------------------------------------------------- weighted means

  /** Samples a mean can be taken of without clipping: alpha in [0, 1], weights not negative. */
  ghost predicate Fair(t: Taps) {
    && Paired(t)
    && forall i :: 0 <= i < |t.points| ==> 0.0 <= t.points[i].a <= 1.0 && t.weights[i] >= 0.0
  }

  lemma ScaledAlpha(a: real, w: real) returns (aw: real)
    requires 0.0 <= a <= 1.0 && w >= 0.0
    ensures aw == a * w && 0.0 <= aw <= w
    ensures aw == 0.0 ==> a == 0.0 || w == 0.0
  {
    aw := a * w;
  }

  lemma ZeroAmount(c: Channel, p: Pixel, w: real)
    requires p.a == 0.0 || w == 0.0
    ensures Part(c, p, w) == 0.0
  {
  }

  lemma AlphaPart(p: Pixel, w: real)
    ensures Part(Alpha, p, w) == p.a * w
  {
  }

  lemma {:induction false} FairTotals(c: Channel, t: Taps)
    requires Fair(t)
    ensures 0.0 <= Total(Alpha, t) <= Weight(t)
    ensures Total(Alpha, t) == 0.0 ==> Total(c, t) == 0.0
    decreases |t.points|
  {
    if t.points != [] {
      hide Part;
      var n := |t.points| - 1;
      var p, w, before := t.points[n], t.weights[n], Taps(t.points[..n], t.weights[..n]);
      FairTotals(c, before);
      AlphaPart(p, w);
      var aw := ScaledAlpha(p.a, w);
      assert Total(Alpha, t) == Total(Alpha, before) + aw;
      assert Weight(t) == Weight(before) + w;
      if Total(Alpha, t) == 0.0 {
        ZeroAmount(c, p, w);
        assert Total(c, t) == Total(c, before) + Part(c, p, w);
      }
    }
  }

  lemma Quotient(x: real, a: real)
    requires a != 0.0
    ensures x / a * a == x && x * a / a == x
  {
  }

  /** Straightening keeps every alpha-weighted amount of totals whose alpha is a fraction. */
  lemma StraightAmount(c: Channel, m: Pixel)
    requires 0.0 <= m.a <= 1.0 && (m.a == 0.0 ==> m == CLEAR)
    ensures Amount(c, Straight(m)) == match c case Alpha => m.a case Red => m.r case Green => m.g case Blue => m.b
  {
    if m.a > 0.0 {
      Quotient(m.r, m.a);
      Quotient(m.g, m.a);
      Quotient(m.b, m.a);
    }
  }

  lemma StraightInverse(p: Pixel)
    requires 0.0 < p.a <= 1.0
    ensures Straight(Pixel(p.r * p.a, p.g * p.a, p.b * p.a, p.a)) == p
  {
    Quotient(p.r, p.a);
    Quotient(p.g, p.a);
    Quotient(p.b, p.a);
  }

  /** With weights that add up to one, the mean pixel carries exactly the weighted totals. */
  lemma MeanAmount(c: Channel, t: Taps)
    requires Fair(t) && Weight(t) == 1.0
    ensures Amount(c, WeightedStraight(t.points, t.weights)) == Total(c, t)
  {
    hide Total, Weight, Moment, Straight, Amount;
    MomentTotals(t);
    FairTotals(Red, t);
    FairTotals(Green, t);
    FairTotals(Blue, t);
    StraightAmount(c, Moment(t.points, t.weights));
  }

  lemma {:induction false} ConstantTotals(c: Channel, t: Taps, p: Pixel)
    requires Paired(t) && forall i :: 0 <= i < |t.points| ==> t.points[i] == p
    ensures Total(c, t) == Amount(c, p) * Weight(t)
    decreases |t.points|
  {
    if t.points != [] {
      hide Amount;
      var n := |t.points| - 1;
      ConstantTotals(c, Taps(t.points[..n], t.weights[..n]), p);
      PartIsAmount(c, p, t.weights[n]);
    }
  }

  lemma Unscaled(c: Channel, p: Pixel, one: real)
    requires one == 1.0
    ensures Amount(c, p) * one == match c
                                  case Alpha => p.a
                                  case Red => p.r * p.a
                                  case Green => p.g * p.a
                                  case Blue => p.b * p.a
  {
  }

  /** The mean of equal visible pixels is that pixel. */
  lemma ConstantMean(t: Taps, p: Pixel)
    requires Paired(t) && Weight(t) == 1.0 && 0.0 < p.a <= 1.0
    requires forall i :: 0 <= i < |t.points| ==> t.points[i] == p
    ensures WeightedStraight(t.points, t.weights) == p
  {
    hide Total, Weight, Moment, Straight;
    MomentTotals(t);
    ConstantTotals(Alpha, t, p);
    ConstantTotals(Red, t, p);
    ConstantTotals(Green, t, p);
    ConstantTotals(Blue, t, p);
    Unscaled(Alpha, p, Weight(t));
    Unscaled(Red, p, Weight(t));
    Unscaled(Green, p, Weight(t));
    Unscaled(Blue, p, Weight(t));
    StraightInverse(p);
  }

  // ---------------------------------------------------------------- the shrinking branch

  /** What a cell's row of samples adds up to for a quantity `v` of the source cells. */
  ghost function RowSum(v: (int, int) -> real, c: Cell, yy: int, past: int): real
    requires c.area != 0.0
  {
    Sum(WeightedRow(v, c, yy), c.left.Floor, past)
  }

  ghost function WeightedRow(v: (int, int) -> real, c: Cell, yy: int): int -> real
    requires c.area != 0.0
  {
    xx => v(xx, yy) * BoxWeight(c, xx, yy)
  }

  ghost function RowSums(v: (int, int) -> real, c: Cell, right: int): int -> real
    requires c.area != 0.0
  {
    yy => RowSum(v, c, yy, right)
  }

  ghost function BoxSum(v: (int, int) -> real, c: Cell, right: int, past: int): real
    requires c.area != 0.0
  {
    Sum(RowSums(v, c, right), c.top.Floor, past)
  }

  ghost function AmountIn(img: Image, c: Channel): (int, int) -> real
    requires Rectangular(img)
  {
    (xx, yy) => Amount(c, Outside(img, xx, yy))
  }

  ghost function One(): (int, int) -> real { (xx, yy) => 1.0 }

  lemma RowSumStep(v: (int, int) -> real, c: Cell, yy: int, past: int)
    requires c.area != 0.0
    ensures past <= c.left.Floor ==> RowSum(v, c, yy, past) == 0.0
    ensures past > c.left.Floor ==>
              RowSum(v, c, yy, past) == RowSum(v, c, yy, past - 1) + v(past - 1, yy) * BoxWeight(c, past - 1, yy)
  {
    hide BoxWeight;
  }

  lemma TapAmounts(img: Image, ch: Channel, xx: int, yy: int, w: real)
    requires Rectangular(img)
    ensures Part(ch, Outside(img, xx, yy), w) == AmountIn(img, ch)(xx, yy) * w
    ensures One()(xx, yy) * w == w
  {
    PartIsAmount(ch, Outside(img, xx, yy), w);
  }

  lemma {:induction false} RowTapsSum(img: Image, ch: Channel, c: Cell, yy: int, past: int)
    requires Rectangular(img) && c.area != 0.0
    ensures Total(ch, RowTaps(img, c, yy, past)) == RowSum(AmountIn(img, ch), c, yy, past)
    ensures Weight(RowTaps(img, c, yy, past)) == RowSum(One(), c, yy, past)
    decreases past - c.left.Floor
  {
    hide BoxWeight, Part, RowSum, AmountIn, One, Total, Weight, Add;
    NoTotals(ch);
    RowSumStep(AmountIn(img, ch), c, yy, past);
    RowSumStep(One(), c, yy, past);
    if past > c.left.Floor {
      RowTapsSum(img, ch, c, yy, past - 1);
      var w := BoxWeight(c, past - 1, yy);
      AddTotals(ch, RowTaps(img, c, yy, past - 1), Outside(img, past - 1, yy), w);
      TapAmounts(img, ch, past - 1, yy, w);
    }
  }

  lemma BoxSumStep(v: (int, int) -> real, c: Cell, right: int, past: int)
    requires c.area != 0.0
    ensures past <= c.top.Floor ==> BoxSum(v, c, right, past) == 0.0
    ensures past > c.top.Floor ==>
              BoxSum(v, c, right, past) == BoxSum(v, c, right, past - 1) + RowSum(v, c, past - 1, right)
  {
    hide RowSum;
  }

  lemma {:induction false} BoxTapsSum(img: Image, ch: Channel, c: Cell, past: int)
    requires Rectangular(img) && c.area != 0.0
    ensures Total(ch, BoxTaps(img, c, past)) == BoxSum(AmountIn(img, ch), c, Past(c.right, img.width), past)
    ensures Weight(BoxTaps(img, c, past)) == BoxSum(One(), c, Past(c.right, img.width), past)
    decreases past - c.top.Floor
  {
    hide Past, RowSum, RowTaps, AmountIn, One, BoxSum, Total, Weight, Join;
    NoTotals(ch);
    var right := Past(c.right, img.width);
    BoxSumStep(AmountIn(img, ch), c, right, past);
    BoxSumStep(One(), c, right, past);
    if past > c.top.Floor {
      BoxTapsSum(img, ch, c, past - 1);
      RowTapsSum(img, ch, c, past - 1, right);
      JoinTotals(ch, BoxTaps(img, c, past - 1), RowTaps(img, c, past - 1, right));
    }
  }

  // Every sum over the cells that are read is a sum over all cells, weighted by their shares.

  ghost function Shares(s: real): (int, int) -> real { (k, x) => Share(k, x, s) }

  ghost function RowOf(v: (int, int) -> real, yy: int): int -> real { xx => v(xx, yy) }

  /** The quantity of row `yy` that column `x` of the output receives. */
  ghost function RowReceived(v: (int, int) -> real, n: int, sx: real, x: int): int -> real {
    yy => Received(RowOf(v, yy), Shares(sx), n, x)
  }

  /** What output pixel `x`, `y` receives of the quantity `v`, before dividing by the cell area. */
  ghost function Blend(v: (int, int) -> real, w: int, h: int, sx: real, sy: real, x: int, y: int): real {
    Received(RowReceived(v, w, sx, x), Shares(sy), h, y)
  }

  /** A quantity weighted by what a stretch has in common with each cell. */
  ghost function CoveredBy(f: int -> real, left: real, right: real): int -> real { k => f(k) * Overlap(k, left, right) }

  /** Restricting a share-weighted sum to the cells that are read loses nothing. */
  lemma ReadAll(f: int -> real, x: int, s: real, n: nat, m: nat)
    requires Shrinks(n, m, s) && 0 <= x < m
    ensures var left, right := Edge(x, s), Edge(x + 1, s);
            0 <= left.Floor < Past(right, n) <= n
            && Sum(CoveredBy(f, left, right), left.Floor, Past(right, n)) == Received(f, Shares(s), n, x)
  {
    hide Edge;
    Edges(x, m, s);
    Edges(x + 1, m, s);
    var left, right := Edge(x, s), Edge(x + 1, s);
    ReadExactly(0, left, right, n);
    var read, all := CoveredBy(f, left, right), k => f(k) * Shares(s)(k, x);
    var from, past := left.Floor, Past(right, n);
    forall k | 0 <= k < n
      ensures from <= k < past ==> all(k) == read(k)
      ensures !(from <= k < past) ==> all(k) == 0.0
    {
      ReadExactly(k, left, right, n);
      assert Shares(s)(k, x) == Max(0.0, Overlap(k, left, right));
    }
    SumZero(all, 0, from);
    SumEqual(read, all, from, past);
    SumZero(all, past, n);
    SumSplit(all, 0, from, n);
    SumSplit(all, from, past, n);
  }

  lemma RegroupBox(v: real, c: Cell, xx: int, yy: int)
    requires c.area != 0.0
    ensures v * BoxWeight(c, xx, yy) == Overlap(yy, c.top, c.bottom) / c.area * (v * Overlap(xx, c.left, c.right))
  {
    RegroupProduct(v, Overlap(xx, c.left, c.right), Overlap(yy, c.top, c.bottom), c.area);
  }

  lemma RegroupProduct(v: real, ox: real, oy: real, area: real)
    requires area != 0.0
    ensures v * (ox * oy / area) == oy / area * (v * ox)
    ensures oy / area * v == 1.0 / area * (v * oy)
  {
  }

  /** The vertical overlap and the cell area factor out of a row of weights. */
  lemma RowFactor(v: (int, int) -> real, c: Cell, yy: int, past: int)
    requires c.area != 0.0
    ensures RowSum(v, c, yy, past)
            == Overlap(yy, c.top, c.bottom) / c.area * Sum(CoveredBy(RowOf(v, yy), c.left, c.right), c.left.Floor, past)
  {
    hide Overlap, BoxWeight;
    var factor := Overlap(yy, c.top, c.bottom) / c.area;
    forall k | c.left.Floor <= k < past
      ensures WeightedRow(v, c, yy)(k) == factor * CoveredBy(RowOf(v, yy), c.left, c.right)(k)
    {
      Factored(v, c, k, yy);
    }
    SumScale(CoveredBy(RowOf(v, yy), c.left, c.right), factor, WeightedRow(v, c, yy), c.left.Floor, past);
  }

  lemma Factored(v: (int, int) -> real, c: Cell, xx: int, yy: int)
    requires c.area != 0.0
    ensures WeightedRow(v, c, yy)(xx)
            == Overlap(yy, c.top, c.bottom) / c.area * CoveredBy(RowOf(v, yy), c.left, c.right)(xx)
  {
    RegroupBox(v(xx, yy), c, xx, yy);
    assert RowOf(v, yy)(xx) == v(xx, yy);
    assert CoveredBy(RowOf(v, yy), c.left, c.right)(xx) == v(xx, yy) * Overlap(xx, c.left, c.right);
  }

  /** One row of a cell: its samples add up to what the row received, times its vertical overlap, over the area. */
  lemma RowBlended(v: (int, int) -> real, x: int, y: int, sx: real, sy: real, w: nat, m: nat, yy: int)
    requires Shrinks(w, m, sx) && 0 <= x < m && sx * sy != 0.0
    ensures var c := CellOf(x, y, sx, sy);
            RowSums(v, c, Past(c.right, w))(yy)
            == 1.0 / c.area * CoveredBy(RowReceived(v, w, sx, x), c.top, c.bottom)(yy)
  {
    hide Edge, Past, Received, RowSum;
    var c := CellOf(x, y, sx, sy);
    ReadAll(RowOf(v, yy), x, sx, w, m);
    RowFactor(v, c, yy, Past(c.right, w));
    var received := RowReceived(v, w, sx, x)(yy);
    RegroupProduct(received, 0.0, Overlap(yy, c.top, c.bottom), c.area);
    assert CoveredBy(RowReceived(v, w, sx, x), c.top, c.bottom)(yy) == received * Overlap(yy, c.top, c.bottom);
  }

  /** The samples of a shrunk pixel add up to its blend of all source cells. */
  lemma BoxBlend(v: (int, int) -> real, x: int, y: int, sx: real, sy: real, w: nat, h: nat, m: nat, n: nat)
    requires Shrinks(w, m, sx) && Shrinks(h, n, sy) && 0 <= x < m && 0 <= y < n && sx * sy != 0.0
    ensures var c := CellOf(x, y, sx, sy);
            BoxSum(v, c, Past(c.right, w), Past(c.bottom, h)) == 1.0 / c.area * Blend(v, w, h, sx, sy, x, y)
  {
    hide Edge, Past, RowSums, CoveredBy, RowReceived, Received, Shrinks;
    var c, r := CellOf(x, y, sx, sy), RowReceived(v, w, sx, x);
    ReadAll(r, y, sy, h, n);
    forall yy | c.top.Floor <= yy < Past(c.bottom, h)
      ensures RowSums(v, c, Past(c.right, w))(yy) == 1.0 / c.area * CoveredBy(r, c.top, c.bottom)(yy)
    {
      RowBlended(v, x, y, sx, sy, w, m, yy);
    }
    SumScale(CoveredBy(r, c.top, c.bottom), 1.0 / c.area, RowSums(v, c, Past(c.right, w)), c.top.Floor,
             Past(c.bottom, h));
  }

  lemma ConstantReceived(f: int -> real, a: real, x: int, s: real, n: nat, m: nat)
    requires Shrinks(n, m, s) && 0 <= x < m
    requires forall k :: 0 <= k < n ==> f(k) == a
    ensures Received(f, Shares(s), n, x) == a * s
  {
    hide Share;
    SharesOfOutput(x, s, n, m);
    SumScale(k => Share(k, x, s), a, k => f(k) * Shares(s)(k, x), 0, n);
  }

  /** The weights of every shrunk pixel add up to one. */
  lemma WeightsAddUp(x: int, y: int, sx: real, sy: real, w: nat, h: nat, m: nat, n: nat)
    requires Shrinks(w, m, sx) && Shrinks(h, n, sy) && 0 <= x < m && 0 <= y < n && sx * sy != 0.0
    ensures var c := CellOf(x, y, sx, sy);
            BoxSum(One(), c, Past(c.right, w), Past(c.bottom, h)) == 1.0
  {
    hide Edge, Shrinks, BoxSum;
    BoxBlend(One(), x, y, sx, sy, w, h, m, n);
    var r := RowReceived(One(), w, sx, x);
    forall yy | 0 <= yy < h ensures r(yy) == sx {
      ConstantReceived(RowOf(One(), yy), 1.0, x, sx, w, m);
    }
    ConstantReceived(r, sx, y, sy, h, n);
    Quotient(1.0, sx * sy);
  }

  /** Every source cell gives 1 over the cell area in all, wherever it lies. */
  lemma CellGivesArea(k: int, s: real, n: nat, m: nat)
    requires Shrinks(n, m, s) && 0 <= k < n
    ensures Given(Shares(s), k, m) == 1.0
  {
    SharesOfSource(k, s, n, m);
    var share, given := x => Share(k, x, s), x => Shares(s)(k, x);
    forall x | 0 <= x < m ensures share(x) == given(x) {
      assert given(x) == Shares(s)(k, x) == Share(k, x, s);
    }
    SumEqual(share, given, 0, m);
  }

  /** The weight of source cell `k`, `l` in each pixel of one output row. */
  ghost function WeightsInRow(k: int, l: int, sx: real, sy: real, y: int): int -> real
    requires sx * sy != 0.0
  {
    x => Share(k, x, sx) * Share(l, y, sy) / (sx * sy)
  }

  ghost function WeightOfRow(k: int, l: int, sx: real, sy: real, m: int): int -> real
    requires sx * sy != 0.0
  {
    y => Sum(WeightsInRow(k, l, sx, sy, y), 0, m)
  }

  ghost function ColumnShares(k: int, s: real): int -> real { x => Share(k, x, s) }

  lemma FactorWeight(a: real, b: real, area: real)
    requires area != 0.0
    ensures a * b / area == b / area * a
    ensures b / area == 1.0 / area * b
  {
  }

  lemma RowWeight(k: int, l: int, sx: real, sy: real, w: nat, m: nat, y: int)
    requires Shrinks(w, m, sx) && 0 <= k < w && sx * sy != 0.0
    ensures WeightOfRow(k, l, sx, sy, m)(y) == 1.0 / (sx * sy) * ColumnShares(l, sy)(y)
  {
    hide Share, Shrinks;
    var factor := Share(l, y, sy) / (sx * sy);
    forall x | 0 <= x < m ensures WeightsInRow(k, l, sx, sy, y)(x) == factor * ColumnShares(k, sx)(x) {
      FactorWeight(Share(k, x, sx), Share(l, y, sy), sx * sy);
    }
    SumScale(ColumnShares(k, sx), factor, WeightsInRow(k, l, sx, sy, y), 0, m);
    SharesOfSource(k, sx, w, m);
    SumEqual(ColumnShares(k, sx), x => Share(k, x, sx), 0, m);
    FactorWeight(1.0, Share(l, y, sy), sx * sy);
  }

  /** A source pixel's weights over the whole output add up to one over the cell area. */
  lemma SourceWeight(k: int, l: int, sx: real, sy: real, w: nat, h: nat, m: nat, n: nat)
    requires Shrinks(w, m, sx) && Shrinks(h, n, sy) && 0 <= k < w && 0 <= l < h && sx * sy != 0.0
    ensures Sum(WeightOfRow(k, l, sx, sy, m), 0, n) == 1.0 / (sx * sy)
  {
    hide Share, Shrinks;
    forall y | 0 <= y < n ensures WeightOfRow(k, l, sx, sy, m)(y) == 1.0 / (sx * sy) * ColumnShares(l, sy)(y) {
      RowWeight(k, l, sx, sy, w, m, y);
    }
    SumScale(ColumnShares(l, sy), 1.0 / (sx * sy), WeightOfRow(k, l, sx, sy, m), 0, n);
    SharesOfSource(l, sy, h, n);
    SumEqual(ColumnShares(l, sy), y => Share(l, y, sy), 0, n);
  }

  /** The sum of a quantity over a whole picture of `w` by `h` cells. */
  ghost function TableTotal(v: (int, int) -> real, w: int, h: int): real {
    Sum(yy => Sum(RowOf(v, yy), 0, w), 0, h)
  }

  ghost function Blends(v: (int, int) -> real, w: int, h: int, sx: real, sy: real): (int, int) -> real {
    (x, y) => Blend(v, w, h, sx, sy, x, y)
  }

  /** Blending moves every quantity around without creating or losing any. */
  lemma BlendConserves(v: (int, int) -> real, sx: real, sy: real, w: nat, h: nat, m: nat, n: nat)
    requires Shrinks(w, m, sx) && Shrinks(h, n, sy)
    ensures TableTotal(Blends(v, w, h, sx, sy), m, n) == TableTotal(v, w, h)
  {
    hide Shrinks, Received, Shares;
    var blend := Blends(v, w, h, sx, sy);
    SumSwap(blend, m, n);
    // columns first: each output column keeps what its rows received
    forall k | 0 <= k < h ensures Given(Shares(sy), k, n) == 1.0 { CellGivesArea(k, sy, h, n); }
    forall k | 0 <= k < w ensures Given(Shares(sx), k, m) == 1.0 { CellGivesArea(k, sx, w, m); }
    var received := (x, yy) => RowReceived(v, w, sx, x)(yy);
    var columns, kept := x => Sum(y => blend(x, y), 0, n), x => Sum(yy => received(x, yy), 0, h);
    forall x | 0 <= x < m ensures columns(x) == kept(x) {
      SpreadKeepsTotal(RowReceived(v, w, sx, x), Shares(sy), h, n);
      SumEqual(y => Received(RowReceived(v, w, sx, x), Shares(sy), h, y), y => blend(x, y), 0, n);
      SumEqual(RowReceived(v, w, sx, x), yy => received(x, yy), 0, h);
    }
    SumEqual(columns, kept, 0, m);
    // then rows: each source row is spread over the columns
    SumSwap(received, m, h);
    var rows, sources := yy => Sum(x => received(x, yy), 0, m), yy => Sum(RowOf(v, yy), 0, w);
    forall yy | 0 <= yy < h ensures rows(yy) == sources(yy) {
      var f := RowOf(v, yy);
      SpreadKeepsTotal(f, Shares(sx), w, m);
      var spread, along := x => Received(f, Shares(sx), w, x), x => received(x, yy);
      forall x | 0 <= x < m ensures spread(x) == along(x) {
        assert along(x) == received(x, yy) == RowReceived(v, w, sx, x)(yy);
      }
      SumEqual(spread, along, 0, m);
    }
    SumEqual(rows, sources, 0, h);
    // the left-hand side, row by row
    var lines, outputs := y => Sum(x => blend(x, y), 0, m), y => Sum(RowOf(blend, y), 0, m);
    forall y | 0 <= y < n ensures lines(y) == outputs(y) {
      SumEqual(x => blend(x, y), RowOf(blend, y), 0, m);
    }
    SumEqual(lines, outputs, 0, n);
  }

  // ---------------------------------------------------------------- whole pictures

  ghost predicate FairPixel(p: Pixel) { 0.0 <= p.a <= 1.0 }

  ghost predicate FairImage(img: Image)
    requires Rectangular(img)
  {
    forall x, y :: In(img, x, y) ==> FairPixel(At(img, x, y))
  }

  ghost predicate Uniform(img: Image, p: Pixel)
    requires Rectangular(img)
  {
    forall x, y :: In(img, x, y) ==> At(img, x, y) == p
  }

  lemma ScaleShrinks(n: nat, m: nat)
    requires 0 < m <= n
    ensures n as real / m as real >= 1.0 && Shrinks(n, m, n as real / m as real)
  {
    Quotient(n as real, m as real);
  }

  lemma ScaleEnlarges(n: nat, m: nat)
    requires 0 < m && n < m
    ensures n as real / m as real < 1.0
  {
  }

  /** A cell inside the picture, read as far as it goes. */
  ghost predicate CellInside(img: Image, c: Cell) {
    0.0 <= c.left < c.right <= img.width as real && 0.0 <= c.top < c.bottom <= img.height as real && c.area > 0.0
  }

  lemma CellIsInside(img: Image, width: nat, height: nat, x: int, y: int)
    requires 0 < width <= img.width && 0 < height <= img.height && 0 <= x < width && 0 <= y < height
    ensures CellInside(img, CellOf(x, y, img.width as real / width as real, img.height as real / height as real))
  {
    hide Edge;
    ScaleShrinks(img.width, width);
    ScaleShrinks(img.height, height);
    var sx, sy := img.width as real / width as real, img.height as real / height as real;
    Edges(x, width, sx);
    Edges(x + 1, width, sx);
    Edges(y, height, sy);
    Edges(y + 1, height, sy);
    PositiveProduct(sx, sy);
  }

  lemma PositiveProduct(a: real, b: real)
    requires a > 0.0 && b > 0.0
    ensures a * b > 0.0
  {
  }

  lemma PositiveWeight(img: Image, c: Cell, xx: int, yy: int)
    requires CellInside(img, c) && c.left.Floor <= xx < Past(c.right, img.width)
             && c.top.Floor <= yy < Past(c.bottom, img.height)
    ensures In(img, xx, yy) && BoxWeight(c, xx, yy) > 0.0
  {
    hide Overlap;
    ReadExactly(xx, c.left, c.right, img.width);
    ReadExactly(yy, c.top, c.bottom, img.height);
    PositiveProduct(Overlap(xx, c.left, c.right), Overlap(yy, c.top, c.bottom));
    var product := Overlap(xx, c.left, c.right) * Overlap(yy, c.top, c.bottom);
    assert product / c.area > 0.0;
  }

  /** Every sample of a shrunk pixel is a source pixel, with positive weight. */
  ghost predicate SamplesOf(t: Taps, img: Image)
    requires Rectangular(img)
  {
    && Paired(t)
    && forall i :: 0 <= i < |t.points| ==>
                     t.weights[i] > 0.0 && exists x, y :: In(img, x, y) && t.points[i] == At(img, x, y)
  }

  lemma SamplesAdd(t: Taps, img: Image, x: int, y: int, w: real)
    requires Rectangular(img) && SamplesOf(t, img) && In(img, x, y) && w > 0.0
    ensures SamplesOf(Add(t, Outside(img, x, y), w), img)
  {
    var u := Add(t, Outside(img, x, y), w);
    forall i | 0 <= i < |u.points|
      ensures u.weights[i] > 0.0 && exists x, y :: In(img, x, y) && u.points[i] == At(img, x, y)
    {
      if i == |t.points| {
        assert u.points[i] == At(img, x, y);
      } else {
        assert u.points[i] == t.points[i] && u.weights[i] == t.weights[i];
      }
    }
  }

  lemma SamplesJoin(t: Taps, u: Taps, img: Image)
    requires Rectangular(img) && SamplesOf(t, img) && SamplesOf(u, img)
    ensures SamplesOf(Join(t, u), img)
  {
    var v := Join(t, u);
    forall i | 0 <= i < |v.points|
      ensures v.weights[i] > 0.0 && exists x, y :: In(img, x, y) && v.points[i] == At(img, x, y)
    {
      var j := i - |t.points|;
      if j < 0 {
        assert v.points[i] == t.points[i] && v.weights[i] == t.weights[i];
      } else {
        assert v.points[i] == u.points[j] && v.weights[i] == u.weights[j];
      }
    }
  }

  lemma {:induction false} RowSamples(img: Image, c: Cell, yy: int, past: int)
    requires Rectangular(img) && CellInside(img, c)
    requires c.top.Floor <= yy < Past(c.bottom, img.height) && past <= Past(c.right, img.width)
    ensures SamplesOf(RowTaps(img, c, yy, past), img)
    decreases past - c.left.Floor
  {
    if past > c.left.Floor {
      hide BoxWeight, SamplesOf;
      RowSamples(img, c, yy, past - 1);
      PositiveWeight(img, c, past - 1, yy);
      SamplesAdd(RowTaps(img, c, yy, past - 1), img, past - 1, yy, BoxWeight(c, past - 1, yy));
    }
  }

  lemma {:induction false} BoxSamples(img: Image, c: Cell, past: int)
    requires Rectangular(img) && CellInside(img, c) && past <= Past(c.bottom, img.height)
    ensures SamplesOf(BoxTaps(img, c, past), img)
    decreases past - c.top.Floor
  {
    if past > c.top.Floor {
      hide SamplesOf, RowTaps;
      BoxSamples(img, c, past - 1);
      RowSamples(img, c, past - 1, Past(c.right, img.width));
      SamplesJoin(BoxTaps(img, c, past - 1), RowTaps(img, c, past - 1, Past(c.right, img.width)), img);
    }
  }

  /** In the shrinking branch the weights are positive and add up to one, and the totals are the blends. */
  lemma ShrunkTaps(img: Image, ch: Channel, width: nat, height: nat, x: int, y: int)
    requires Rectangular(img) && 0 < width <= img.width && 0 < height <= img.height && 0 <= x < width && 0 <= y < height
    ensures var sx, sy := img.width as real / width as real, img.height as real / height as real;
            var t := TapsAt(img, sx, sy, x, y);
            && SamplesOf(t, img) && Weight(t) == 1.0
            && sx * sy > 0.0
            && Total(ch, t) == 1.0 / (sx * sy) * Blend(AmountIn(img, ch), img.width, img.height, sx, sy, x, y)
  {
    hide Edge, BoxTaps, Blend, BoxSum, Total, Weight, SamplesOf, Shrinks, AmountIn, One;
    ScaleShrinks(img.width, width);
    ScaleShrinks(img.height, height);
    CellIsInside(img, width, height, x, y);
    var sx, sy := img.width as real / width as real, img.height as real / height as real;
    var c := CellOf(x, y, sx, sy);
    BoxSamples(img, c, Past(c.bottom, img.height));
    BoxTapsSum(img, ch, c, Past(c.bottom, img.height));
    BoxBlend(AmountIn(img, ch), x, y, sx, sy, img.width, img.height, width, height);
    WeightsAddUp(x, y, sx, sy, img.width, img.height, width, height);
  }

  lemma FairSamples(t: Taps, img: Image)
    requires Rectangular(img) && FairImage(img) && SamplesOf(t, img)
    ensures Fair(t)
  {
    forall i | 0 <= i < |t.points| ensures 0.0 <= t.points[i].a <= 1.0 && t.weights[i] >= 0.0 {
      var x, y :| In(img, x, y) && t.points[i] == At(img, x, y);
      assert FairPixel(At(img, x, y));
    }
  }

  /** What the resized picture holds of a channel at `x`, `y`. */
  ghost function ResizedAmount(img: Image, ch: Channel, width: nat, height: nat): (int, int) -> real
    requires Rectangular(img) && img.width > 0 && img.height > 0 && width > 0 && height > 0
  {
    (x, y) => if 0 <= x < width && 0 <= y < height then Amount(ch, ResizeAt(img, width, height, x, y)) else 0.0
  }

  lemma ShrunkAmount(img: Image, ch: Channel, width: nat, height: nat, x: int, y: int)
    requires Rectangular(img) && FairImage(img) && 0 < width <= img.width && 0 < height <= img.height
    requires img.width != width || img.height != height
    requires 0 <= x < width && 0 <= y < height
    ensures var sx, sy := img.width as real / width as real, img.height as real / height as real;
            sx * sy > 0.0
            && Amount(ch, ResizeAt(img, width, height, x, y))
               == 1.0 / (sx * sy) * Blend(AmountIn(img, ch), img.width, img.height, sx, sy, x, y)
  {
    hide TapsAt, Amount, Blend, WeightedStraight, Total, Weight, AmountIn, SamplesOf, Fair;
    ShrunkTaps(img, ch, width, height, x, y);
    var t := TapsAt(img, img.width as real / width as real, img.height as real / height as real, x, y);
    FairSamples(t, img);
    MeanAmount(ch, t);
  }

  lemma {:induction false} TableScale(f: (int, int) -> real, k: real, g: (int, int) -> real, w: int, h: int)
    requires forall x, y :: 0 <= x < w && 0 <= y < h ==> g(x, y) == k * f(x, y)
    ensures TableTotal(g, w, h) == k * TableTotal(f, w, h)
  {
    var fs, gs := yy => Sum(RowOf(f, yy), 0, w), yy => Sum(RowOf(g, yy), 0, w);
    forall yy | 0 <= yy < h ensures gs(yy) == k * fs(yy) {
      SumScale(RowOf(f, yy), k, RowOf(g, yy), 0, w);
    }
    SumScale(fs, k, gs, 0, h);
  }

  /** How many source pixels one output pixel covers. */
  ghost function CellArea(img: Image, width: nat, height: nat): real
    requires width > 0 && height > 0
  {
    (img.width as real / width as real) * (img.height as real / height as real)
  }

  /** The blends of all output pixels, for the scales that fit the two sizes. */
  ghost function BlendsOf(img: Image, ch: Channel, width: nat, height: nat): (int, int) -> real
    requires Rectangular(img) && width > 0 && height > 0
  {
    Blends(AmountIn(img, ch), img.width, img.height, img.width as real / width as real,
           img.height as real / height as real)
  }

  lemma ShrunkEntry(img: Image, ch: Channel, width: nat, height: nat, x: int, y: int)
    requires Rectangular(img) && FairImage(img) && 0 < width <= img.width && 0 < height <= img.height
    requires img.width != width || img.height != height
    requires 0 <= x < width && 0 <= y < height
    ensures CellArea(img, width, height) > 0.0
    ensures ResizedAmount(img, ch, width, height)(x, y)
            == 1.0 / CellArea(img, width, height) * BlendsOf(img, ch, width, height)(x, y)
  {
    hide ResizedAmount, BlendsOf, Amount, Blend, ResizeAt, AmountIn, FairImage;
    ShrunkAmount(img, ch, width, height, x, y);
    ResizedAmountAt(img, ch, width, height, x, y);
    BlendsOfAt(img, ch, width, height, x, y);
  }

  lemma ResizedAmountAt(img: Image, ch: Channel, width: nat, height: nat, x: int, y: int)
    requires Rectangular(img) && img.width > 0 && img.height > 0 && 0 <= x < width && 0 <= y < height
    ensures ResizedAmount(img, ch, width, height)(x, y) == Amount(ch, ResizeAt(img, width, height, x, y))
  {
  }

  lemma BlendsOfAt(img: Image, ch: Channel, width: nat, height: nat, x: int, y: int)
    requires Rectangular(img) && width > 0 && height > 0
    ensures BlendsOf(img, ch, width, height)(x, y)
            == Blend(AmountIn(img, ch), img.width, img.height,
                     img.width as real / width as real, img.height as real / height as real, x, y)
  {
  }

  lemma BlendsConserve(img: Image, ch: Channel, width: nat, height: nat)
    requires Rectangular(img) && 0 < width <= img.width && 0 < height <= img.height
    ensures TableTotal(BlendsOf(img, ch, width, height), width, height)
            == TableTotal(AmountIn(img, ch), img.width, img.height)
  {
    hide TableTotal, Shrinks;
    ScaleShrinks(img.width, width);
    ScaleShrinks(img.height, height);
    BlendConserves(AmountIn(img, ch), img.width as real / width as real, img.height as real / height as real,
                   img.width, img.height, width, height);
  }

  lemma ShrunkConserves(img: Image, ch: Channel, width: nat, height: nat)
    requires Rectangular(img) && FairImage(img) && 0 < width <= img.width && 0 < height <= img.height
    requires img.width != width || img.height != height
    ensures CellArea(img, width, height) > 0.0
    ensures TableTotal(ResizedAmount(img, ch, width, height), width, height)
            == 1.0 / CellArea(img, width, height) * TableTotal(AmountIn(img, ch), img.width, img.height)
  {
    hide TableTotal, CellArea, BlendsOf, ResizedAmount, AmountIn, FairImage;
    ShrunkEntry(img, ch, width, height, 0, 0);
    BlendsConserve(img, ch, width, height);
    var out, blends := ResizedAmount(img, ch, width, height), BlendsOf(img, ch, width, height);
    var k := 1.0 / CellArea(img, width, height);
    forall x, y | 0 <= x < width && 0 <= y < height ensures out(x, y) == k * blends(x, y) {
      ShrunkEntry(img, ch, width, height, x, y);
    }
    TableScale(blends, k, out, width, height);
  }

  lemma SelfRatio(a: real)
    requires a != 0.0
    ensures a / a == 1.0
  {
  }

  /**
   Shrinking conserves light: for alpha and for each alpha-weighted colour, the total over the
   resized picture times the cell area is the total over the source.
   */
  lemma ShrinkingConserves(img: Image, ch: Channel, width: nat, height: nat)
    requires Rectangular(img) && FairImage(img) && 0 < width <= img.width && 0 < height <= img.height
    ensures TableTotal(ResizedAmount(img, ch, width, height), width, height) * CellArea(img, width, height)
            == TableTotal(AmountIn(img, ch), img.width, img.height)
  {
    hide TableTotal;
    if img.width == width && img.height == height {
      var out, v := ResizedAmount(img, ch, width, height), AmountIn(img, ch);
      forall x, y | 0 <= x < width && 0 <= y < height ensures out(x, y) == 1.0 * v(x, y) {
        SameSize(img, width, height, x, y);
      }
      TableScale(v, 1.0, out, width, height);
      SelfRatio(width as real);
      SelfRatio(height as real);
      assert CellArea(img, width, height) == 1.0;
    } else {
      hide CellArea;
      ShrunkConserves(img, ch, width, height);
      ScaledBack(TableTotal(AmountIn(img, ch), img.width, img.height), CellArea(img, width, height));
    }
  }

  lemma ScaledBack(t: real, a: real)
    requires a != 0.0
    ensures 1.0 / a * t * a == t
  {
    Quotient(1.0, a);
    assert 1.0 / a * t * a == 1.0 / a * a * t;
  }

  lemma SameSize(img: Image, width: nat, height: nat, x: int, y: int)
    requires Rectangular(img) && img.width == width > 0 && img.height == height > 0 && 0 <= x < width && 0 <= y < height
    ensures ResizeAt(img, width, height, x, y) == Outside(img, x, y)
  {
  }

  lemma CornerWeightsAddUp(img: Image, u: real, v: real)
    requires Rectangular(img) && img.width > 0 && img.height > 0
    ensures Weight(CornerTaps(img, u, v)) == 1.0
    ensures forall i :: 0 <= i < 4 ==> CornerTaps(img, u, v).weights[i] >= 0.0
  {
    hide Weight;
    var f, g := u - u.Floor as real, v - v.Floor as real;
    var t := CornerTaps(img, u, v);
    CornerWeightProducts(u, v);
    ProductsOfFractions(f, g);
    WeightOfFour(t);
  }

  lemma CornerWeightProducts(u: real, v: real)
    ensures var f, g := u - u.Floor as real, v - v.Floor as real;
            && 0.0 <= f <= 1.0 && 0.0 <= g <= 1.0
            && CornerWeight(u, v, 0, 0) == (1.0 - f) * (1.0 - g) && CornerWeight(u, v, 1, 0) == f * (1.0 - g)
            && CornerWeight(u, v, 0, 1) == (1.0 - f) * g && CornerWeight(u, v, 1, 1) == f * g
  {
  }

  lemma Fraction(a: real, b: real)
    requires 0.0 <= a && 0.0 <= b
    ensures a * b >= 0.0
  {
  }

  lemma ProductsOfFractions(f: real, g: real)
    requires 0.0 <= f <= 1.0 && 0.0 <= g <= 1.0
    ensures (1.0 - f) * (1.0 - g) >= 0.0 && f * (1.0 - g) >= 0.0 && (1.0 - f) * g >= 0.0 && f * g >= 0.0
    ensures (1.0 - f) * (1.0 - g) + f * (1.0 - g) + (1.0 - f) * g + f * g == 1.0
  {
    Fraction(1.0 - f, 1.0 - g);
    Fraction(f, 1.0 - g);
    Fraction(1.0 - f, g);
    Fraction(f, g);
  }

  lemma WeightOfFour(t: Taps)
    requires Paired(t) && |t.points| == 4
    ensures Weight(t) == t.weights[0] + t.weights[1] + t.weights[2] + t.weights[3]
  {
    var a := Taps(t.points[..3], t.weights[..3]);
    var b := Taps(a.points[..2], a.weights[..2]);
    var c := Taps(b.points[..1], b.weights[..1]);
    assert Weight(c) == c.weights[0] by { assert Weight(Taps(c.points[..0], c.weights[..0])) == 0.0; }
    assert Weight(b) == Weight(c) + b.weights[1];
    assert Weight(a) == Weight(b) + a.weights[2];
  }

  /** Shrunk or enlarged, a picture of one visible colour stays that colour everywhere. */
  lemma UniformStays(img: Image, p: Pixel, width: nat, height: nat, x: int, y: int)
    requires Rectangular(img) && img.width > 0 && img.height > 0 && Uniform(img, p) && 0.0 < p.a <= 1.0
    requires 0 <= x < width && 0 <= y < height
    ensures ResizeAt(img, width, height, x, y) == p
  {
    hide Weight, Total, WeightedStraight;
    if img.width == width && img.height == height {
      SameSize(img, width, height, x, y);
    } else {
      var sx, sy := img.width as real / width as real, img.height as real / height as real;
      var t := TapsAt(img, sx, sy, x, y);
      UniformTaps(img, p, width, height, x, y);
      ConstantMean(t, p);
    }
  }

  lemma UniformTaps(img: Image, p: Pixel, width: nat, height: nat, x: int, y: int)
    requires Rectangular(img) && img.width > 0 && img.height > 0 && Uniform(img, p)
    requires 0 <= x < width && 0 <= y < height
    ensures var t := TapsAt(img, img.width as real / width as real, img.height as real / height as real, x, y);
            Weight(t) == 1.0 && forall i :: 0 <= i < |t.points| ==> t.points[i] == p
  {
    hide Weight, TapsAt, SamplesOf, Uniform;
    var sx, sy := img.width as real / width as real, img.height as real / height as real;
    if width <= img.width && height <= img.height {
      ShrunkTaps(img, Alpha, width, height, x, y);
      SamplesUniform(TapsAt(img, sx, sy, x, y), img, p);
    } else {
      if width > img.width { ScaleEnlarges(img.width, width); } else { ScaleEnlarges(img.height, height); }
      EnlargedUniform(img, p, sx, sy, x, y);
    }
  }

  lemma EnlargedUniform(img: Image, p: Pixel, sx: real, sy: real, x: int, y: int)
    requires Rectangular(img) && img.width > 0 && img.height > 0 && Uniform(img, p)
    requires sx < 1.0 || sy < 1.0
    ensures Weight(TapsAt(img, sx, sy, x, y)) == 1.0
    ensures forall i :: 0 <= i < |TapsAt(img, sx, sy, x, y).points| ==> TapsAt(img, sx, sy, x, y).points[i] == p
  {
    hide Weight, CornerTaps;
    var u, v := (x as real + 0.5) * sx - 0.5, (y as real + 0.5) * sy - 0.5;
    CornerWeightsAddUp(img, u, v);
    CornersUniform(img, p, u, v);
  }

  lemma CornersUniform(img: Image, p: Pixel, u: real, v: real)
    requires Rectangular(img) && img.width > 0 && img.height > 0 && Uniform(img, p)
    ensures |CornerTaps(img, u, v).points| == 4
    ensures forall i :: 0 <= i < 4 ==> CornerTaps(img, u, v).points[i] == p
  {
    hide CornerWeight;
  }

  lemma SamplesUniform(t: Taps, img: Image, p: Pixel)
    requires Rectangular(img) && Uniform(img, p) && SamplesOf(t, img)
    ensures forall i :: 0 <= i < |t.points| ==> t.points[i] == p
  {
    forall i | 0 <= i < |t.points| ensures t.points[i] == p {
      assert t.weights[i] > 0.0;
      var x, y :| In(img, x, y) && t.points[i] == At(img, x, y);
    }
  }
}
