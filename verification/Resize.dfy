/** Shrinking by exact area weights, enlarging by bilinear ones, both on alpha-weighted colour. */
module Resize {
  import opened Pixels
  import opened Reals
  import opened Sums

  // ---------------------------------------------------------------- one dimension

  /** Where output cell `x` starts, for output cells of width `s`. */
  function Edge(x: int, s: real): real { x as real * s }

  /** The length that cell `[k, k + 1]` and the stretch from `left` to `right` have in common, negative when apart. */
  function Overlap(k: int, left: real, right: real): real { Min(k as real + 1.0, right) - Max(k as real, left) }

  /** The source cells below `n` that are read for a stretch: `left.Floor` up to `Past`. */
  function Past(right: real, n: nat): int { if Ceil(right) < n then Ceil(right) else n }

  /** The overlap, and nothing for cells that are not read. */
  ghost function Share(k: int, x: int, s: real): real { Max(0.0, Overlap(k, Edge(x, s), Edge(x + 1, s))) }

  /** `m` output cells of width `s`, none narrower than a source cell, cover `n` source cells exactly. */
  ghost predicate Shrinks(n: nat, m: nat, s: real) { 0 < m && s >= 1.0 && Edge(m, s) == n as real }

  lemma Edges(x: int, m: int, s: real)
    requires 0 <= x <= m && s >= 0.0
    ensures Edge(0, s) == 0.0 && Edge(x + 1, s) == Edge(x, s) + s
    ensures 0.0 <= Edge(x, s) <= Edge(m, s)
  {
  }

  /** A read cell has positive weight, and a cell that is not read has none. */
  lemma ReadExactly(k: int, left: real, right: real, n: nat)
    requires 0.0 <= left < right <= n as real && 0 <= k < n
    ensures 0 <= left.Floor < Past(right, n) <= n
    ensures left.Floor <= k < Past(right, n) ==> Overlap(k, left, right) > 0.0
    ensures !(left.Floor <= k < Past(right, n)) ==> Overlap(k, left, right) <= 0.0
  {
    if k < left.Floor { assert k as real + 1.0 <= left; }
    if Past(right, n) <= k { assert right <= k as real; }
  }

  /** Adding the next unit cell extends the covered part of a stretch, or of the axis, by one overlap. */
  lemma Extend(u: int, left: real, right: real)
    requires 0 <= u && 0.0 <= left <= right
    ensures Max(0.0, Min(u as real, right) - left) + Max(0.0, Overlap(u, left, right))
            == Max(0.0, Min(u as real + 1.0, right) - left)
  {
  }

  lemma ExtendCell(k: int, left: real, right: real)
    requires 0 <= k && 0.0 <= left <= right
    ensures Max(0.0, Min(k as real + 1.0, left) - k as real) + Max(0.0, Overlap(k, left, right))
            == Max(0.0, Min(k as real + 1.0, right) - k as real)
  {
  }

  lemma {:induction false} SharesOfStretch(left: real, right: real, upto: nat)
    requires 0.0 <= left <= right
    ensures Sum(k => Max(0.0, Overlap(k, left, right)), 0, upto) == Max(0.0, Min(upto as real, right) - left)
  {
    if upto > 0 {
      SharesOfStretch(left, right, upto - 1);
      Extend(upto - 1, left, right);
    }
  }

  /** The weights an output cell reads add up to its width. */
  lemma SharesOfOutput(x: int, s: real, n: nat, m: nat)
    requires Shrinks(n, m, s) && 0 <= x < m
    ensures Sum(k => Share(k, x, s), 0, n) == s
  {
    hide Edge;
    Edges(x, m, s);
    Edges(x + 1, m, s);
    var left, right := Edge(x, s), Edge(x + 1, s);
    SharesOfStretch(left, right, n);
    SumEqual(k => Max(0.0, Overlap(k, left, right)), k => Share(k, x, s), 0, n);
  }

  lemma {:induction false} SharesOfCell(k: int, s: real, upto: nat)
    requires 0 <= k && s >= 0.0
    ensures Sum(x => Share(k, x, s), 0, upto) == Max(0.0, Min(k as real + 1.0, Edge(upto, s)) - k as real)
  {
    hide Edge;
    Edges(0, 0, s);
    if upto > 0 {
      SharesOfCell(k, s, upto - 1);
      Edges(upto - 1, upto, s);
      ExtendCell(k, Edge(upto - 1, s), Edge(upto, s));
    }
  }

  /** A source cell is divided among the output cells without loss. */
  lemma SharesOfSource(k: int, s: real, n: nat, m: nat)
    requires Shrinks(n, m, s) && 0 <= k < n
    ensures Sum(x => Share(k, x, s), 0, m) == 1.0
  {
    hide Edge;
    SharesOfCell(k, s, m);
  }

  // ---------------------------------------------------------------- the weighted samples of one output pixel

  datatype Taps = Taps(points: seq<Pixel>, weights: seq<real>)

  const NO_TAPS := Taps([], [])

  predicate Paired(t: Taps) { |t.points| == |t.weights| }

  function Add(t: Taps, p: Pixel, w: real): Taps { Taps(t.points + [p], t.weights + [w]) }

  function Join(t: Taps, u: Taps): Taps { Taps(t.points + u.points, t.weights + u.weights) }

  /** The stretch of the source that one output cell covers. */
  datatype Cell = Cell(left: real, right: real, top: real, bottom: real, area: real)

  function CellOf(x: int, y: int, sx: real, sy: real): Cell {
    Cell(Edge(x, sx), Edge(x + 1, sx), Edge(y, sy), Edge(y + 1, sy), sx * sy)
  }

  function BoxWeight(c: Cell, xx: int, yy: int): real
    requires c.area != 0.0
  {
    Overlap(xx, c.left, c.right) * Overlap(yy, c.top, c.bottom) / c.area
  }

  ghost function RowTaps(img: Image, c: Cell, yy: int, past: int): (t: Taps)
    requires Rectangular(img) && c.area != 0.0
    ensures Paired(t)
    decreases past - c.left.Floor
  {
    if past <= c.left.Floor then NO_TAPS
    else Add(RowTaps(img, c, yy, past - 1), Outside(img, past - 1, yy), BoxWeight(c, past - 1, yy))
  }

  ghost function BoxTaps(img: Image, c: Cell, past: int): (t: Taps)
    requires Rectangular(img) && c.area != 0.0
    ensures Paired(t)
    decreases past - c.top.Floor
  {
    if past <= c.top.Floor then NO_TAPS
    else Join(BoxTaps(img, c, past - 1), RowTaps(img, c, past - 1, Past(c.right, img.width)))
  }

  ghost function Corner(img: Image, u: real, v: real, dx: int, dy: int): Pixel
    requires Rectangular(img) && img.width > 0 && img.height > 0
  {
    Clamped(img, u.Floor + dx, v.Floor + dy)
  }

  ghost function CornerTaps(img: Image, u: real, v: real): (t: Taps)
    requires Rectangular(img) && img.width > 0 && img.height > 0
    ensures Paired(t)
  {
    Taps([Corner(img, u, v, 0, 0), Corner(img, u, v, 1, 0), Corner(img, u, v, 0, 1), Corner(img, u, v, 1, 1)],
         CornerWeights(u, v))
  }

  /** The samples and weights of output pixel `x`, `y`. */
  ghost function TapsAt(img: Image, sx: real, sy: real, x: int, y: int): (t: Taps)
    requires Rectangular(img) && img.width > 0 && img.height > 0
    ensures Paired(t)
  {
    if sx >= 1.0 && sy >= 1.0 then
      assert sx * sy > 0.0;
      var c := CellOf(x, y, sx, sy);
      BoxTaps(img, c, Past(c.bottom, img.height))
    else CornerTaps(img, (x as real + 0.5) * sx - 0.5, (y as real + 0.5) * sy - 0.5)
  }

  ghost function ResizeAt(img: Image, width: nat, height: nat, x: int, y: int): Pixel
    requires Rectangular(img) && img.width > 0 && img.height > 0 && width > 0 && height > 0
    requires 0 <= x < width && 0 <= y < height
  {
    if img.width == width && img.height == height then At(img, x, y)
    else
      var t := TapsAt(img, img.width as real / width as real, img.height as real / height as real, x, y);
      WeightedStraight(t.points, t.weights)
  }

  method GatherBoxRow(src: array2<Pixel>, c: Cell, yy: int, above: Taps) returns (t: Taps)
    requires c.area != 0.0 && 0.0 <= c.left && 0 <= yy < src.Length0 && Paired(above)
    ensures t == Join(above, RowTaps(View(src), c, yy, Past(c.right, src.Length1)))
  {
    hide BoxWeight;
    t := above;
    if c.left.Floor < Past(c.right, src.Length1) {
      for xx := c.left.Floor to Past(c.right, src.Length1)
        invariant t == Join(above, RowTaps(View(src), c, yy, xx))
      {
        t := Add(t, src[yy, xx], BoxWeight(c, xx, yy));
      }
    }
  }

  method GatherBox(src: array2<Pixel>, c: Cell) returns (t: Taps)
    requires c.area != 0.0 && 0.0 <= c.left && 0.0 <= c.top
    ensures t == BoxTaps(View(src), c, Past(c.bottom, src.Length0))
  {
    hide RowTaps;
    t := NO_TAPS;
    if c.top.Floor < Past(c.bottom, src.Length0) {
      for yy := c.top.Floor to Past(c.bottom, src.Length0)
        invariant Paired(t) && t == BoxTaps(View(src), c, yy)
      {
        t := GatherBoxRow(src, c, yy, t);
      }
    }
  }

  method GatherCorners(src: array2<Pixel>, u: real, v: real) returns (t: Taps)
    requires src.Length0 > 0 && src.Length1 > 0
    ensures t == CornerTaps(View(src), u, v)
  {
    hide CornerWeight, Corner;
    t := NO_TAPS;
    ghost var all := CornerTaps(View(src), u, v);
    for dy := 0 to 2
      invariant t == Taps(all.points[..2 * dy], all.weights[..2 * dy])
    {
      for dx := 0 to 2
        invariant t == Taps(all.points[..2 * dy + dx], all.weights[..2 * dy + dx])
      {
        var p := ClampedSample(src, u, v, dx, dy);
        t := Add(t, p, CornerWeight(u, v, dx, dy));
      }
    }
  }

  method ClampedSample(src: array2<Pixel>, u: real, v: real, dx: int, dy: int) returns (p: Pixel)
    requires src.Length0 > 0 && src.Length1 > 0
    ensures p == Corner(View(src), u, v, dx, dy)
  {
    p := src[Clamp(v.Floor + dy, src.Length0), Clamp(u.Floor + dx, src.Length1)];
  }

  method GatherTaps(src: array2<Pixel>, sx: real, sy: real, x: int, y: int) returns (t: Taps)
    requires src.Length0 > 0 && src.Length1 > 0 && 0 <= x && 0 <= y
    ensures t == TapsAt(View(src), sx, sy, x, y)
  {
    hide Edge, BoxWeight, BoxTaps, Past;
    if sx >= 1.0 && sy >= 1.0 {
      assert sx * sy > 0.0;
      Edges(x, x, sx);
      Edges(y, y, sy);
      t := GatherBox(src, CellOf(x, y, sx, sy));
    } else {
      t := GatherCorners(src, (x as real + 0.5) * sx - 0.5, (y as real + 0.5) * sy - 0.5);
    }
  }

  method ResizedPixel(src: array2<Pixel>, width: nat, height: nat, x: int, y: int) returns (p: Pixel)
    requires src.Length0 > 0 && src.Length1 > 0 && 0 <= x < width && 0 <= y < height
    requires src.Length1 != width || src.Length0 != height
    ensures p == ResizeAt(View(src), width, height, x, y)
  {
    hide TapsAt, WeightedStraight;
    var t := GatherTaps(src, src.Length1 as real / width as real, src.Length0 as real / height as real, x, y);
    p := WeightedStraight(t.points, t.weights);
  }

  method Resize(src: array2<Pixel>, width: nat, height: nat) returns (out: array2<Pixel>)
    requires src.Length0 > 0 && src.Length1 > 0 && width > 0 && height > 0
    ensures fresh(out) && out.Length0 == height && out.Length1 == width
    ensures forall y, x :: 0 <= y < height && 0 <= x < width ==> out[y, x] == ResizeAt(View(src), width, height, x, y)
  {
    if src.Length1 == width && src.Length0 == height {
      out := new Pixel[height, width](
        (y, x) requires 0 <= y < src.Length0 && 0 <= x < src.Length1 reads src => src[y, x]);
      return;
    }
    out := ResizeAll(src, width, height);
  }

  method ResizeAll(src: array2<Pixel>, width: nat, height: nat) returns (out: array2<Pixel>)
    requires src.Length0 > 0 && src.Length1 > 0 && width > 0 && height > 0
    requires src.Length1 != width || src.Length0 != height
    ensures fresh(out) && out.Length0 == height && out.Length1 == width
    ensures forall y, x :: 0 <= y < height && 0 <= x < width ==> out[y, x] == ResizeAt(View(src), width, height, x, y)
  {
    hide ResizeAt;
    ghost var img := View(src);
    out := new Pixel[height, width]((y, x) => CLEAR);
    for y := 0 to height
      invariant View(src) == img
      invariant forall v, u :: 0 <= v < y && 0 <= u < width ==> out[v, u] == ResizeAt(img, width, height, u, v)
    {
      for x := 0 to width
        invariant View(src) == img
        invariant forall v, u :: 0 <= v < y && 0 <= u < width ==> out[v, u] == ResizeAt(img, width, height, u, v)
        invariant forall u :: 0 <= u < x ==> out[y, u] == ResizeAt(img, width, height, u, y)
      {
        out[y, x] := ResizedPixel(src, width, height, x, y);
      }
    }
  }
}
