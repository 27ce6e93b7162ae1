/**
 The whole-image reference: white balance, denoise, tone, crop or rotate, sharpen. Per-pixel colour
 maths and the trigonometry of an angle are parameters; neighbourhoods, borders and weights are not.
 */
module Render {
  import opened Results
  import opened Pixels
  import opened Reals

  datatype Crop = Crop(left: real, top: real, right: real, bottom: real)

  datatype Settings = Settings(luminance: real, chroma: real, crop: Option<Crop>, straighten: real,
                               amount: real, radiusPx: real)

  /** `balance` and `tone` are the per-pixel colour stages of one recipe; `linear` decodes the fixture profile. */
  datatype Maths = Maths(linear: Pixel -> Pixel, balance: Pixel -> Pixel, tone: Pixel -> Pixel,
                         cos: real -> real, sin: real -> real)

  /** The ranges the recipe schema admits. */
  predicate Admitted(s: Settings) {
    && 0.0 <= s.luminance && 0.0 <= s.chroma && 0.0 <= s.radiusPx
    && (s.crop.Some? ==>
          var c := s.crop.value;
          0.0 <= c.left <= 1.0 && 0.0 <= c.top <= 1.0 && 0.0 <= c.right <= 1.0 && 0.0 <= c.bottom <= 1.0)
  }

  // ---------------------------------------------------------------- denoise

  function Luma(p: Pixel): real { 0.2126 * p.r + 0.7152 * p.g + 0.0722 * p.b }

  function Tolerance(s: Settings, level: real): (t: real)
    requires Admitted(s)
    ensures t >= 0.03
  {
    var strength := if s.luminance >= s.chroma then s.luminance else s.chroma;
    assert (Abs(level) + 0.18) * strength >= 0.0;
    0.03 + 0.25 * ((Abs(level) + 0.18) * strength)
  }

  /** Neighbours of like luminance weigh most. */
  function Similarity(p: Pixel, level: real, tolerance: real): real
    requires tolerance >= 0.03
  {
    var d := (Luma(p) - level) / tolerance;
    assert d * d >= 0.0;
    1.0 / (1.0 + d * d)
  }

  function Similarities(points: seq<Pixel>, level: real, tolerance: real): (w: seq<real>)
    requires tolerance >= 0.03
    ensures |w| == |points|
  {
    if points == [] then []
    else Similarities(points[..|points| - 1], level, tolerance) + [Similarity(points[|points| - 1], level, tolerance)]
  }

  /** `nine` is the clamped neighbourhood of `p`, row by row. */
  function DenoisePixel(s: Settings, p: Pixel, nine: seq<Pixel>): Pixel
    requires Admitted(s)
  {
    if p.a == 0.0 then p
    else
      var level := Luma(p);
      var m := Moment(nine, Similarities(nine, level, Tolerance(s, level)));
      if m.a == 0.0 then p
      else
        Smoothed(s, p, Pixel(m.r / m.a, m.g / m.a, m.b / m.a, p.a))
  }

  /** From `a` a share of the way to `b`. */
  function Blend(a: real, b: real, share: real): real { a + (b - a) * share }

  /** A pixel taken towards the mean of its neighbourhood, in luminance and in colour. */
  function Smoothed(s: Settings, p: Pixel, mean: Pixel): Pixel {
    var level, meanY := Luma(p), Luma(mean);
    var y := Blend(level, meanY, s.luminance);
    Pixel(y + Blend(p.r - level, mean.r - meanY, s.chroma), y + Blend(p.g - level, mean.g - meanY, s.chroma),
          y + Blend(p.b - level, mean.b - meanY, s.chroma), p.a)
  }

  predicate Denoises(s: Settings) { s.luminance != 0.0 || s.chroma != 0.0 }

  /** Clamped samples at horizontal offsets `from` up to `past` from column `x`. */
  ghost function WindowRow(img: Image, x: int, y: int, from: int, past: int): seq<Pixel>
    requires Rectangular(img) && img.width > 0 && img.height > 0
    decreases past - from
  {
    if past <= from then [] else WindowRow(img, x, y, from, past - 1) + [Clamped(img, x + past - 1, y)]
  }

  /** The rows of a square window, from the top up to vertical offset `past`. */
  ghost function WindowRows(img: Image, x: int, y: int, radius: int, past: int): seq<Pixel>
    requires Rectangular(img) && img.width > 0 && img.height > 0
    decreases past + radius
  {
    if past <= -radius then []
    else WindowRows(img, x, y, radius, past - 1) + WindowRow(img, x, y + past - 1, -radius, radius + 1)
  }

  ghost function Neighbourhood(img: Image, x: int, y: int): seq<Pixel>
    requires Rectangular(img) && img.width > 0 && img.height > 0
  {
    WindowRows(img, x, y, 1, 2)
  }

  ghost function DenoiseAt(img: Image, s: Settings, x: int, y: int): Pixel
    requires Rectangular(img) && In(img, x, y) && Admitted(s)
  {
    if Denoises(s) then DenoisePixel(s, At(img, x, y), Neighbourhood(img, x, y)) else At(img, x, y)
  }

  method Copy(src: array2<Pixel>) returns (out: array2<Pixel>)
    ensures fresh(out) && out.Length0 == src.Length0 && out.Length1 == src.Length1
    ensures forall y, x :: 0 <= y < out.Length0 && 0 <= x < out.Length1 ==> out[y, x] == src[y, x]
  {
    out := new Pixel[src.Length0, src.Length1](
      (y, x) requires 0 <= y < src.Length0 && 0 <= x < src.Length1 reads src => src[y, x]);
  }

  method GatherRow(src: array2<Pixel>, x: int, y: int, radius: int, before: seq<Pixel>) returns (points: seq<Pixel>)
    requires src.Length0 > 0 && src.Length1 > 0 && radius >= 0
    ensures points == before + WindowRow(View(src), x, y, -radius, radius + 1)
  {
    points := before;
    for dx := -radius to radius + 1
      invariant points == before + WindowRow(View(src), x, y, -radius, dx)
    {
      points := points + [src[Clamp(y, src.Length0), Clamp(x + dx, src.Length1)]];
    }
  }

  /** Gathers the clamped square neighbourhood, row by row. */
  method Gather(src: array2<Pixel>, x: int, y: int, radius: int) returns (points: seq<Pixel>)
    requires src.Length0 > 0 && src.Length1 > 0 && radius >= 0
    ensures points == WindowRows(View(src), x, y, radius, radius + 1)
  {
    points := [];
    for dy := -radius to radius + 1
      invariant points == WindowRows(View(src), x, y, radius, dy)
    {
      points := GatherRow(src, x, y + dy, radius, points);
    }
  }

  method DenoisedPixel(src: array2<Pixel>, s: Settings, x: int, y: int) returns (p: Pixel)
    requires Admitted(s) && Denoises(s) && 0 <= x < src.Length1 && 0 <= y < src.Length0
    ensures p == DenoiseAt(View(src), s, x, y)
  {
    var nine := Gather(src, x, y, 1);
    return DenoisePixel(s, src[y, x], nine);
  }

  method DenoiseAll(src: array2<Pixel>, s: Settings) returns (out: array2<Pixel>)
    requires Admitted(s) && Denoises(s)
    ensures fresh(out) && out.Length0 == src.Length0 && out.Length1 == src.Length1
    ensures forall y, x :: 0 <= y < out.Length0 && 0 <= x < out.Length1 ==> out[y, x] == DenoiseAt(View(src), s, x, y)
  {
    hide DenoiseAt;
    out := Copy(src);
    ghost var img := View(src);
    for y := 0 to src.Length0
      invariant View(src) == img
      invariant forall v, u :: 0 <= v < y && 0 <= u < out.Length1 ==> out[v, u] == DenoiseAt(img, s, u, v)
    {
      for x := 0 to src.Length1
        invariant View(src) == img
        invariant forall v, u :: 0 <= v < y && 0 <= u < out.Length1 ==> out[v, u] == DenoiseAt(img, s, u, v)
        invariant forall u :: 0 <= u < x ==> out[y, u] == DenoiseAt(img, s, u, y)
      {
        out[y, x] := DenoisedPixel(src, s, x, y);
      }
    }
  }

  method Denoise(src: array2<Pixel>, s: Settings) returns (out: array2<Pixel>)
    requires Admitted(s)
    ensures fresh(out) && out.Length0 == src.Length0 && out.Length1 == src.Length1
    ensures forall y, x :: 0 <= y < out.Length0 && 0 <= x < out.Length1 ==> out[y, x] == DenoiseAt(View(src), s, x, y)
  {
    if Denoises(s) { out := DenoiseAll(src, s); } else { out := Copy(src); }
  }

  // ---------------------------------------------------------------- geometry

  datatype Box = Box(left: int, top: int, right: int, bottom: int)

  /** Crop edges round to the nearest pixel, halves upward. */
  function Edge(fraction: real, size: nat): int { (fraction * (size as real) + 0.5).Floor }

  function CropBox(s: Settings, width: nat, height: nat): Box {
    var c := if s.crop.Some? then s.crop.value else Crop(0.0, 0.0, 1.0, 1.0);
    Box(Edge(c.left, width), Edge(c.top, height), Edge(c.right, width), Edge(c.bottom, height))
  }

  predicate Collapsed(box: Box) { box.right <= box.left || box.bottom <= box.top }

  lemma EdgeInside(fraction: real, size: nat)
    requires 0.0 <= fraction <= 1.0
    ensures 0 <= Edge(fraction, size) <= size
  {
    assert 0.0 <= fraction * (size as real) <= size as real;
  }

  lemma CropInside(s: Settings, width: nat, height: nat)
    requires Admitted(s)
    ensures var b := CropBox(s, width, height);
            0 <= b.left <= width && 0 <= b.right <= width && 0 <= b.top <= height && 0 <= b.bottom <= height
  {
    var c := if s.crop.Some? then s.crop.value else Crop(0.0, 0.0, 1.0, 1.0);
    EdgeInside(c.left, width);
    EdgeInside(c.right, width);
    EdgeInside(c.top, height);
    EdgeInside(c.bottom, height);
  }

  /** Where an output pixel of the rotated canvas comes from. */
  datatype Origin = Origin(x: real, y: real)

  function Rotated(s: Settings, m: Maths, width: nat, height: nat, x: int, y: int): Origin {
    var box := CropBox(s, width, height);
    var cos, sin := m.cos(s.straighten), m.sin(s.straighten);
    var cx, cy := (width as real - 1.0) / 2.0, (height as real - 1.0) / 2.0;
    var a, b := (x + box.left) as real - cx, (y + box.top) as real - cy;
    Origin(cos * a + sin * b + cx, -sin * a + cos * b + cy)
  }

  ghost function Corners(img: Image, o: Origin): seq<Pixel>
    requires Rectangular(img)
  {
    var ix, iy := o.x.Floor, o.y.Floor;
    [Outside(img, ix, iy), Outside(img, ix + 1, iy), Outside(img, ix, iy + 1), Outside(img, ix + 1, iy + 1)]
  }

  ghost function GeometryAt(img: Image, s: Settings, m: Maths, x: int, y: int): Pixel
    requires Rectangular(img)
  {
    var box := CropBox(s, img.width, img.height);
    if s.straighten == 0.0 then Outside(img, x + box.left, y + box.top)
    else
      var o := Rotated(s, m, img.width, img.height, x, y);
      WeightedStraight(Corners(img, o), CornerWeights(o.x, o.y))
  }

  lemma CornerAt(img: Image, o: Origin, dx: int, dy: int)
    requires Rectangular(img) && 0 <= dx < 2 && 0 <= dy < 2
    ensures |Corners(img, o)| == |CornerWeights(o.x, o.y)| == 4
    ensures Corners(img, o)[2 * dy + dx] == Outside(img, o.x.Floor + dx, o.y.Floor + dy)
    ensures CornerWeights(o.x, o.y)[2 * dy + dx] == CornerWeight(o.x, o.y, dx, dy)
  {
    hide CornerWeight, Outside;
  }

  method RotatedPixel(src: array2<Pixel>, s: Settings, m: Maths, x: int, y: int) returns (p: Pixel)
    requires s.straighten != 0.0
    ensures p == GeometryAt(View(src), s, m, x, y)
  {
    hide Corners, CornerWeights, CornerWeight, WeightedStraight, Rotated;
    var o := Rotated(s, m, src.Length1, src.Length0, x, y);
    var ix, iy := o.x.Floor, o.y.Floor;
    var points, weights := [], [];
    CornerAt(View(src), o, 0, 0);
    for dy := 0 to 2
      invariant |points| == 2 * dy
      invariant points == Corners(View(src), o)[..2 * dy] && weights == CornerWeights(o.x, o.y)[..2 * dy]
    {
      for dx := 0 to 2
        invariant points == Corners(View(src), o)[..2 * dy + dx] && weights == CornerWeights(o.x, o.y)[..2 * dy + dx]
      {
        CornerAt(View(src), o, dx, dy);
        var inside := 0 <= iy + dy < src.Length0 && 0 <= ix + dx < src.Length1;
        points := points + [if inside then src[iy + dy, ix + dx] else CLEAR];
        weights := weights + [CornerWeight(o.x, o.y, dx, dy)];
      }
    }
    assert points == Corners(View(src), o) && weights == CornerWeights(o.x, o.y);
    p := WeightedStraight(points, weights);
  }

  method TurnAll(src: array2<Pixel>, s: Settings, m: Maths, width: nat, height: nat) returns (out: array2<Pixel>)
    requires s.straighten != 0.0
    ensures fresh(out) && out.Length0 == height && out.Length1 == width
    ensures forall y, x :: 0 <= y < height && 0 <= x < width ==> out[y, x] == GeometryAt(View(src), s, m, x, y)
  {
    hide GeometryAt;
    ghost var img := View(src);
    out := new Pixel[height, width]((y, x) => CLEAR);
    for y := 0 to height
      invariant View(src) == img
      invariant forall v, u :: 0 <= v < y && 0 <= u < width ==> out[v, u] == GeometryAt(img, s, m, u, v)
    {
      for x := 0 to width
        invariant View(src) == img
        invariant forall v, u :: 0 <= v < y && 0 <= u < width ==> out[v, u] == GeometryAt(img, s, m, u, v)
        invariant forall u :: 0 <= u < x ==> out[y, u] == GeometryAt(img, s, m, u, y)
      {
        out[y, x] := RotatedPixel(src, s, m, x, y);
      }
    }
  }

  method Cut(src: array2<Pixel>, box: Box) returns (out: array2<Pixel>)
    requires 0 <= box.left < box.right <= src.Length1 && 0 <= box.top < box.bottom <= src.Length0
    ensures fresh(out) && out.Length0 == box.bottom - box.top && out.Length1 == box.right - box.left
    ensures forall y, x :: 0 <= y < out.Length0 && 0 <= x < out.Length1 ==> out[y, x] == src[y + box.top, x + box.left]
  {
    var height, width := box.bottom - box.top, box.right - box.left;
    out := new Pixel[height, width](
      (y, x) requires 0 <= y < height && 0 <= x < width reads src => src[y + box.top, x + box.left]);
  }

  /** Fails exactly on a collapsed crop. */
  method Geometry(src: array2<Pixel>, s: Settings, m: Maths) returns (out: Option<array2<Pixel>>)
    requires Admitted(s)
    ensures out.None? <==> Collapsed(CropBox(s, src.Length1, src.Length0))
    ensures out.Some? ==>
              var box := CropBox(s, src.Length1, src.Length0);
              && fresh(out.value)
              && out.value.Length0 == box.bottom - box.top && out.value.Length1 == box.right - box.left
              && forall y, x :: 0 <= y < out.value.Length0 && 0 <= x < out.value.Length1 ==>
                                  out.value[y, x] == GeometryAt(View(src), s, m, x, y)
  {
    var box := CropBox(s, src.Length1, src.Length0);
    CropInside(s, src.Length1, src.Length0);
    if Collapsed(box) { return None; }
    if s.straighten == 0.0 {
      var cut := Cut(src, box);
      return Some(cut);
    }
    var turned := TurnAll(src, s, m, box.right - box.left, box.bottom - box.top);
    return Some(turned);
  }

  // ---------------------------------------------------------------- sharpen

  function Radius(s: Settings): int { Ceil(s.radiusPx) }

  /** The kernel is flat with softened edges. */
  function Tap(s: Settings, d: int): real {
    if d == Radius(s) || -d == Radius(s) then s.radiusPx - (Radius(s) as real - 1.0) else 1.0
  }

  function TapWeight(s: Settings, dx: int, dy: int): real { Tap(s, dx) * Tap(s, dy) }

  function TapRow(s: Settings, dy: int, past: int): seq<real>
    decreases past + Radius(s)
  {
    if past <= -Radius(s) then [] else TapRow(s, dy, past - 1) + [TapWeight(s, past - 1, dy)]
  }

  function TapRows(s: Settings, past: int): seq<real>
    decreases past + Radius(s)
  {
    if past <= -Radius(s) then [] else TapRows(s, past - 1) + TapRow(s, past - 1, Radius(s) + 1)
  }

  /** Adds `amount` times the difference from the weighted mean of the window. */
  function Unsharp(s: Settings, p: Pixel, points: seq<Pixel>, weights: seq<real>): Pixel
    requires |points| == |weights|
  {
    var m := Moment(points, weights);
    if m.a > 0.0 then
      Pixel(p.r + s.amount * (p.r - m.r / m.a), p.g + s.amount * (p.g - m.g / m.a), p.b + s.amount * (p.b - m.b / m.a),
            p.a)
    else p
  }

  lemma {:induction false} WindowRowSize(img: Image, s: Settings, x: int, y: int, dy: int, past: int)
    requires Rectangular(img) && img.width > 0 && img.height > 0
    ensures |WindowRow(img, x, y, -Radius(s), past)| == |TapRow(s, dy, past)|
    decreases past + Radius(s)
  {
    if past > -Radius(s) { WindowRowSize(img, s, x, y, dy, past - 1); }
  }

  lemma {:induction false} WindowSize(img: Image, s: Settings, x: int, y: int, past: int)
    requires Rectangular(img) && img.width > 0 && img.height > 0
    ensures |WindowRows(img, x, y, Radius(s), past)| == |TapRows(s, past)|
    decreases past + Radius(s)
  {
    if past > -Radius(s) {
      WindowSize(img, s, x, y, past - 1);
      WindowRowSize(img, s, x, y + past - 1, past - 1, Radius(s) + 1);
    }
  }

  ghost function SharpenAt(img: Image, s: Settings, x: int, y: int): Pixel
    requires Rectangular(img) && In(img, x, y)
  {
    if s.amount == 0.0 then At(img, x, y)
    else
      WindowSize(img, s, x, y, Radius(s) + 1);
      Unsharp(s, At(img, x, y), WindowRows(img, x, y, Radius(s), Radius(s) + 1), TapRows(s, Radius(s) + 1))
  }

  method SharpRow(src: array2<Pixel>, s: Settings, x: int, y: int, dy: int, rows: seq<Pixel>, taps: seq<real>)
    returns (points: seq<Pixel>, weights: seq<real>)
    requires 0 <= x < src.Length1 && 0 <= y < src.Length0 && Radius(s) >= 0
    ensures points == rows + WindowRow(View(src), x, y + dy, -Radius(s), Radius(s) + 1)
    ensures weights == taps + TapRow(s, dy, Radius(s) + 1)
  {
    hide TapWeight;
    points, weights := rows, taps;
    for dx := -Radius(s) to Radius(s) + 1
      invariant points == rows + WindowRow(View(src), x, y + dy, -Radius(s), dx)
      invariant weights == taps + TapRow(s, dy, dx)
    {
      points := points + [src[Clamp(y + dy, src.Length0), Clamp(x + dx, src.Length1)]];
      weights := weights + [TapWeight(s, dx, dy)];
    }
  }

  lemma WindowGrows(img: Image, s: Settings, x: int, y: int, dy: int)
    requires Rectangular(img) && img.width > 0 && img.height > 0 && -Radius(s) <= dy
    ensures WindowRows(img, x, y, Radius(s), -Radius(s)) == [] && TapRows(s, -Radius(s)) == []
    ensures WindowRows(img, x, y, Radius(s), dy + 1)
            == WindowRows(img, x, y, Radius(s), dy) + WindowRow(img, x, y + dy, -Radius(s), Radius(s) + 1)
    ensures TapRows(s, dy + 1) == TapRows(s, dy) + TapRow(s, dy, Radius(s) + 1)
  {
    hide WindowRow, TapRow, Radius;
  }

  method SharpPixel(src: array2<Pixel>, s: Settings, x: int, y: int) returns (p: Pixel)
    requires 0 <= x < src.Length1 && 0 <= y < src.Length0 && s.amount != 0.0 && Admitted(s)
    ensures p == SharpenAt(View(src), s, x, y)
  {
    hide Unsharp, WindowRow, WindowRows, TapRow, TapRows;
    ghost var img := View(src);
    var points: seq<Pixel>, weights: seq<real> := [], [];
    WindowGrows(img, s, x, y, -Radius(s));
    for dy := -Radius(s) to Radius(s) + 1
      invariant points == WindowRows(img, x, y, Radius(s), dy) && weights == TapRows(s, dy)
    {
      WindowGrows(img, s, x, y, dy);
      points, weights := SharpRow(src, s, x, y, dy, points, weights);
    }
    WindowSize(View(src), s, x, y, Radius(s) + 1);
    p := Unsharp(s, src[y, x], points, weights);
  }

  method SharpenAll(src: array2<Pixel>, s: Settings) returns (out: array2<Pixel>)
    requires Admitted(s) && s.amount != 0.0
    ensures fresh(out) && out.Length0 == src.Length0 && out.Length1 == src.Length1
    ensures forall y, x :: 0 <= y < out.Length0 && 0 <= x < out.Length1 ==> out[y, x] == SharpenAt(View(src), s, x, y)
  {
    hide SharpenAt;
    out := Copy(src);
    ghost var img := View(src);
    for y := 0 to src.Length0
      invariant View(src) == img
      invariant forall v, u :: 0 <= v < y && 0 <= u < out.Length1 ==> out[v, u] == SharpenAt(img, s, u, v)
    {
      for x := 0 to src.Length1
        invariant View(src) == img
        invariant forall v, u :: 0 <= v < y && 0 <= u < out.Length1 ==> out[v, u] == SharpenAt(img, s, u, v)
        invariant forall u :: 0 <= u < x ==> out[y, u] == SharpenAt(img, s, u, y)
      {
        out[y, x] := SharpPixel(src, s, x, y);
      }
    }
  }

  method Sharpen(src: array2<Pixel>, s: Settings) returns (out: array2<Pixel>)
    requires Admitted(s)
    ensures fresh(out) && out.Length0 == src.Length0 && out.Length1 == src.Length1
    ensures forall y, x :: 0 <= y < out.Length0 && 0 <= x < out.Length1 ==> out[y, x] == SharpenAt(View(src), s, x, y)
  {
    if s.amount != 0.0 { out := SharpenAll(src, s); } else { out := Copy(src); }
  }

  // ---------------------------------------------------------------- the pipeline

  ghost function Mapped(img: Image, f: Pixel -> Pixel): Image
    requires Rectangular(img)
  {
    Tabulate(img.width, img.height, (x, y) => f(Outside(img, x, y)))
  }

  ghost function Denoised(img: Image, s: Settings): Image
    requires Rectangular(img) && Admitted(s)
  {
    Tabulate(img.width, img.height, (x, y) => if In(img, x, y) then DenoiseAt(img, s, x, y) else CLEAR)
  }

  /** White balance, denoise and tone: everything before the crop. */
  ghost function Developed(img: Image, s: Settings, m: Maths): (d: Image)
    requires Rectangular(img) && Admitted(s)
    ensures Rectangular(d) && d.width == img.width && d.height == img.height
  {
    Mapped(Denoised(Mapped(img, m.balance), s), m.tone)
  }

  ghost function Turned(img: Image, s: Settings, m: Maths): Image
    requires Rectangular(img) && !Collapsed(CropBox(s, img.width, img.height))
  {
    var box := CropBox(s, img.width, img.height);
    Tabulate(box.right - box.left, box.bottom - box.top, (x, y) => GeometryAt(img, s, m, x, y))
  }

  ghost function Sharpened(img: Image, s: Settings): Image
    requires Rectangular(img)
  {
    Tabulate(img.width, img.height, (x, y) => if In(img, x, y) then SharpenAt(img, s, x, y) else CLEAR)
  }

  /** The rendered picture, or None where the crop collapses. */
  ghost function Rendered(img: Image, s: Settings, m: Maths): Option<Image>
    requires Rectangular(img) && Admitted(s)
  {
    if Collapsed(CropBox(s, img.width, img.height)) then None
    else Some(Sharpened(Turned(Developed(img, s, m), s, m), s))
  }

  lemma PictureEqual(a: Image, b: Image)
    requires Rectangular(a) && Rectangular(b) && SamePicture(a, b)
    ensures a == b
  {
    forall y | 0 <= y < a.height ensures a.rows[y] == b.rows[y] {
      forall x | 0 <= x < a.width ensures a.rows[y][x] == b.rows[y][x] {
        assert At(a, x, y) == At(b, x, y);
      }
    }
  }

  lemma MappedSize(img: Image, f: Pixel -> Pixel)
    requires Rectangular(img)
    ensures Rectangular(Mapped(img, f)) && Mapped(img, f).width == img.width && Mapped(img, f).height == img.height
  {
  }

  lemma MappedAt(img: Image, f: Pixel -> Pixel, x: int, y: int)
    requires Rectangular(img) && In(img, x, y)
    ensures In(Mapped(img, f), x, y) && At(Mapped(img, f), x, y) == f(At(img, x, y))
  {
    assert Outside(img, x, y) == At(img, x, y);
  }

  lemma MappedView(src: Image, out: Image, f: Pixel -> Pixel)
    requires Rectangular(src) && Rectangular(out) && out.width == src.width && out.height == src.height
    requires forall x, y :: In(out, x, y) ==> At(out, x, y) == f(At(src, x, y))
    ensures out == Mapped(src, f)
  {
    forall x, y | In(out, x, y) ensures At(out, x, y) == At(Mapped(src, f), x, y) { MappedAt(src, f, x, y); }
    PictureEqual(out, Mapped(src, f));
  }

  method MapAll(src: array2<Pixel>, f: Pixel -> Pixel) returns (out: array2<Pixel>)
    ensures fresh(out) && View(out) == Mapped(View(src), f)
  {
    hide Mapped;
    out := new Pixel[src.Length0, src.Length1](
      (y, x) requires 0 <= y < src.Length0 && 0 <= x < src.Length1 reads src => f(src[y, x]));
    MappedView(View(src), View(out), f);
  }

  /** The stages composed: every pixel of the whole-image pipeline, or a refusal of a collapsed crop. */
  method Render(src: array2<Pixel>, s: Settings, m: Maths) returns (out: Option<array2<Pixel>>)
    requires Admitted(s)
    ensures out.None? <==> Rendered(View(src), s, m).None?
    ensures out.Some? ==> Rendered(View(src), s, m) == Some(View(out.value))
  {
    hide DenoiseAt, GeometryAt, SharpenAt;
    ghost var source := View(src);
    var balanced := MapAll(src, m.balance);
    var denoised := Denoise(balanced, s);
    PictureEqual(View(denoised), Denoised(Mapped(source, m.balance), s));
    var toned := MapAll(denoised, m.tone);
    assert View(toned) == Developed(source, s, m);
    var turned := Geometry(toned, s, m);
    if turned.None? { return None; }
    PictureEqual(View(turned.value), Turned(Developed(source, s, m), s, m));
    var sharp := Sharpen(turned.value, s);
    PictureEqual(View(sharp), Sharpened(Turned(Developed(source, s, m), s, m), s));
    return Some(sharp);
  }
}
