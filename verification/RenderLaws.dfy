/** What the stages of the pipeline do to a picture, told without naming how they do it. */
module RenderLaws {
  import opened Bilinear
  import opened Pixels
  import opened Reals
  import opened Render

  // ---------------------------------------------------------------- borders, crops and windows

  /** The clamped index is the nearest one inside. */
  lemma ClampNearest(k: int, size: nat, j: int)
    requires 0 <= j < size
    ensures 0 <= Clamp(k, size) < size
    ensures j <= Clamp(k, size) <= k || k <= Clamp(k, size) <= j || Clamp(k, size) == k
  {
  }

  /** A crop edge is the nearest pixel boundary, the upper one of two. */
  ghost predicate Nearest(edge: int, exact: real) { -0.5 < edge as real - exact <= 0.5 }

  lemma CropEdges(s: Settings, width: nat, height: nat)
    ensures var box := CropBox(s, width, height);
            if s.crop.None? then box == Box(0, 0, width, height)
            else
              var c := s.crop.value;
              && Nearest(box.left, c.left * (width as real)) && Nearest(box.right, c.right * (width as real))
              && Nearest(box.top, c.top * (height as real)) && Nearest(box.bottom, c.bottom * (height as real))
  {
  }

  lemma {:induction false} WindowRowAt(img: Image, x: int, y: int, from: int, past: int, i: int)
    requires Rectangular(img) && img.width > 0 && img.height > 0 && from <= past
    ensures |WindowRow(img, x, y, from, past)| == past - from
    ensures 0 <= i < past - from ==> WindowRow(img, x, y, from, past)[i] == Clamped(img, x + from + i, y)
    decreases past - from
  {
    hide Clamped;
    if from < past { WindowRowAt(img, x, y, from, past - 1, i); }
  }

  /** How many samples `k` rows of a window hold. */
  function RowsOf(side: int, k: int): int { side * k }

  lemma RowSteps(side: nat, j: int, k: int)
    ensures RowsOf(side, 0) == 0 && RowsOf(side, k) == RowsOf(side, k - 1) + side
    ensures 0 <= j < k ==> 0 <= RowsOf(side, j) && RowsOf(side, j) + side <= RowsOf(side, k)
  {
    assert side * k - side * (j + 1) == side * (k - (j + 1));
    if 0 <= j < k { assert side * (k - (j + 1)) >= 0 && side * j >= 0; }
  }

  /** Row by row, the window holds the clamped square around its centre. */
  lemma {:induction false} WindowAt(img: Image, x: int, y: int, radius: nat, past: int, i: int, j: int)
    requires Rectangular(img) && img.width > 0 && img.height > 0
    requires 0 <= past + radius && 0 <= i < 2 * radius + 1 && 0 <= j
    ensures |WindowRows(img, x, y, radius, past)| == RowsOf(2 * radius + 1, past + radius)
    ensures j < past + radius ==>
              && 0 <= RowsOf(2 * radius + 1, j) + i < |WindowRows(img, x, y, radius, past)|
              && WindowRows(img, x, y, radius, past)[RowsOf(2 * radius + 1, j) + i]
                 == Clamped(img, x - radius + i, y - radius + j)
    decreases past + radius
  {
    hide Clamped, WindowRow, RowsOf;
    var side := 2 * radius + 1;
    RowSteps(side, j, past + radius);
    if 0 < past + radius {
      WindowAt(img, x, y, radius, past - 1, i, j);
      WindowRowAt(img, x, y + past - 1, 0 - radius, radius + 1, i);
      RowSteps(side, j, past - 1 + radius);
    }
  }

  // ---------------------------------------------------------------- rotation

  /** The angle's cosine and sine, as the parameters give them, lie on the unit circle. */
  predicate OnCircle(s: Settings, m: Maths) {
    m.cos(s.straighten) * m.cos(s.straighten) + m.sin(s.straighten) * m.sin(s.straighten) == 1.0
  }

  /** Turned by the angle about the centre of the source, the point comes to lie on output pixel `x`, `y`. */
  predicate TurnsTo(s: Settings, m: Maths, width: nat, height: nat, o: Origin, x: int, y: int) {
    var box, cos, sin := CropBox(s, width, height), m.cos(s.straighten), m.sin(s.straighten);
    var cx, cy := (width as real - 1.0) / 2.0, (height as real - 1.0) / 2.0;
    && cos * (o.x - cx) - sin * (o.y - cy) == (x + box.left) as real - cx
    && sin * (o.x - cx) + cos * (o.y - cy) == (y + box.top) as real - cy
  }

  lemma TurnAndBack(c: real, s: real, a: real, b: real)
    requires c * c + s * s == 1.0
    ensures c * (c * a + s * b) - s * (-s * a + c * b) == a
    ensures s * (c * a + s * b) + c * (-s * a + c * b) == b
  {
    assert c * (c * a + s * b) - s * (-s * a + c * b) == (c * c + s * s) * a;
    assert s * (c * a + s * b) + c * (-s * a + c * b) == (c * c + s * s) * b;
  }

  lemma BackAndTurn(c: real, s: real, p: real, q: real, a: real, b: real)
    requires c * c + s * s == 1.0 && c * p - s * q == a && s * p + c * q == b
    ensures p == c * a + s * b && q == -s * a + c * b
  {
    assert c * (c * p - s * q) + s * (s * p + c * q) == (c * c + s * s) * p;
    assert -s * (c * p - s * q) + c * (s * p + c * q) == (c * c + s * s) * q;
  }

  /** A pixel of the canvas is sampled at the one point of the source that turning carries onto it. */
  lemma RotatedExactly(s: Settings, m: Maths, width: nat, height: nat, o: Origin, x: int, y: int)
    requires OnCircle(s, m)
    ensures TurnsTo(s, m, width, height, o, x, y) <==> o == Rotated(s, m, width, height, x, y)
  {
    hide CropBox;
    var box, cos, sin := CropBox(s, width, height), m.cos(s.straighten), m.sin(s.straighten);
    var cx, cy := (width as real - 1.0) / 2.0, (height as real - 1.0) / 2.0;
    var a, b := (x + box.left) as real - cx, (y + box.top) as real - cy;
    TurnAndBack(cos, sin, a, b);
    if TurnsTo(s, m, width, height, o, x, y) { BackAndTurn(cos, sin, o.x - cx, o.y - cy, a, b); }
  }

  /** What a point between pixels shows. */
  ghost function Sampled(img: Image, o: Origin): Pixel
    requires Rectangular(img)
  {
    WeightedStraight(Corners(img, o), CornerWeights(o.x, o.y))
  }

  predicate Visible(p: Pixel) { 0.0 < p.a <= 1.0 }

  lemma SampledAtPixel(img: Image, x: int, y: int)
    requires Rectangular(img) && In(img, x, y) && Visible(At(img, x, y))
    ensures Sampled(img, Origin(x as real, y as real)) == At(img, x, y)
  {
    hide WeightedStraight, CornerWeights;
    AtGridPoint(Corners(img, Origin(x as real, y as real)), x, y);
  }

  /** An opaque picture whose channels change evenly. */
  ghost predicate Planar(img: Image, c: Planes)
    requires Rectangular(img)
  {
    forall x, y :: In(img, x, y) ==> At(img, x, y) == Colour(c, x as real, y as real)
  }

  lemma NoWeightBeyond(u: real, v: real, dx: int, dy: int)
    requires (dx == 1 && u == u.Floor as real) || (dy == 1 && v == v.Floor as real)
    ensures CornerWeight(u, v, dx, dy) == 0.0
  {
  }

  /** Anywhere between pixels an even picture shows its own colour at that point. */
  lemma SampledPlane(img: Image, c: Planes, o: Origin)
    requires Rectangular(img) && Planar(img, c)
    requires 0.0 <= o.x <= img.width as real - 1.0 && 0.0 <= o.y <= img.height as real - 1.0
    ensures Sampled(img, o) == Colour(c, o.x, o.y)
  {
    hide WeightedStraight, CornerWeights, CornerWeight, Colour;
    var points := Corners(img, o);
    forall dx, dy | 0 <= dx < 2 && 0 <= dy < 2 ensures OnPlane(points, c, o.x, o.y, dx, dy) {
      if In(img, o.x.Floor + dx, o.y.Floor + dy) {
        assert points[2 * dy + dx] == At(img, o.x.Floor + dx, o.y.Floor + dy);
      } else {
        NoWeightBeyond(o.x, o.y, dx, dy);
      }
    }
    PlaneKept(points, c, o.x, o.y);
  }

  /** A quarter turn of a square picture. */
  predicate QuarterTurn(s: Settings, m: Maths) {
    s.straighten != 0.0 && s.crop.None? && m.cos(s.straighten) == 0.0 && m.sin(s.straighten) == 1.0
  }

  lemma QuarterOrigin(s: Settings, m: Maths, n: nat, x: int, y: int)
    requires QuarterTurn(s, m)
    ensures Rotated(s, m, n, n, x, y) == Origin(y as real, (n - 1 - x) as real)
  {
    CropEdges(s, n, n);
  }

  /** The top row comes from the left column: the picture is turned clockwise, pixel by pixel. */
  lemma QuarterTurned(img: Image, s: Settings, m: Maths, x: int, y: int)
    requires Rectangular(img) && img.width == img.height && In(img, x, y) && QuarterTurn(s, m)
    requires Visible(At(img, y, img.width - 1 - x))
    ensures GeometryAt(img, s, m, x, y) == At(img, y, img.width - 1 - x)
  {
    hide Rotated;
    QuarterOrigin(s, m, img.width, x, y);
    SampledAtPixel(img, y, img.width - 1 - x);
  }

  // ---------------------------------------------------------------- whole recipes

  /** Without rotation and sharpening, each pixel of the crop is the denoised pixel of the balanced picture, toned. */
  lemma RenderedToned(img: Image, s: Settings, m: Maths, x: int, y: int)
    requires Rectangular(img) && Admitted(s) && s.straighten == 0.0 && s.amount == 0.0
    requires var box := CropBox(s, img.width, img.height);
             0 <= x < box.right - box.left && 0 <= y < box.bottom - box.top
    ensures var box, whole := CropBox(s, img.width, img.height), Rendered(img, s, m);
            && whole.Some? && In(whole.value, x, y) && In(img, x + box.left, y + box.top)
            && At(whole.value, x, y) == m.tone(DenoiseAt(Mapped(img, m.balance), s, x + box.left, y + box.top))
  {
    hide CropBox, DenoiseAt;
    var box := CropBox(s, img.width, img.height);
    CropInside(s, img.width, img.height);
    MappedAt(Denoised(Mapped(img, m.balance), s), m.tone, x + box.left, y + box.top);
  }

  /** Without denoise too, it is toned after balancing, and nothing else. */
  lemma RenderedPlain(img: Image, s: Settings, m: Maths, x: int, y: int)
    requires Rectangular(img) && Admitted(s) && !Denoises(s) && s.straighten == 0.0 && s.amount == 0.0
    requires var box := CropBox(s, img.width, img.height);
             0 <= x < box.right - box.left && 0 <= y < box.bottom - box.top
    ensures var box, whole := CropBox(s, img.width, img.height), Rendered(img, s, m);
            && whole.Some? && In(whole.value, x, y) && In(img, x + box.left, y + box.top)
            && At(whole.value, x, y) == m.tone(m.balance(At(img, x + box.left, y + box.top)))
  {
    hide CropBox, Rendered;
    RenderedToned(img, s, m, x, y);
    var box := CropBox(s, img.width, img.height);
    MappedAt(img, m.balance, x + box.left, y + box.top);
  }

  /** With rotation and no sharpening, each pixel shows the developed picture where turning carries it from. */
  lemma RenderedTurned(img: Image, s: Settings, m: Maths, x: int, y: int)
    requires Rectangular(img) && Admitted(s) && s.straighten != 0.0 && s.amount == 0.0 && OnCircle(s, m)
    requires Rendered(img, s, m).Some? && In(Rendered(img, s, m).value, x, y)
    ensures exists o :: TurnsTo(s, m, img.width, img.height, o, x, y)
                        && At(Rendered(img, s, m).value, x, y) == Sampled(Developed(img, s, m), o)
  {
    hide Developed, Rotated, WeightedStraight, CornerWeights, Corners, TurnsTo;
    var o := Rotated(s, m, img.width, img.height, x, y);
    RotatedExactly(s, m, img.width, img.height, o, x, y);
    assert At(Rendered(img, s, m).value, x, y) == GeometryAt(Developed(img, s, m), s, m, x, y);
  }

  lemma RenderedInside(img: Image, s: Settings, m: Maths, x: int, y: int)
    requires Rectangular(img) && Admitted(s) && s.crop.None?
    requires Rendered(img, s, m).Some? && In(Rendered(img, s, m).value, x, y)
    ensures In(img, x, y)
  {
    CropEdges(s, img.width, img.height);
  }

  /** A quarter turn moves every visible pixel of the developed picture to its place. */
  lemma RenderedQuarterTurned(img: Image, s: Settings, m: Maths, x: int, y: int)
    requires Rectangular(img) && Admitted(s) && s.amount == 0.0 && QuarterTurn(s, m)
    requires img.width == img.height && In(img, x, y)
    requires Visible(At(Developed(img, s, m), y, img.width - 1 - x))
    ensures var whole := Rendered(img, s, m);
            && whole.Some? && In(whole.value, x, y)
            && At(whole.value, x, y) == At(Developed(img, s, m), y, img.width - 1 - x)
  {
    hide Developed, GeometryAt;
    CropEdges(s, img.width, img.height);
    QuarterTurned(Developed(img, s, m), s, m, x, y);
  }

  // ---------------------------------------------------------------- denoise

  /** Luminance is that of the primaries and white point of sRGB (IEC 61966-2-1), to the rounding of its digits. */
  lemma LumaOfPrimaries()
    ensures var r, g := Luma(Pixel(1.0, 0.0, 0.0, 1.0)), Luma(Pixel(0.0, 1.0, 0.0, 1.0));
            var b := Luma(Pixel(0.0, 0.0, 1.0, 1.0));
            && r + g + b == 1.0
            && Abs(r * (0.64 / 0.33) + g * (0.30 / 0.60) + b * (0.15 / 0.06) - 0.3127 / 0.3290) < 0.0002
            && Abs(r * (0.03 / 0.33) + g * (0.10 / 0.60) + b * (0.79 / 0.06) - 0.3583 / 0.3290) < 0.0002
  {
  }

  /** The tolerance is 0.03 without denoising, 0.12 for middle grey at full strength, and evenly in between. */
  lemma ToleranceTold(s: Settings, level: real)
    requires Admitted(s)
    ensures s.luminance == s.chroma == 0.0 ==> Tolerance(s, level) == 0.03
    ensures Max(s.luminance, s.chroma) == 1.0 && Abs(level) == 0.18 ==> Tolerance(s, level) == 0.12
    ensures Tolerance(s, level) - 0.03 == (Abs(level) + 0.18) / 0.36 * (0.09 * Max(s.luminance, s.chroma))
  {
    var strength, size := Max(s.luminance, s.chroma), Abs(level) + 0.18;
    assert size / 0.36 * (0.09 * strength) == 0.25 * (size * strength);
  }

  /** A transparent pixel is left alone, and so is one with no visible neighbour. */
  lemma DenoiseKeeps(s: Settings, p: Pixel, nine: seq<Pixel>)
    requires Admitted(s) && (p.a == 0.0 || DenoiseMean(s, p, nine).a == 0.0)
    ensures DenoisePixel(s, p, nine) == p
  {
    hide Luma, Moment, Similarities, Tolerance, Smoothed;
  }

  /** Neighbours of the centre's own luminance weigh fully, half at the tolerance and a fifth at twice that. */
  lemma SimilarityHalves(p: Pixel, level: real, tolerance: real)
    requires tolerance >= 0.03
    ensures 0.0 < Similarity(p, level, tolerance) <= 1.0
    ensures Similarity(p, level, tolerance) == 1.0 <==> Luma(p) == level
    ensures Abs(Luma(p) - level) == tolerance ==> Similarity(p, level, tolerance) == 0.5
    ensures Abs(Luma(p) - level) == 2.0 * tolerance ==> Similarity(p, level, tolerance) == 0.2
  {
    hide Luma;
    var d := (Luma(p) - level) / tolerance;
    assert d * tolerance == Luma(p) - level;
    assert d * d >= 0.0 && (d * d == 0.0 <==> d == 0.0);
    assert Luma(p) == level <==> d == 0.0;
    if Luma(p) - level == tolerance { assert d == 1.0; }
    if Luma(p) - level == -tolerance { assert d == -1.0; }
    if Luma(p) - level == 2.0 * tolerance { SameFactor(d, 2.0, tolerance); }
    if Luma(p) - level == -2.0 * tolerance { SameFactor(d, -2.0, tolerance); }
  }

  lemma SameFactor(d: real, e: real, t: real)
    requires t > 0.0 && d * t == e * t
    ensures d == e
  {
    assert (d - e) * t == 0.0;
  }

  /** Where `p` stands from `from`: so far towards `mean`. */
  predicate Towards(q: real, from: real, mean: real, share: real) { q - from == (mean - from) * share }

  /** The weighted mean of the neighbourhood, as denoising takes it. */
  function DenoiseMean(s: Settings, p: Pixel, nine: seq<Pixel>): Pixel
    requires Admitted(s)
  {
    Moment(nine, Similarities(nine, Luma(p), Tolerance(s, Luma(p))))
  }

  lemma LumaOfGrey(p: Pixel, k: real)
    ensures Luma(Pixel(p.r + k, p.g + k, p.b + k, p.a)) == Luma(p) + k
  {
  }

  function BlendOf(p: Pixel, q: Pixel, share: real): Pixel {
    Pixel(Blend(p.r, q.r, share), Blend(p.g, q.g, share), Blend(p.b, q.b, share), p.a)
  }

  lemma LumaOfBlend(p: Pixel, q: Pixel, share: real)
    ensures Luma(BlendOf(p, q, share)) == Blend(Luma(p), Luma(q), share)
  {
  }

  lemma BlendMoves(a: real, b: real, share: real)
    ensures Towards(Blend(a, b, share), a, b, share) && Blend(0.0, 0.0, share) == 0.0
  {
  }

  /** The colour left when a pixel's luminance is taken away. */
  function Tint(p: Pixel): Pixel { Pixel(p.r - Luma(p), p.g - Luma(p), p.b - Luma(p), p.a) }

  lemma TintHasNoLuma(p: Pixel)
    ensures Luma(Tint(p)) == 0.0
  {
    LumaOfGrey(p, -Luma(p));
  }

  /** The pixel moves towards the mean: luminance by one strength, colour by the other, and alpha stays. */
  lemma SmoothedMoves(s: Settings, p: Pixel, mean: Pixel)
    ensures var q := Smoothed(s, p, mean);
            && Towards(Luma(q), Luma(p), Luma(mean), s.luminance)
            && Towards(Tint(q).r, Tint(p).r, Tint(mean).r, s.chroma)
            && Towards(Tint(q).g, Tint(p).g, Tint(mean).g, s.chroma)
            && Towards(Tint(q).b, Tint(p).b, Tint(mean).b, s.chroma)
            && q.a == p.a
  {
    hide Luma, Blend;
    var t, u := Tint(p), Tint(mean);
    var y := Blend(Luma(p), Luma(mean), s.luminance);
    var x := BlendOf(t, u, s.chroma);
    TintHasNoLuma(p);
    TintHasNoLuma(mean);
    LumaOfBlend(t, u, s.chroma);
    LumaOfGrey(x, y);
    BlendMoves(0.0, 0.0, s.chroma);
    BlendMoves(Luma(p), Luma(mean), s.luminance);
    BlendMoves(t.r, u.r, s.chroma);
    BlendMoves(t.g, u.g, s.chroma);
    BlendMoves(t.b, u.b, s.chroma);
    assert Smoothed(s, p, mean) == Pixel(x.r + y, x.g + y, x.b + y, x.a);
  }

  /** A denoised pixel is taken so towards the mean of its neighbourhood. */
  lemma DenoiseMoves(s: Settings, p: Pixel, nine: seq<Pixel>)
    requires Admitted(s) && p.a != 0.0 && DenoiseMean(s, p, nine).a != 0.0
    ensures var m := DenoiseMean(s, p, nine);
            DenoisePixel(s, p, nine) == Smoothed(s, p, Pixel(m.r / m.a, m.g / m.a, m.b / m.a, p.a))
  {
    hide Luma, Moment, Similarities, Tolerance, Smoothed;
  }

  // ---------------------------------------------------------------- sharpen

  /** The difference from the window's mean grows by the amount, and alpha stays. */
  lemma UnsharpScales(s: Settings, p: Pixel, points: seq<Pixel>, weights: seq<real>)
    requires |points| == |weights| && Moment(points, weights).a > 0.0
    ensures var m := Moment(points, weights);
            var q := Unsharp(s, p, points, weights);
            && q.r - m.r / m.a == (1.0 + s.amount) * (p.r - m.r / m.a)
            && q.g - m.g / m.a == (1.0 + s.amount) * (p.g - m.g / m.a)
            && q.b - m.b / m.a == (1.0 + s.amount) * (p.b - m.b / m.a)
            && q.a == p.a
  {
    hide Moment;
    var m := Moment(points, weights);
    Grown(s.amount, p.r, m.r / m.a);
    Grown(s.amount, p.g, m.g / m.a);
    Grown(s.amount, p.b, m.b / m.a);
  }

  lemma Grown(amount: real, x: real, mean: real)
    ensures x + amount * (x - mean) - mean == (1.0 + amount) * (x - mean)
  {
  }

  ghost function Total(weights: seq<real>): real {
    if weights == [] then 0.0 else Total(weights[..|weights| - 1]) + weights[|weights| - 1]
  }

  lemma {:induction false} TotalJoin(a: seq<real>, b: seq<real>)
    ensures Total(a + b) == Total(a) + Total(b)
  {
    if b == [] {
      assert a + b == a;
    } else {
      TotalJoin(a, b[..|b| - 1]);
      assert (a + b)[..|a + b| - 1] == a + b[..|b| - 1];
    }
  }

  /** The taps of one row below `past`. */
  ghost function TapTotal(s: Settings, past: int): real
    decreases past + Radius(s)
  {
    if past <= -Radius(s) then 0.0 else TapTotal(s, past - 1) + Tap(s, past - 1)
  }

  lemma Spread(a: real, b: real, c: real)
    ensures Scaled(a, c) + Scaled(b, c) == Scaled(a + b, c) && Scaled(a, b) + Scaled(a, c) == Scaled(a, b + c)
    ensures Scaled(0.0, c) == Scaled(c, 0.0) == 0.0
  {
  }

  lemma TapProduct(s: Settings, dx: int, dy: int)
    ensures TapWeight(s, dx, dy) == Scaled(Tap(s, dx), Tap(s, dy))
  {
  }

  lemma {:induction false} TapRowTotal(s: Settings, dy: int, past: int)
    ensures Total(TapRow(s, dy, past)) == Scaled(TapTotal(s, past), Tap(s, dy))
    decreases past + Radius(s)
  {
    hide Tap, Scaled, TapWeight;
    Spread(TapTotal(s, past - 1), Tap(s, past - 1), Tap(s, dy));
    if past > -Radius(s) {
      TapRowTotal(s, dy, past - 1);
      TapProduct(s, past - 1, dy);
      var front, w := TapRow(s, dy, past - 1), TapWeight(s, past - 1, dy);
      assert (front + [w])[..|front|] == front;
    }
  }

  lemma {:induction false} TapRowsTotal(s: Settings, past: int)
    ensures Total(TapRows(s, past)) == Scaled(TapTotal(s, Radius(s) + 1), TapTotal(s, past))
    decreases past + Radius(s)
  {
    hide Tap, Scaled;
    var all := TapTotal(s, Radius(s) + 1);
    Spread(all, TapTotal(s, past - 1), Tap(s, past - 1));
    Spread(all, 0.0, all);
    if past > -Radius(s) {
      TapRowsTotal(s, past - 1);
      TapRowTotal(s, past - 1, Radius(s) + 1);
      TotalJoin(TapRows(s, past - 1), TapRow(s, past - 1, Radius(s) + 1));
    }
  }

  /** All but the outermost taps are whole. */
  lemma {:induction false} InnerTaps(s: Settings, past: int)
    requires Radius(s) > 0 && -Radius(s) < past <= Radius(s)
    ensures TapTotal(s, past) == Tap(s, -Radius(s)) + (past + Radius(s) - 1) as real
    decreases past + Radius(s)
  {
    if past > -Radius(s) + 1 { InnerTaps(s, past - 1); } else { assert TapTotal(s, -Radius(s)) == 0.0; }
  }

  /** No tap of the window is more than whole, and none is nothing. */
  lemma TapsFair(s: Settings, d: int)
    requires Admitted(s) && -Radius(s) <= d <= Radius(s)
    ensures 0.0 < Tap(s, d) <= 1.0 && Tap(s, -d) == Tap(s, d) && (-Radius(s) < d < Radius(s) ==> Tap(s, d) == 1.0)
  {
  }

  /** The kernel reaches exactly as far as the radius says, to either side of the centre's own width. */
  lemma KernelTotal(s: Settings)
    requires Admitted(s)
    ensures Total(TapRows(s, Radius(s) + 1)) == (2.0 * s.radiusPx + 1.0) * (2.0 * s.radiusPx + 1.0)
  {
    var r := Radius(s);
    TapRowsTotal(s, r + 1);
    assert TapTotal(s, r + 1) == TapTotal(s, r) + Tap(s, r);
    if r > 0 { InnerTaps(s, r); } else { assert TapTotal(s, r) == 0.0; }
    assert TapTotal(s, r + 1) == 2.0 * s.radiusPx + 1.0;
  }
}
