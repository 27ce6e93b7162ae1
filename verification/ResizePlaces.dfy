/**
 Where resizing puts things: a mirrored picture resizes to the mirrored result, and an evenly changing
 one enlarges to the colours at the centres of the output cells.
 */
module ResizePlaces {
  import opened Bilinear
  import opened Pixels
  import opened Resize
  import opened ResizeLaws
  import opened Sums

  // ---------------------------------------------------------------- mirrored pictures

  ghost function Mirrored(img: Image): (m: Image)
    requires Rectangular(img)
    ensures Rectangular(m) && m.width == img.width && m.height == img.height
  {
    Tabulate(img.width, img.height, (x, y) => Outside(img, img.width - 1 - x, y))
  }

  /** Upside down. */
  ghost function Flipped(img: Image): (m: Image)
    requires Rectangular(img)
    ensures Rectangular(m) && m.width == img.width && m.height == img.height
  {
    Tabulate(img.width, img.height, (x, y) => Outside(img, x, img.height - 1 - y))
  }

  // ---------------------------------------------------------------- the other end of an axis

  lemma EdgeMirrored(x: int, m: int, s: real)
    ensures Edge(m - x, s) == Edge(m, s) - Edge(x, s)
  {
  }

  /** Seen from the other end, each output cell covers as much of each source cell. */
  lemma ShareMirrored(k: int, x: int, s: real, n: nat, m: nat)
    requires Shrinks(n, m, s)
    ensures Share(n - 1 - k, m - 1 - x, s) == Share(k, x, s)
  {
    hide Edge;
    EdgeMirrored(x, m, s);
    EdgeMirrored(x + 1, m, s);
  }

  lemma {:induction false} SumFirst(f: int -> real, lo: int, hi: int)
    requires lo < hi
    ensures Sum(f, lo, hi) == f(lo) + Sum(f, lo + 1, hi)
    decreases hi - lo
  {
    if lo + 1 < hi { SumFirst(f, lo, hi - 1); }
  }

  lemma {:induction false} SumReversed(f: int -> real, g: int -> real, lo: int, hi: int, e: int)
    requires forall k :: lo <= k < hi ==> g(k) == f(e - k)
    ensures Sum(g, lo, hi) == Sum(f, e - hi + 1, e - lo + 1)
    decreases hi - lo
  {
    if lo < hi {
      SumReversed(f, g, lo, hi - 1, e);
      SumFirst(f, e - hi + 1, e - lo + 1);
    }
  }

  lemma ReceivedMirrored(f: int -> real, g: int -> real, s: real, n: nat, m: nat, x: int)
    requires Shrinks(n, m, s) && forall k :: 0 <= k < n ==> g(k) == f(n - 1 - k)
    ensures Received(g, Shares(s), n, x) == Received(f, Shares(s), n, m - 1 - x)
  {
    hide Share, Shrinks;
    var a, b := k => f(k) * Shares(s)(k, m - 1 - x), k => g(k) * Shares(s)(k, x);
    forall k | 0 <= k < n ensures b(k) == a(n - 1 - k) { ShareMirrored(k, x, s, n, m); }
    SumReversed(a, b, 0, n, n - 1);
  }

  lemma ReceivedSame(f: int -> real, g: int -> real, s: real, n: nat, x: int)
    requires forall k :: 0 <= k < n ==> f(k) == g(k)
    ensures Received(f, Shares(s), n, x) == Received(g, Shares(s), n, x)
  {
    SumEqual(k => f(k) * Shares(s)(k, x), k => g(k) * Shares(s)(k, x), 0, n);
  }

  lemma BlendMirrored(v: (int, int) -> real, r: (int, int) -> real, w: nat, h: nat, sx: real, sy: real, m: nat,
                      x: int, y: int)
    requires Shrinks(w, m, sx)
    requires forall k, l :: 0 <= k < w && 0 <= l < h ==> r(k, l) == v(w - 1 - k, l)
    ensures Blend(r, w, h, sx, sy, x, y) == Blend(v, w, h, sx, sy, m - 1 - x, y)
  {
    hide Shrinks, Received;
    var a, b := RowReceived(r, w, sx, x), RowReceived(v, w, sx, m - 1 - x);
    forall l | 0 <= l < h ensures a(l) == b(l) { ReceivedMirrored(RowOf(v, l), RowOf(r, l), sx, w, m, x); }
    ReceivedSame(a, b, sy, h, y);
  }

  lemma BlendFlipped(v: (int, int) -> real, r: (int, int) -> real, w: nat, h: nat, sx: real, sy: real, n: nat,
                     x: int, y: int)
    requires Shrinks(h, n, sy)
    requires forall k, l :: 0 <= k < w && 0 <= l < h ==> r(k, l) == v(k, h - 1 - l)
    ensures Blend(r, w, h, sx, sy, x, y) == Blend(v, w, h, sx, sy, x, n - 1 - y)
  {
    hide Shrinks, Received;
    var a, b := RowReceived(r, w, sx, x), RowReceived(v, w, sx, x);
    forall l | 0 <= l < h ensures a(l) == b(h - 1 - l) { ReceivedSame(RowOf(r, l), RowOf(v, h - 1 - l), sx, w, x); }
    ReceivedMirrored(b, a, sy, h, n, y);
  }

  // ---------------------------------------------------------------- shrinking

  lemma SameTotals(t: Taps, u: Taps)
    requires Paired(t) && Paired(u) && forall ch :: Total(ch, t) == Total(ch, u)
    ensures Moment(t.points, t.weights) == Moment(u.points, u.weights)
  {
    hide Total;
    MomentTotals(t);
    MomentTotals(u);
  }

  ghost function TapsOf(img: Image, width: nat, height: nat, x: int, y: int): (t: Taps)
    requires Rectangular(img) && img.width > 0 && img.height > 0 && width > 0 && height > 0
    ensures Paired(t)
  {
    TapsAt(img, img.width as real / width as real, img.height as real / height as real, x, y)
  }

  lemma MirroredAmounts(img: Image, ch: Channel)
    requires Rectangular(img)
    ensures forall k, l :: 0 <= k < img.width && 0 <= l < img.height ==>
              AmountIn(Mirrored(img), ch)(k, l) == AmountIn(img, ch)(img.width - 1 - k, l)
    ensures forall k, l :: 0 <= k < img.width && 0 <= l < img.height ==>
              AmountIn(Flipped(img), ch)(k, l) == AmountIn(img, ch)(k, img.height - 1 - l)
  {
  }

  lemma ShrunkMirrored(img: Image, width: nat, height: nat, x: int, y: int)
    requires Rectangular(img) && 0 < width <= img.width && 0 < height <= img.height && 0 <= x < width && 0 <= y < height
    ensures forall ch :: Total(ch, TapsOf(Mirrored(img), width, height, x, y))
                         == Total(ch, TapsOf(img, width, height, width - 1 - x, y))
    ensures forall ch :: Total(ch, TapsOf(Flipped(img), width, height, x, y))
                         == Total(ch, TapsOf(img, width, height, x, height - 1 - y))
  {
    hide TapsAt, Total, AmountIn, Shrinks, Blend, Mirrored, Flipped, Weight;
    var sx, sy := img.width as real / width as real, img.height as real / height as real;
    ScaleShrinks(img.width, width);
    ScaleShrinks(img.height, height);
    forall ch
      ensures Total(ch, TapsOf(Mirrored(img), width, height, x, y))
              == Total(ch, TapsOf(img, width, height, width - 1 - x, y))
      ensures Total(ch, TapsOf(Flipped(img), width, height, x, y))
              == Total(ch, TapsOf(img, width, height, x, height - 1 - y))
    {
      MirroredAmounts(img, ch);
      ShrunkTaps(Mirrored(img), ch, width, height, x, y);
      ShrunkTaps(Flipped(img), ch, width, height, x, y);
      ShrunkTaps(img, ch, width, height, width - 1 - x, y);
      ShrunkTaps(img, ch, width, height, x, height - 1 - y);
      BlendMirrored(AmountIn(img, ch), AmountIn(Mirrored(img), ch), img.width, img.height, sx, sy, width, x, y);
      BlendFlipped(AmountIn(img, ch), AmountIn(Flipped(img), ch), img.width, img.height, sx, sy, height, x, y);
    }
  }

  // ---------------------------------------------------------------- enlarging

  /** The other end of an axis of `n` cells, for points counted from the first cell's centre. */
  function Other(u: real, n: nat): real { n as real - 1.0 - u }

  lemma OtherFloor(u: real, n: nat)
    ensures u == u.Floor as real ==>
              Other(u, n) == Other(u, n).Floor as real && Other(u, n).Floor == n - 1 - u.Floor
    ensures u != u.Floor as real ==> Other(u, n).Floor == n - 2 - u.Floor
  {
  }

  /** The weight of a corner along one axis. */
  function Along(u: real, d: int): real { if d != 0 then u - u.Floor as real else 1.0 - u + u.Floor as real }

  lemma WeightAlong(u: real, v: real, dx: int, dy: int)
    ensures CornerWeight(u, v, dx, dy) == Scaled(Along(u, dx), Along(v, dy))
  {
  }

  lemma AlongMirrored(u: real, n: nat)
    ensures u == u.Floor as real ==>
              Along(u, 0) == Along(Other(u, n), 0) == 1.0 && Along(u, 1) == Along(Other(u, n), 1) == 0.0
    ensures u != u.Floor as real ==> Along(u, 0) == Along(Other(u, n), 1) && Along(u, 1) == Along(Other(u, n), 0)
  {
    OtherFloor(u, n);
  }

  lemma ClampMirrored(k: int, n: nat)
    requires n > 0
    ensures Clamp(n - 1 - k, n) == n - 1 - Clamp(k, n)
  {
  }

  lemma CornerMirrored(img: Image, x: int, y: int)
    requires Rectangular(img) && img.width > 0 && img.height > 0
    ensures Clamped(Mirrored(img), x, y) == Clamped(img, img.width - 1 - x, y)
    ensures Clamped(Flipped(img), x, y) == Clamped(img, x, img.height - 1 - y)
  {
    ClampMirrored(x, img.width);
    ClampMirrored(y, img.height);
    var i, j := Clamp(x, img.width), Clamp(y, img.height);
    assert In(img, i, j) && In(img, img.width - 1 - i, j) && In(img, i, img.height - 1 - j);
  }

  lemma NoTerm(p: Pixel, w: real)
    requires w == 0.0
    ensures Term(p, w) == CLEAR
  {
  }

  lemma NoScale(w: real)
    ensures Scaled(0.0, w) == Scaled(w, 0.0) == 0.0
  {
  }

  lemma PlusSwaps(a: Pixel, b: Pixel, c: Pixel, d: Pixel)
    ensures Plus(Plus(Plus(Plus(CLEAR, a), b), c), d) == Plus(Plus(Plus(Plus(CLEAR, b), a), d), c)
    ensures Plus(Plus(Plus(Plus(CLEAR, a), b), c), d) == Plus(Plus(Plus(Plus(CLEAR, c), d), a), b)
  {
  }

  /** The four corners of a picture and its weights, each with the other along the horizontal axis. */
  lemma CornersMirrored(img: Image, u: real, v: real)
    requires Rectangular(img) && img.width > 0 && img.height > 0
    ensures var t, o := CornerTaps(Mirrored(img), u, v), CornerTaps(img, Other(u, img.width), v);
            Moment(t.points, t.weights) == Moment(o.points, o.weights)
  {
    hide CornerWeight, Along, Scaled, Clamped, Mirrored, Flipped, Moment, Term, Plus;
    var t, o := CornerTaps(Mirrored(img), u, v), CornerTaps(img, Other(u, img.width), v);
    MomentOfFour(t.points, t.weights);
    MomentOfFour(o.points, o.weights);
    OtherFloor(u, img.width);
    AlongMirrored(u, img.width);
    forall dx, dy | 0 <= dx < 2 && 0 <= dy < 2
      ensures Corner(Mirrored(img), u, v, dx, dy) == Clamped(img, img.width - 1 - (u.Floor + dx), v.Floor + dy)
      ensures CornerWeight(u, v, dx, dy) == Scaled(Along(u, dx), Along(v, dy))
      ensures CornerWeight(Other(u, img.width), v, dx, dy) == Scaled(Along(Other(u, img.width), dx), Along(v, dy))
    {
      CornerMirrored(img, u.Floor + dx, v.Floor + dy);
      WeightAlong(u, v, dx, dy);
      WeightAlong(Other(u, img.width), v, dx, dy);
    }
    NoScale(Along(v, 0));
    NoScale(Along(v, 1));
    if u == u.Floor as real {
      NoTerm(t.points[1], t.weights[1]);
      NoTerm(t.points[3], t.weights[3]);
      NoTerm(o.points[1], o.weights[1]);
      NoTerm(o.points[3], o.weights[3]);
    } else {
      PlusSwaps(Term(t.points[0], t.weights[0]), Term(t.points[1], t.weights[1]),
                Term(t.points[2], t.weights[2]), Term(t.points[3], t.weights[3]));
    }
  }

  lemma CornersFlipped(img: Image, u: real, v: real)
    requires Rectangular(img) && img.width > 0 && img.height > 0
    ensures var t, o := CornerTaps(Flipped(img), u, v), CornerTaps(img, u, Other(v, img.height));
            Moment(t.points, t.weights) == Moment(o.points, o.weights)
  {
    hide CornerWeight, Along, Scaled, Clamped, Mirrored, Flipped, Moment, Term, Plus;
    var t, o := CornerTaps(Flipped(img), u, v), CornerTaps(img, u, Other(v, img.height));
    MomentOfFour(t.points, t.weights);
    MomentOfFour(o.points, o.weights);
    OtherFloor(v, img.height);
    AlongMirrored(v, img.height);
    forall dx, dy | 0 <= dx < 2 && 0 <= dy < 2
      ensures Corner(Flipped(img), u, v, dx, dy) == Clamped(img, u.Floor + dx, img.height - 1 - (v.Floor + dy))
      ensures CornerWeight(u, v, dx, dy) == Scaled(Along(u, dx), Along(v, dy))
      ensures CornerWeight(u, Other(v, img.height), dx, dy) == Scaled(Along(u, dx), Along(Other(v, img.height), dy))
    {
      CornerMirrored(img, u.Floor + dx, v.Floor + dy);
      WeightAlong(u, v, dx, dy);
      WeightAlong(u, Other(v, img.height), dx, dy);
    }
    NoScale(Along(u, 0));
    NoScale(Along(u, 1));
    if v == v.Floor as real {
      NoTerm(t.points[2], t.weights[2]);
      NoTerm(t.points[3], t.weights[3]);
      NoTerm(o.points[2], o.weights[2]);
      NoTerm(o.points[3], o.weights[3]);
    } else {
      PlusSwaps(Term(t.points[0], t.weights[0]), Term(t.points[1], t.weights[1]),
                Term(t.points[2], t.weights[2]), Term(t.points[3], t.weights[3]));
    }
  }

  /** Where the centre of output cell `x` lies, counted from the source's edge. */
  function Centre(x: int, s: real): real { (Edge(x, s) + Edge(x + 1, s)) / 2.0 }

  lemma CentreIs(x: int, s: real)
    ensures Centre(x, s) == (x as real + 0.5) * s
  {
  }

  lemma CentreMirrored(x: int, n: nat, m: nat)
    requires m > 0
    ensures var s := n as real / m as real; Centre(m - 1 - x, s) - 0.5 == Other(Centre(x, s) - 0.5, n)
  {
    var s := n as real / m as real;
    assert m as real * s == n as real;
    CentreIs(x, s);
    CentreIs(m - 1 - x, s);
    assert ((m - 1 - x) as real + 0.5) * s == m as real * s - (x as real + 0.5) * s;
  }

  lemma TapsAround(img: Image, sx: real, sy: real, x: int, y: int)
    requires Rectangular(img) && img.width > 0 && img.height > 0 && (sx < 1.0 || sy < 1.0)
    ensures TapsAt(img, sx, sy, x, y) == CornerTaps(img, Centre(x, sx) - 0.5, Centre(y, sy) - 0.5)
  {
    hide CornerTaps, Centre;
    CentreIs(x, sx);
    CentreIs(y, sy);
    assert Centre(x, sx) - 0.5 == (x as real + 0.5) * sx - 0.5;
    assert Centre(y, sy) - 0.5 == (y as real + 0.5) * sy - 0.5;
  }

  /** Enlarging takes its samples around the centre of the output cell. */
  lemma EnlargedTaps(img: Image, width: nat, height: nat, x: int, y: int)
    requires Rectangular(img) && img.width > 0 && img.height > 0 && width > 0 && height > 0
    requires width > img.width || height > img.height
    ensures var sx, sy := img.width as real / width as real, img.height as real / height as real;
            TapsOf(img, width, height, x, y) == CornerTaps(img, Centre(x, sx) - 0.5, Centre(y, sy) - 0.5)
  {
    hide CornerTaps, Centre, TapsAt;
    if width > img.width { ScaleEnlarges(img.width, width); } else { ScaleEnlarges(img.height, height); }
    TapsAround(img, img.width as real / width as real, img.height as real / height as real, x, y);
  }

  lemma MomentsMirrored(img: Image, width: nat, height: nat, x: int, y: int)
    requires Rectangular(img) && img.width > 0 && img.height > 0 && 0 <= x < width && 0 <= y < height
    ensures var t, o := TapsOf(Mirrored(img), width, height, x, y), TapsOf(img, width, height, width - 1 - x, y);
            Moment(t.points, t.weights) == Moment(o.points, o.weights)
    ensures var t, o := TapsOf(Flipped(img), width, height, x, y), TapsOf(img, width, height, x, height - 1 - y);
            Moment(t.points, t.weights) == Moment(o.points, o.weights)
  {
    hide TapsOf, CornerTaps, Moment, Total, Mirrored, Flipped, Centre, Other;
    if width <= img.width && height <= img.height {
      ShrunkMirrored(img, width, height, x, y);
      SameTotals(TapsOf(Mirrored(img), width, height, x, y), TapsOf(img, width, height, width - 1 - x, y));
      SameTotals(TapsOf(Flipped(img), width, height, x, y), TapsOf(img, width, height, x, height - 1 - y));
    } else {
      var sx, sy := img.width as real / width as real, img.height as real / height as real;
      EnlargedTaps(Mirrored(img), width, height, x, y);
      EnlargedTaps(Flipped(img), width, height, x, y);
      EnlargedTaps(img, width, height, width - 1 - x, y);
      EnlargedTaps(img, width, height, x, height - 1 - y);
      CentreMirrored(x, img.width, width);
      CentreMirrored(y, img.height, height);
      CornersMirrored(img, Centre(x, sx) - 0.5, Centre(y, sy) - 0.5);
      CornersFlipped(img, Centre(x, sx) - 0.5, Centre(y, sy) - 0.5);
    }
  }

  /** Shrunk, enlarged or copied, a mirrored picture gives the mirrored result, on either axis. */
  lemma ResizeMirrors(img: Image, width: nat, height: nat, x: int, y: int)
    requires Rectangular(img) && img.width > 0 && img.height > 0 && 0 <= x < width && 0 <= y < height
    ensures ResizeAt(Mirrored(img), width, height, x, y) == ResizeAt(img, width, height, width - 1 - x, y)
    ensures ResizeAt(Flipped(img), width, height, x, y) == ResizeAt(img, width, height, x, height - 1 - y)
  {
    hide TapsAt, Moment;
    MomentsMirrored(img, width, height, x, y);
  }

  // ---------------------------------------------------------------- even pictures

  /** An opaque picture whose colour at each pixel is that of the planes at the pixel's centre. */
  ghost predicate Even(img: Image, c: Planes)
    requires Rectangular(img)
  {
    forall x, y :: In(img, x, y) ==> At(img, x, y) == Colour(c, x as real + 0.5, y as real + 0.5)
  }

  /** The same planes, counted from the first pixel's centre. */
  function FromCentre(p: Plane): Plane { Plane(Level(p, 0.5, 0.5), p.across, p.down) }

  lemma LevelFromCentre(p: Plane, u: real, v: real)
    ensures Level(FromCentre(p), u, v) == Level(p, u + 0.5, v + 0.5)
  {
    assert p.across * (u + 0.5) == p.across * u + p.across * 0.5;
    assert p.down * (v + 0.5) == p.down * v + p.down * 0.5;
  }

  function Recentred(c: Planes): Planes { Planes(FromCentre(c.r), FromCentre(c.g), FromCentre(c.b)) }

  lemma ColourRecentred(c: Planes, u: real, v: real)
    ensures Colour(Recentred(c), u, v) == Colour(c, u + 0.5, v + 0.5)
  {
    hide Level;
    LevelFromCentre(c.r, u, v);
    LevelFromCentre(c.g, u, v);
    LevelFromCentre(c.b, u, v);
  }

  lemma InsideOrWeightless(u: real, n: nat, d: int)
    requires 0 <= d < 2 && 0.0 <= u <= n as real - 1.0
    ensures 0 <= u.Floor + d < n || Along(u, d) == 0.0
  {
  }

  lemma EvenCorner(img: Image, c: Planes, u: real, v: real, dx: int, dy: int)
    requires Rectangular(img) && img.width > 0 && img.height > 0 && Even(img, c) && 0 <= dx < 2 && 0 <= dy < 2
    requires 0.0 <= u <= img.width as real - 1.0 && 0.0 <= v <= img.height as real - 1.0
    ensures CornerWeight(u, v, dx, dy) == 0.0
            || Corner(img, u, v, dx, dy) == Colour(Recentred(c), (u.Floor + dx) as real, (v.Floor + dy) as real)
  {
    hide CornerWeight, Along, Scaled, Colour;
    WeightAlong(u, v, dx, dy);
    InsideOrWeightless(u, img.width, dx);
    InsideOrWeightless(v, img.height, dy);
    NoScale(Along(u, dx));
    NoScale(Along(v, dy));
    ColourRecentred(c, (u.Floor + dx) as real, (v.Floor + dy) as real);
    if In(img, u.Floor + dx, v.Floor + dy) {
      assert Corner(img, u, v, dx, dy) == At(img, u.Floor + dx, v.Floor + dy);
    }
  }

  /** Away from the border an even picture enlarges to the colours at the centres of the output cells. */
  lemma EvenEnlarged(img: Image, c: Planes, width: nat, height: nat, x: int, y: int)
    requires Rectangular(img) && img.width > 0 && img.height > 0 && Even(img, c)
    requires 0 <= x < width && 0 <= y < height && (width > img.width || height > img.height)
    requires var sx, sy := img.width as real / width as real, img.height as real / height as real;
             && 0.5 <= Centre(x, sx) <= img.width as real - 0.5
             && 0.5 <= Centre(y, sy) <= img.height as real - 0.5
    ensures var sx, sy := img.width as real / width as real, img.height as real / height as real;
            ResizeAt(img, width, height, x, y) == Colour(c, Centre(x, sx), Centre(y, sy))
  {
    hide CornerWeight, Corner, Centre, Colour, TapsAt, WeightedStraight, Even;
    var sx, sy := img.width as real / width as real, img.height as real / height as real;
    var u, v := Centre(x, sx) - 0.5, Centre(y, sy) - 0.5;
    EnlargedTaps(img, width, height, x, y);
    var points := CornerTaps(img, u, v).points;
    forall dx, dy | 0 <= dx < 2 && 0 <= dy < 2 ensures OnPlane(points, Recentred(c), u, v, dx, dy) {
      EvenCorner(img, c, u, v, dx, dy);
      assert points[2 * dy + dx] == Corner(img, u, v, dx, dy);
    }
    PlaneKept(points, Recentred(c), u, v);
    ColourRecentred(c, u, v);
  }
}
