/**
 The demand-driven oracle for images too large to render: it evaluates single output points from the
 generated source, remembering recent intermediate pixels, and must agree with the whole-image one.
 */
module PointOracle {
  import opened Integers
  import opened Results
  import opened Pixels
  import opened Render
  import opened RenderLaws
  import opened Sequences

  // ---------------------------------------------------------------- the generated source

  function GeneratedSource(x: int, y: int): Pixel
    requires 0 <= x && 0 <= y
  {
    Pixel(((x + 3 * y) % 17 - 2) as real / 8.0, ((3 * x + y) % 13 - 1) as real / 8.0,
          ((5 * x + 7 * y) % 19 - 3) as real / 8.0, [0.0, 0.25, 0.5, 1.0][(x + y) % 4])
  }

  /** From `a`, `step` eighths further on a scale of `n` levels that starts again behind its last. */
  ghost predicate Stepped(a: real, b: real, step: int, n: int) {
    b - a == step as real / 8.0 || b - a == (step - n) as real / 8.0
  }

  /**
   The channels start at two, one and three eighths below zero and climb to the right and downwards by
   steps of their own, around scales of seventeen, thirteen and nineteen levels; alpha runs through four.
   */
  lemma SourceSteps(x: int, y: int)
    requires 0 <= x && 0 <= y
    ensures GeneratedSource(0, 0) == Pixel(-0.25, -0.125, -0.375, 0.0)
    ensures var p, q, d := GeneratedSource(x, y), GeneratedSource(x + 1, y), GeneratedSource(x, y + 1);
            && -0.25 <= p.r < 1.875 && -0.125 <= p.g < 1.5 && -0.375 <= p.b < 2.0
            && Stepped(p.r, q.r, 1, 17) && Stepped(p.g, q.g, 3, 13) && Stepped(p.b, q.b, 5, 19)
            && Stepped(p.r, d.r, 3, 17) && Stepped(p.g, d.g, 1, 13) && Stepped(p.b, d.b, 7, 19)
            && q.a == d.a == (if p.a == 0.0 then 0.25 else if p.a == 0.25 then 0.5 else if p.a == 0.5 then 1.0 else 0.0)
  {
    hide GeneratedSource, Stepped;
    SourceOrigin();
    RedSteps(x, y);
    GreenSteps(x, y);
    BlueSteps(x, y);
    AlphaSteps(x, y);
  }

  lemma SourceOrigin()
    ensures GeneratedSource(0, 0) == Pixel(-0.25, -0.125, -0.375, 0.0)
  {
  }

  lemma RedSteps(x: nat, y: nat)
    ensures var p, q, d := GeneratedSource(x, y).r, GeneratedSource(x + 1, y).r, GeneratedSource(x, y + 1).r;
            -0.25 <= p < 1.875 && Stepped(p, q, 1, 17) && Stepped(p, d, 3, 17)
  {
    hide Stepped;
    Climbs(x + 3 * y, 1, 17, 2);
    Climbs(x + 3 * y, 3, 17, 2);
  }

  lemma GreenSteps(x: nat, y: nat)
    ensures var p, q, d := GeneratedSource(x, y).g, GeneratedSource(x + 1, y).g, GeneratedSource(x, y + 1).g;
            -0.125 <= p < 1.5 && Stepped(p, q, 3, 13) && Stepped(p, d, 1, 13)
  {
    hide Stepped;
    Climbs(3 * x + y, 3, 13, 1);
    Climbs(3 * x + y, 1, 13, 1);
  }

  lemma BlueSteps(x: nat, y: nat)
    ensures var p, q, d := GeneratedSource(x, y).b, GeneratedSource(x + 1, y).b, GeneratedSource(x, y + 1).b;
            -0.375 <= p < 2.0 && Stepped(p, q, 5, 19) && Stepped(p, d, 7, 19)
  {
    hide Stepped;
    Climbs(5 * x + 7 * y, 5, 19, 3);
    Climbs(5 * x + 7 * y, 7, 19, 3);
  }

  lemma AlphaSteps(x: nat, y: nat)
    ensures var p, q, d := GeneratedSource(x, y).a, GeneratedSource(x + 1, y).a, GeneratedSource(x, y + 1).a;
            q == d == (if p == 0.0 then 0.25 else if p == 0.25 then 0.5 else if p == 0.5 then 1.0 else 0.0)
  {
    Wraps(x + y, 1, 4);
  }

  lemma Climbs(a: nat, step: nat, n: nat, low: nat)
    requires 0 < step < n
    ensures var p, q := (a % n - low) as real / 8.0, ((a + step) % n - low) as real / 8.0;
            Stepped(p, q, step, n) && (0 - low) as real / 8.0 <= p < (n - low) as real / 8.0
  {
    Wraps(a, step, n);
  }

  lemma Wraps(a: nat, step: nat, n: nat)
    requires 0 < step < n
    ensures 0 <= a % n < n && (a + step) % n == (if a % n + step < n then a % n + step else a % n + step - n)
  {
    var q, r := a / n, a % n;
    assert a == q * n + r;
    if r + step < n {
      RemainderIs(a + step, n, q, r + step);
    } else {
      assert (q + 1) * n == q * n + n;
      RemainderIs(a + step, n, q + 1, r + step - n);
    }
  }

  /** The generated picture with its profile decoded, as the whole-image oracle is given it. */
  ghost function SourceImage(width: nat, height: nat, m: Maths): Image {
    Tabulate(width, height, (x, y) => if 0 <= x && 0 <= y then m.linear(GeneratedSource(x, y)) else CLEAR)
  }

  // ---------------------------------------------------------------- bounded memory

  const CACHE_SIZE := 8192

  type Point = (int, int)

  /** The standard library's least-recently-used cache: `recent` lists the keys, oldest first. */
  datatype Cache = Cache(entries: map<Point, Pixel>, recent: seq<Point>)

  const NO_MEMORY := Cache(map[], [])

  ghost predicate Bounded(c: Cache) {
    && |c.recent| <= CACHE_SIZE && Distinct(c.recent)
    && forall k :: k in c.entries <==> k in c.recent
  }

  function Touched(c: Cache, k: Point): Cache { c.(recent := Without(c.recent, k) + [k]) }

  /** A full cache forgets its oldest key first. */
  function Stored(c: Cache, k: Point, p: Pixel): Cache {
    if |c.recent| < CACHE_SIZE || c.recent == [] then Cache(c.entries[k := p], c.recent + [k])
    else Cache((c.entries - {c.recent[0]})[k := p], c.recent[1..] + [k])
  }

  /** A hit changes the order only. */
  lemma TouchedSound(c: Cache, k: Point)
    requires Bounded(c) && k in c.entries
    ensures Bounded(Touched(c, k)) && Touched(c, k).entries == c.entries
  {
    WithoutDistinct(c.recent, k);
  }

  /** A store adds one entry, keeps the others or forgets some, and never outgrows the bound. */
  lemma StoredSound(c: Cache, k: Point, p: Pixel)
    requires Bounded(c) && k !in c.entries
    ensures Bounded(Stored(c, k, p))
    ensures k in Stored(c, k, p).entries
    ensures forall j :: j in Stored(c, k, p).entries ==>
              if j == k then Stored(c, k, p).entries[j] == p
              else j in c.entries && Stored(c, k, p).entries[j] == c.entries[j]
  {
    if |c.recent| == CACHE_SIZE {
      assert c.recent == [c.recent[0]] + c.recent[1..];
      forall i | 0 <= i < |c.recent| - 1 ensures c.recent[1..][i] != c.recent[0] {
        assert c.recent[i + 1] != c.recent[0];
      }
    }
  }

  // ---------------------------------------------------------------- locality

  /** `small` is the clamped 3 by 3 surrounding of a point of `big`. */
  ghost predicate Surrounds(small: Image, big: Image, x: int, y: int)
    requires Rectangular(small) && Rectangular(big)
  {
    && small.width == small.height == 3 && In(big, x, y)
    && forall i, j :: 0 <= i < 3 && 0 <= j < 3 ==> At(small, i, j) == Clamped(big, x + i - 1, y + j - 1)
  }

  lemma {:induction false} RowLocal(small: Image, big: Image, x: int, y: int, j: int, past: int)
    requires Rectangular(small) && Rectangular(big) && Surrounds(small, big, x, y) && 0 <= j < 3 && past <= 2
    ensures WindowRow(small, 1, j, -1, past) == WindowRow(big, x, y + j - 1, -1, past)
    decreases past + 1
  {
    if past > -1 {
      RowLocal(small, big, x, y, j, past - 1);
      assert At(small, past, j) == Clamped(big, x + past - 1, y + j - 1);
    }
  }

  lemma {:induction false} RowsLocal(small: Image, big: Image, x: int, y: int, past: int)
    requires Rectangular(small) && Rectangular(big) && Surrounds(small, big, x, y) && past <= 2
    ensures WindowRows(small, 1, 1, 1, past) == WindowRows(big, x, y, 1, past)
    decreases past + 1
  {
    if past > -1 {
      RowsLocal(small, big, x, y, past - 1);
      RowLocal(small, big, x, y, past, 2);
      assert WindowRow(small, 1, 1 + past - 1, -1, 2) == WindowRow(big, x, y + past - 1, -1, 2);
    }
  }

  /** Denoising the clamped 3 by 3 neighbourhood gives its centre the value it has in the whole picture. */
  lemma DenoiseLocal(small: Image, big: Image, s: Settings, x: int, y: int)
    requires Rectangular(small) && Rectangular(big) && Surrounds(small, big, x, y) && Admitted(s)
    ensures DenoiseAt(small, s, 1, 1) == DenoiseAt(big, s, x, y)
  {
    hide DenoisePixel, WindowRows;
    RowsLocal(small, big, x, y, 2);
    assert At(small, 1, 1) == Clamped(big, x + 1 - 1, y + 1 - 1);
  }

  // ---------------------------------------------------------------- the evaluator

  class PointEvaluator {
    const width: nat
    const height: nat
    const s: Settings
    const m: Maths
    const box: Box
    var developed: Cache
    var geometric: Cache

    /** What the remembered pixels must agree with. */
    ghost function Whole(): (img: Image)
      requires Admitted(s)
      ensures Rectangular(img) && img.width == width && img.height == height
    {
      Render.Developed(SourceImage(width, height, m), s, m)
    }

    ghost predicate Valid()
      reads this
    {
      && Admitted(s) && box == CropBox(s, width, height)
      && Bounded(developed) && Bounded(geometric)
      && (forall k :: k in developed.entries ==> developed.entries[k] == Outside(Whole(), k.0, k.1))
      && (forall k :: k in geometric.entries ==> geometric.entries[k] == GeometryAt(Whole(), s, m, k.0, k.1))
    }

    constructor (width: nat, height: nat, s: Settings, m: Maths)
      requires Admitted(s)
      ensures Valid() && this.width == width && this.height == height && this.s == s && this.m == m
    {
      this.width, this.height, this.s, this.m := width, height, s, m;
      box := CropBox(s, width, height);
      developed, geometric := NO_MEMORY, NO_MEMORY;
    }

    /** The white-balanced 3 by 3 neighbourhood of a source point, clamped at the border. */
    method Prepared(x: int, y: int) returns (nine: array2<Pixel>)
      requires 0 <= x < width && 0 <= y < height
      ensures fresh(nine) && nine.Length0 == nine.Length1 == 3
      ensures Surrounds(View(nine), Mapped(SourceImage(width, height, m), m.balance), x, y)
    {
      hide Mapped, GeneratedSource;
      var w, h, maths := width, height, m;
      nine := new Pixel[3, 3]((j, i) =>
        maths.balance(maths.linear(GeneratedSource(Clamp(x + i - 1, w), Clamp(y + j - 1, h)))));
      ghost var source := SourceImage(width, height, m);
      ghost var big := Mapped(source, m.balance);
      MappedSize(source, m.balance);
      forall i, j | 0 <= i < 3 && 0 <= j < 3
        ensures At(View(nine), i, j) == Clamped(big, x + i - 1, y + j - 1)
      {
        MappedAt(source, m.balance, Clamp(x + i - 1, w), Clamp(y + j - 1, h));
      }
    }

    /** A source point developed from its own neighbourhood alone. */
    method DevelopPoint(x: int, y: int) returns (p: Pixel)
      requires Admitted(s)
      ensures p == Outside(Whole(), x, y)
    {
      if !(0 <= x < width && 0 <= y < height) { return CLEAR; }
      hide DenoiseAt;
      var nine := Prepared(x, y);
      var denoised := Denoise(nine, s);
      ghost var balanced := Mapped(SourceImage(width, height, m), m.balance);
      DenoiseLocal(View(nine), balanced, s, x, y);
      assert At(Denoised(balanced, s), x, y) == denoised[1, 1];
      MappedAt(Denoised(balanced, s), m.tone, x, y);
      p := m.tone(denoised[1, 1]);
    }

    method Developed(x: int, y: int) returns (p: Pixel)
      requires Valid()
      modifies this`developed
      ensures Valid()
      ensures p == Outside(Whole(), x, y)
    {
      hide Whole, GeometryAt, Touched, Stored;
      if (x, y) in developed.entries {
        p := developed.entries[(x, y)];
        TouchedSound(developed, (x, y));
        developed := Touched(developed, (x, y));
      } else {
        p := DevelopPoint(x, y);
        StoredSound(developed, (x, y), p);
        developed := Stored(developed, (x, y), p);
      }
    }

    method GeometricPoint(x: int, y: int) returns (p: Pixel)
      requires Valid()
      modifies this`developed
      ensures Valid()
      ensures p == GeometryAt(Whole(), s, m, x, y)
    {
      hide Whole;
      if s.straighten == 0.0 {
        p := Developed(x + box.left, y + box.top);
        return;
      }
      var o := Rotated(s, m, width, height, x, y);
      var points, weights := [], [];
      for dy := 0 to 2
        invariant Valid()
        invariant points == Corners(Whole(), o)[..2 * dy] && weights == CornerWeights(o.x, o.y)[..2 * dy]
      {
        for dx := 0 to 2
          invariant Valid()
          invariant points == Corners(Whole(), o)[..2 * dy + dx] && weights == CornerWeights(o.x, o.y)[..2 * dy + dx]
        {
          var q := Developed(o.x.Floor + dx, o.y.Floor + dy);
          points := points + [q];
          weights := weights + [CornerWeight(o.x, o.y, dx, dy)];
        }
      }
      assert points == Corners(Whole(), o) && weights == CornerWeights(o.x, o.y);
      p := WeightedStraight(points, weights);
    }

    method Geometric(x: int, y: int) returns (p: Pixel)
      requires Valid()
      modifies this
      ensures Valid()
      ensures p == GeometryAt(Whole(), s, m, x, y)
    {
      hide Whole, GeometryAt, Touched, Stored;
      if (x, y) in geometric.entries {
        p := geometric.entries[(x, y)];
        TouchedSound(geometric, (x, y));
        geometric := Touched(geometric, (x, y));
      } else {
        p := GeometricPoint(x, y);
        StoredSound(geometric, (x, y), p);
        geometric := Stored(geometric, (x, y), p);
      }
    }

    /** The cropped or rotated picture that sharpening looks at. */
    ghost function Canvas(): (img: Image)
      requires Admitted(s) && !Collapsed(CropBox(s, width, height))
      ensures Rectangular(img)
      ensures var b := CropBox(s, width, height); img.width == b.right - b.left && img.height == b.bottom - b.top
    {
      Turned(Whole(), s, m)
    }

    method SharpRow(x: int, y: int, dy: int, rows: seq<Pixel>, taps: seq<real>)
      returns (points: seq<Pixel>, weights: seq<real>)
      requires Valid() && !Collapsed(box) && In(Canvas(), x, y)
      modifies this
      ensures Valid()
      ensures points == rows + WindowRow(Canvas(), x, y + dy, -Radius(s), Radius(s) + 1)
      ensures weights == taps + TapRow(s, dy, Radius(s) + 1)
    {
      hide TapWeight, GeometryAt, Whole;
      points, weights := rows, taps;
      var outWidth, outHeight := box.right - box.left, box.bottom - box.top;
      for dx := -Radius(s) to Radius(s) + 1
        invariant Valid()
        invariant points == rows + WindowRow(Canvas(), x, y + dy, -Radius(s), dx)
        invariant weights == taps + TapRow(s, dy, dx)
      {
        var u, v := Clamp(x + dx, outWidth), Clamp(y + dy, outHeight);
        var p := Geometric(u, v);
        assert p == Clamped(Canvas(), x + dx, y + dy);
        points := points + [p];
        weights := weights + [TapWeight(s, dx, dy)];
      }
    }

    lemma RenderedPoint(x: int, y: int)
      requires Admitted(s) && !Collapsed(CropBox(s, width, height)) && In(Canvas(), x, y)
      ensures var whole := Rendered(SourceImage(width, height, m), s, m);
              whole.Some? && In(whole.value, x, y) && At(whole.value, x, y) == SharpenAt(Canvas(), s, x, y)
    {
    }

    /** Without sharpening, a turned point shows the developed picture where turning carries it from. */
    lemma TurnedPoint(x: int, y: int)
      requires Admitted(s) && s.amount == 0.0
      requires var whole := Rendered(SourceImage(width, height, m), s, m); whole.Some? && In(whole.value, x, y)
      ensures var p := At(Rendered(SourceImage(width, height, m), s, m).value, x, y);
              && (s.straighten != 0.0 && OnCircle(s, m) ==>
                    exists o :: TurnsTo(s, m, width, height, o, x, y) && p == Sampled(Whole(), o))
              && (QuarterTurn(s, m) && width == height ==>
                    In(Whole(), y, width - 1 - x)
                    && (Visible(At(Whole(), y, width - 1 - x)) ==> p == At(Whole(), y, width - 1 - x)))
    {
      hide Rendered, TurnsTo, Sampled, OnCircle, Visible;
      var source := SourceImage(width, height, m);
      if s.straighten != 0.0 && OnCircle(s, m) { RenderedTurned(source, s, m, x, y); }
      if QuarterTurn(s, m) && width == height {
        RenderedInside(source, s, m, x, y);
        if Visible(At(Whole(), y, width - 1 - x)) { RenderedQuarterTurned(source, s, m, x, y); }
      }
    }

    method Sharp(x: int, y: int, result: Pixel) returns (p: Pixel)
      requires Valid() && !Collapsed(box) && In(Canvas(), x, y) && result == At(Canvas(), x, y) && s.amount != 0.0
      modifies this
      ensures Valid()
      ensures p == SharpenAt(Canvas(), s, x, y)
    {
      hide GeometryAt, Whole, Unsharp, Canvas, WindowRow, TapRow;
      var points: seq<Pixel>, weights: seq<real> := [], [];
      for dy := -Radius(s) to Radius(s) + 1
        invariant Valid()
        invariant points == WindowRows(Canvas(), x, y, Radius(s), dy) && weights == TapRows(s, dy)
      {
        points, weights := SharpRow(x, y, dy, points, weights);
      }
      WindowSize(Canvas(), s, x, y, Radius(s) + 1);
      p := Unsharp(s, result, points, weights);
    }

    /**
     Refuses exactly the points outside the output; every other point is the pixel the whole-image
     pipeline computes there, whatever was evaluated, remembered or forgotten before.
     */
    method Evaluate(x: int, y: int) returns (r: Result<Pixel, string>)
      requires Valid()
      modifies this
      ensures Valid()
      ensures var whole := Rendered(SourceImage(width, height, m), s, m);
              r == if whole.Some? && In(whole.value, x, y) then Ok(At(whole.value, x, y))
                else Err("point outside output")
      ensures r.Ok? && s.amount == 0.0 && s.straighten != 0.0 && OnCircle(s, m) ==>
                exists o :: TurnsTo(s, m, width, height, o, x, y) && r.value == Sampled(Whole(), o)
      ensures r.Ok? && s.amount == 0.0 && QuarterTurn(s, m) && width == height ==>
                In(Whole(), y, width - 1 - x)
                && (Visible(At(Whole(), y, width - 1 - x)) ==> r.value == At(Whole(), y, width - 1 - x))
    {
      hide GeometryAt, Whole, SharpenAt, TurnsTo, Sampled, OnCircle, QuarterTurn, Visible;
      var outWidth, outHeight := box.right - box.left, box.bottom - box.top;
      if !(0 <= x < outWidth && 0 <= y < outHeight) { return Err("point outside output"); }
      var result := Geometric(x, y);
      assert In(Canvas(), x, y) && result == At(Canvas(), x, y);
      RenderedPoint(x, y);
      if s.amount != 0.0 {
        result := Sharp(x, y, result);
      } else {
        Unsharpened(Canvas(), s, x, y);
        TurnedPoint(x, y);
      }
      return Ok(result);
    }
  }

  lemma Unsharpened(img: Image, s: Settings, x: int, y: int)
    requires Rectangular(img) && In(img, x, y) && s.amount == 0.0
    ensures SharpenAt(img, s, x, y) == At(img, x, y)
  {
  }
}
