/** Images as rows of straight-alpha pixels, and the weighted means the oracles take over them. */
module Pixels {

  datatype Pixel = Pixel(r: real, g: real, b: real, a: real)

  const CLEAR := Pixel(0.0, 0.0, 0.0, 0.0)

  datatype Image = Image(width: nat, height: nat, rows: seq<seq<Pixel>>)

  ghost predicate Rectangular(img: Image) {
    |img.rows| == img.height && forall y :: 0 <= y < img.height ==> |img.rows[y]| == img.width
  }

  predicate In(img: Image, x: int, y: int) { 0 <= x < img.width && 0 <= y < img.height }

  ghost function At(img: Image, x: int, y: int): Pixel
    requires Rectangular(img) && In(img, x, y)
  {
    img.rows[y][x]
  }

  /** Samples outside the image are transparent black. */
  ghost function Outside(img: Image, x: int, y: int): Pixel
    requires Rectangular(img)
  {
    if In(img, x, y) then At(img, x, y) else CLEAR
  }

  function Clamp(k: int, size: nat): int
    requires size > 0
  {
    var low := if k <= 0 then 0 else k;
    if size - 1 <= low then size - 1 else low
  }

  /** Samples outside the image repeat its border. */
  ghost function Clamped(img: Image, x: int, y: int): Pixel
    requires Rectangular(img) && img.width > 0 && img.height > 0
  {
    At(img, Clamp(x, img.width), Clamp(y, img.height))
  }

  ghost function Tabulate(width: nat, height: nat, f: (int, int) -> Pixel): (img: Image)
    ensures Rectangular(img) && img.width == width && img.height == height
    ensures forall x, y :: In(img, x, y) ==> At(img, x, y) == f(x, y)
  {
    Image(width, height, seq(height, y => seq(width, x => f(x, y))))
  }

  ghost predicate SamePicture(a: Image, b: Image)
    requires Rectangular(a) && Rectangular(b)
  {
    a.width == b.width && a.height == b.height && forall x, y :: In(a, x, y) ==> At(a, x, y) == At(b, x, y)
  }

  /** The picture an array holds. */
  ghost function View(a: array2<Pixel>): (img: Image)
    reads a
    ensures Rectangular(img) && img.width == a.Length1 && img.height == a.Length0
    ensures forall x, y :: In(img, x, y) ==> At(img, x, y) == a[y, x]
  {
    Image(a.Length1, a.Length0,
          seq(a.Length0, y requires 0 <= y < a.Length0 reads a =>
            seq(a.Length1, x requires 0 <= x < a.Length1 reads a => a[y, x])))
  }

  // ---------------------------------------------------------------- alpha-weighted means

  /** One sample's part of the totals. */
  function Term(p: Pixel, w: real): Pixel {
    var k := p.a * w;
    Pixel(p.r * k, p.g * k, p.b * k, k)
  }

  function Plus(p: Pixel, q: Pixel): Pixel { Pixel(p.r + q.r, p.g + q.g, p.b + q.b, p.a + q.a) }

  /** The total of each colour times alpha times weight, and the total of alpha times weight. */
  function Moment(points: seq<Pixel>, weights: seq<real>): Pixel
    requires |points| == |weights|
  {
    if points == [] then CLEAR
    else
      Plus(Moment(points[..|points| - 1], weights[..|weights| - 1]), Term(points[|points| - 1], weights[|weights| - 1]))
  }

  /** Back from alpha-weighted totals to a straight pixel. */
  function Straight(m: Pixel): Pixel {
    if m.a <= 0.0 then CLEAR else Pixel(m.r / m.a, m.g / m.a, m.b / m.a, Unit(m.a))
  }

  function WeightedStraight(points: seq<Pixel>, weights: seq<real>): Pixel
    requires |points| == |weights|
  {
    Straight(Moment(points, weights))
  }

  function Unit(a: real): real { if a <= 0.0 then 0.0 else if 1.0 <= a then 1.0 else a }

  /** Bilinear weight of the corner at offset `dx`, `dy` from the floor of the point `u`, `v`. */
  function CornerWeight(u: real, v: real, dx: int, dy: int): real {
    (if dx != 0 then u - u.Floor as real else 1.0 - u + u.Floor as real)
    * (if dy != 0 then v - v.Floor as real else 1.0 - v + v.Floor as real)
  }

  function CornerWeights(u: real, v: real): (w: seq<real>)
    ensures |w| == 4
  {
    [CornerWeight(u, v, 0, 0), CornerWeight(u, v, 1, 0), CornerWeight(u, v, 0, 1), CornerWeight(u, v, 1, 1)]
  }
}
