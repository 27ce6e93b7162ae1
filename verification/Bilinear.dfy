/** What the bilinear mean of four samples is: the sample itself at a grid point, and planes of colour are kept. */
module Bilinear {
  import opened Pixels

  /** A level that changes evenly across the picture. */
  datatype Plane = Plane(base: real, across: real, down: real)

  function Level(p: Plane, u: real, v: real): real { p.base + p.across * u + p.down * v }

  /** An opaque colour whose channels are three such levels. */
  datatype Planes = Planes(r: Plane, g: Plane, b: Plane)

  function Colour(c: Planes, u: real, v: real): Pixel {
    Pixel(Level(c.r, u, v), Level(c.g, u, v), Level(c.b, u, v), 1.0)
  }

  // ---------------------------------------------------------------- totals of four samples

  lemma MomentStep(points: seq<Pixel>, weights: seq<real>, p: Pixel, w: real)
    requires |points| == |weights|
    ensures Moment(points + [p], weights + [w]) == Plus(Moment(points, weights), Term(p, w))
  {
    hide Term, Plus;
    assert (points + [p])[..|points|] == points && (weights + [w])[..|points|] == weights;
  }

  lemma MomentOfFour(p: seq<Pixel>, w: seq<real>)
    requires |p| == |w| == 4
    ensures Moment(p, w)
            == Plus(Plus(Plus(Plus(CLEAR, Term(p[0], w[0])), Term(p[1], w[1])), Term(p[2], w[2])), Term(p[3], w[3]))
  {
    hide Moment, Term, Plus;
    MomentOfNone();
    MomentStep([], [], p[0], w[0]);
    MomentStep([p[0]], [w[0]], p[1], w[1]);
    MomentStep([p[0], p[1]], [w[0], w[1]], p[2], w[2]);
    MomentStep([p[0], p[1], p[2]], [w[0], w[1], w[2]], p[3], w[3]);
    assert [] + [p[0]] == [p[0]] && [p[0]] + [p[1]] == [p[0], p[1]] && [p[0], p[1]] + [p[2]] == [p[0], p[1], p[2]];
    assert [] + [w[0]] == [w[0]] && [w[0]] + [w[1]] == [w[0], w[1]] && [w[0], w[1]] + [w[2]] == [w[0], w[1], w[2]];
    assert p == [p[0], p[1], p[2]] + [p[3]] && w == [w[0], w[1], w[2]] + [w[3]];
  }

  lemma MomentOfNone()
    ensures Moment([], []) == CLEAR
  {
  }

  // ---------------------------------------------------------------- grid points

  /** At a grid point the mean is the sample there, whatever the other three are. */
  lemma AtGridPoint(points: seq<Pixel>, x: int, y: int)
    requires |points| == 4 && 0.0 < points[0].a <= 1.0
    ensures WeightedStraight(points, CornerWeights(x as real, y as real)) == points[0]
  {
    hide Moment, Term, Plus, CornerWeights, Straight;
    var w := CornerWeights(x as real, y as real);
    GridWeights(x, y);
    MomentOfFour(points, w);
    GridTerms(points[0], points[1], points[2], points[3]);
    StraightBack(points[0]);
  }

  lemma GridWeights(x: int, y: int)
    ensures CornerWeights(x as real, y as real) == [1.0, 0.0, 0.0, 0.0]
  {
  }

  lemma GridTerms(p: Pixel, q: Pixel, r: Pixel, s: Pixel)
    ensures Plus(Plus(Plus(Plus(CLEAR, Term(p, 1.0)), Term(q, 0.0)), Term(r, 0.0)), Term(s, 0.0)) == Term(p, 1.0)
  {
  }

  lemma StraightBack(p: Pixel)
    requires 0.0 < p.a <= 1.0
    ensures Straight(Term(p, 1.0)) == p
  {
    hide Term, Straight;
    WholeTerm(p);
    StraightOf(p, Term(p, 1.0));
  }

  lemma WholeTerm(p: Pixel)
    ensures Term(p, 1.0) == Pixel(p.r * p.a, p.g * p.a, p.b * p.a, p.a)
  {
    assert p.a * 1.0 == p.a;
  }

  lemma StraightOf(p: Pixel, m: Pixel)
    requires 0.0 < p.a <= 1.0 && m == Pixel(p.r * p.a, p.g * p.a, p.b * p.a, p.a)
    ensures Straight(m) == p
  {
    Divided(p.r, p.a);
    Divided(p.g, p.a);
    Divided(p.b, p.a);
  }

  lemma Divided(x: real, a: real)
    requires a != 0.0
    ensures x * a / a == x
  {
  }

  // ---------------------------------------------------------------- planes

  lemma Weights(u: real, v: real)
    ensures var f, g := u - u.Floor as real, v - v.Floor as real;
            && CornerWeight(u, v, 0, 0) == (1.0 - f) * (1.0 - g) && CornerWeight(u, v, 1, 0) == f * (1.0 - g)
            && CornerWeight(u, v, 0, 1) == (1.0 - f) * g && CornerWeight(u, v, 1, 1) == f * g
  {
  }

  /** The product as a term of its own, which keeps proofs from multiplying out. */
  function Scaled(x: real, w: real): real { x * w }

  lemma WeightTotals(u: real, v: real)
    ensures var w := CornerWeights(u, v);
            && w[0] + w[1] + w[2] + w[3] == 1.0
            && w[1] + w[3] == u - u.Floor as real && w[2] + w[3] == v - v.Floor as real
  {
    var f, g := u - u.Floor as real, v - v.Floor as real;
    Weights(u, v);
    ProductTotals(f, g);
  }

  lemma ProductTotals(f: real, g: real)
    ensures f * (1.0 - g) + f * g == f && (1.0 - f) * g + f * g == g
    ensures (1.0 - f) * (1.0 - g) + f * (1.0 - g) + (1.0 - f) * g + f * g == 1.0
  {
  }

  lemma Regrouped(l: real, c: real, d: real, p: real, q: real, r: real, s: real)
    ensures Scaled(l, p) + Scaled(l + c, q) + Scaled(l + d, r) + Scaled(l + c + d, s)
            == Scaled(l, p + q + r + s) + Scaled(c, q + s) + Scaled(d, r + s)
    ensures Scaled(l, 1.0) == l
  {
  }

  /** The sample at offset `dx`, `dy` is the plane's, unless it does not weigh. */
  predicate OnPlane(points: seq<Pixel>, c: Planes, u: real, v: real, dx: int, dy: int)
    requires |points| == 4 && 0 <= dx < 2 && 0 <= dy < 2
  {
    CornerWeight(u, v, dx, dy) == 0.0
    || points[2 * dy + dx] == Colour(c, (u.Floor + dx) as real, (v.Floor + dy) as real)
  }

  lemma WeighedLevel(p: Plane, u: real, v: real)
    ensures var w, x, y := CornerWeights(u, v), u.Floor as real, v.Floor as real;
            && w[0] + w[1] + w[2] + w[3] == 1.0
            && Scaled(Level(p, x, y), w[0]) + Scaled(Level(p, x + 1.0, y), w[1]) + Scaled(Level(p, x, y + 1.0), w[2])
               + Scaled(Level(p, x + 1.0, y + 1.0), w[3]) == Level(p, u, v)
  {
    hide CornerWeights, Scaled, Level;
    var w, x, y := CornerWeights(u, v), u.Floor as real, v.Floor as real;
    WeightTotals(u, v);
    Regrouped(Level(p, x, y), p.across, p.down, w[0], w[1], w[2], w[3]);
    LevelSteps(p, x, y, u - x, v - y);
  }

  lemma LevelSteps(p: Plane, x: real, y: real, f: real, g: real)
    ensures Level(p, x + 1.0, y) == Level(p, x, y) + p.across
    ensures Level(p, x, y + 1.0) == Level(p, x, y) + p.down
    ensures Level(p, x + 1.0, y + 1.0) == Level(p, x, y) + p.across + p.down
    ensures Level(p, x + f, y + g) == Level(p, x, y) + Scaled(p.across, f) + Scaled(p.down, g)
  {
  }

  lemma TermWeighs(p: Pixel, q: Pixel, w: real)
    requires q.a == 1.0 && (w == 0.0 || p == q)
    ensures Term(p, w) == Pixel(Scaled(q.r, w), Scaled(q.g, w), Scaled(q.b, w), w)
  {
    if w != 0.0 { assert p.a * w == w; }
  }

  /** Four samples of a plane have the plane's own value as their mean, wherever the point lies between them. */
  lemma PlaneKept(points: seq<Pixel>, c: Planes, u: real, v: real)
    requires |points| == 4
    requires forall dx, dy :: 0 <= dx < 2 && 0 <= dy < 2 ==> OnPlane(points, c, u, v, dx, dy)
    ensures WeightedStraight(points, CornerWeights(u, v)) == Colour(c, u, v)
  {
    hide Moment, Term, Level, CornerWeight, Scaled;
    var w, x, y := CornerWeights(u, v), u.Floor as real, v.Floor as real;
    assert OnPlane(points, c, u, v, 0, 0) && OnPlane(points, c, u, v, 1, 0);
    assert OnPlane(points, c, u, v, 0, 1) && OnPlane(points, c, u, v, 1, 1);
    MomentOfFour(points, w);
    TermWeighs(points[0], Colour(c, x, y), w[0]);
    TermWeighs(points[1], Colour(c, x + 1.0, y), w[1]);
    TermWeighs(points[2], Colour(c, x, y + 1.0), w[2]);
    TermWeighs(points[3], Colour(c, x + 1.0, y + 1.0), w[3]);
    WeighedLevel(c.r, u, v);
    WeighedLevel(c.g, u, v);
    WeighedLevel(c.b, u, v);
    assert Moment(points, w) == Colour(c, u, v);
  }
}
