/** Triangle setup and the per-pixel coverage test of `RenderTriangle`: screen mapping,
    edge functions, barycentric weights, the clamped pixel bounding box and the interpolated depth. */
module Coverage {
  import opened Geometry
  import opened Numeric
  import opened Cull

  /** NDC to screen: ((x + 1) / 2 * width, (1 - y) / 2 * height). */
  function ToScreen(p: Vec4, width: nat, height: nat): (r: Vec2)
    ensures 0 < width ==> r.x / width as real * 2.0 - 1.0 == p.x
    ensures 0 < height ==> 1.0 - r.y / height as real * 2.0 == p.y
  {
    ScreenXInverse(p.x, width);
    ScreenYInverse(p.y, height);
    Vec2(ScreenX(p.x, width), ScreenY(p.y, height))
  }

  function ScreenX(x: real, width: nat): real
  {
    (x + 1.0) * 0.5 * width as real
  }

  function ScreenY(y: real, height: nat): real
  {
    (1.0 - y) * 0.5 * height as real
  }

  /** On a non-empty screen the mapping is invertible: dividing by the size recovers NDC. */
  lemma ScreenXInverse(x: real, width: nat)
    ensures 0 < width ==> ScreenX(x, width) / width as real * 2.0 - 1.0 == x
  {
    if 0 < width {
      var t, w := (x + 1.0) * 0.5, width as real;
      assert ScreenX(x, width) == t * w;
      CancelFactor(t, w);
    }
  }

  lemma ScreenYInverse(y: real, height: nat)
    ensures 0 < height ==> 1.0 - ScreenY(y, height) / height as real * 2.0 == y
  {
    if 0 < height {
      var t, h := (1.0 - y) * 0.5, height as real;
      assert ScreenY(y, height) == t * h;
      CancelFactor(t, h);
    }
  }

  lemma CancelFactor(t: real, a: real)
    requires a != 0.0
    ensures t * a / a == t
  {
    var d := t * a / a;
    assert d * a == t * a;
    assert (d - t) * a == 0.0;
  }

  /** A vertex that survives the cull lands inside the [0, width] x [0, height] screen rectangle. */
  lemma ScreenOfVisiblePoint(p: Vec4, width: nat, height: nat)
    requires InCanonicalVolume(p)
    ensures 0.0 <= ToScreen(p, width, height).x <= width as real
    ensures 0.0 <= ToScreen(p, width, height).y <= height as real
  {
    ScreenXInRange(p.x, width);
    ScreenYInRange(p.y, height);
  }

  lemma ScreenXInRange(x: real, width: nat)
    requires -1.0 <= x <= 1.0
    ensures 0.0 <= ScreenX(x, width) <= width as real
  {
    var t := (x + 1.0) * 0.5;
    assert 0.0 <= t <= 1.0;
    ScaleUnit(t, width as real);
    assert ScreenX(x, width) == t * width as real;
  }

  lemma ScreenYInRange(y: real, height: nat)
    requires -1.0 <= y <= 1.0
    ensures 0.0 <= ScreenY(y, height) <= height as real
  {
    var t := (1.0 - y) * 0.5;
    assert 0.0 <= t <= 1.0;
    ScaleUnit(t, height as real);
    assert ScreenY(y, height) == t * height as real;
  }

  lemma ScaleUnit(t: real, a: real)
    requires 0.0 <= t <= 1.0 && 0.0 <= a
    ensures 0.0 <= t * a <= a
  {
    assert a - t * a == (1.0 - t) * a;
  }

  /** The three edge-function values of a point q: `Cross(e_i, q - p_i)` for the directed edges
      e0 = p1 - p0, e1 = p2 - p1, e2 = p0 - p2. */
  datatype Edges = Edges(c0: real, c1: real, c2: real)

  /** Each edge function vanishes at both endpoints of its own edge. */
  function EdgeValues(p0: Vec2, p1: Vec2, p2: Vec2, q: Vec2): (e: Edges)
    ensures q == p0 || q == p1 ==> e.c0 == 0.0
    ensures q == p1 || q == p2 ==> e.c1 == 0.0
    ensures q == p2 || q == p0 ==> e.c2 == 0.0
  {
    Edges(Cross(Sub(p1, p0), Sub(q, p0)),
          Cross(Sub(p2, p1), Sub(q, p1)),
          Cross(Sub(p0, p2), Sub(q, p2)))
  }

  /** `triangleArea = Cross(e0, e1)`: twice the signed area of the screen triangle. The same
      value comes from the cross product of any two consecutive edges, and listing the
      vertices in the opposite order negates it. */
  function Area(p0: Vec2, p1: Vec2, p2: Vec2): (a: real)
    ensures a == Cross(Sub(p2, p1), Sub(p0, p2)) && a == Cross(Sub(p0, p2), Sub(p1, p0))
    ensures a == -Cross(Sub(p2, p0), Sub(p1, p2))
  {
    Cross(Sub(p1, p0), Sub(p2, p1))
  }

  /** A pixel is covered only when all three edge values are strictly positive; since the edge
      functions vanish at the vertices, a vertex itself is never covered. */
  predicate Covers(p0: Vec2, p1: Vec2, p2: Vec2, q: Vec2)
    ensures Covers(p0, p1, p2, q) ==> q != p0 && q != p1 && q != p2
  {
    var e := EdgeValues(p0, p1, p2, q);
    e.c0 > 0.0 && e.c1 > 0.0 && e.c2 > 0.0
  }

  /** For every point the three edge values add up to the triangle's area. */
  lemma EdgeValuesSumToArea(p0: Vec2, p1: Vec2, p2: Vec2, q: Vec2)
    ensures var e := EdgeValues(p0, p1, p2, q); e.c0 + e.c1 + e.c2 == Area(p0, p1, p2)
  {
    var e := EdgeValues(p0, p1, p2, q);
    assert e.c0 == (p1.x - p0.x) * (q.y - p0.y) - (p1.y - p0.y) * (q.x - p0.x);
    assert e.c1 == (p2.x - p1.x) * (q.y - p1.y) - (p2.y - p1.y) * (q.x - p1.x);
    assert e.c2 == (p0.x - p2.x) * (q.y - p2.y) - (p0.y - p2.y) * (q.x - p2.x);
    assert Area(p0, p1, p2) == (p1.x - p0.x) * (p2.y - p1.y) - (p1.y - p0.y) * (p2.x - p1.x);
  }

  /** Only a triangle of strictly positive area covers anything: a degenerate or clockwise
      triangle writes no pixel. Pixels on an edge (value exactly 0) are never covered. */
  lemma CoveredOnlyByPositiveArea(p0: Vec2, p1: Vec2, p2: Vec2, q: Vec2)
    ensures Covers(p0, p1, p2, q) ==> Area(p0, p1, p2) > 0.0
    ensures Area(p0, p1, p2) <= 0.0 ==> !Covers(p0, p1, p2, q)
    ensures var e := EdgeValues(p0, p1, p2, q); (e.c0 == 0.0 || e.c1 == 0.0 || e.c2 == 0.0) ==> !Covers(p0, p1, p2, q)
  {
    EdgeValuesSumToArea(p0, p1, p2, q);
  }

  datatype Weights = Weights(w0: real, w1: real, w2: real)

  /** weight0 = c1 / area, weight1 = c2 / area, weight2 = c0 / area: each vertex is weighted by
      the edge value of the edge opposite it. The weights sum to 1, and at a covered pixel each
      lies strictly between 0 and 1. */
  function BarycentricWeights(p0: Vec2, p1: Vec2, p2: Vec2, q: Vec2): (w: Weights)
    requires Area(p0, p1, p2) != 0.0
    ensures w.w0 + w.w1 + w.w2 == 1.0
    ensures Covers(p0, p1, p2, q) ==> 0.0 < w.w0 < 1.0 && 0.0 < w.w1 < 1.0 && 0.0 < w.w2 < 1.0
  {
    var e := EdgeValues(p0, p1, p2, q);
    var a := Area(p0, p1, p2);
    EdgeValuesSumToArea(p0, p1, p2, q);
    CoveredOnlyByPositiveArea(p0, p1, p2, q);
    var w := Weights(e.c1 / a, e.c2 / a, e.c0 / a);
    DivideSum(e.c1, e.c2, e.c0, a);
    CoveredWeightsInUnit(e, a);
    w
  }

  lemma CoveredWeightsInUnit(e: Edges, a: real)
    requires e.c0 + e.c1 + e.c2 == a && a != 0.0
    ensures e.c0 > 0.0 && e.c1 > 0.0 && e.c2 > 0.0 ==>
      0.0 < e.c1 / a < 1.0 && 0.0 < e.c2 / a < 1.0 && 0.0 < e.c0 / a < 1.0
  {
    if e.c0 > 0.0 && e.c1 > 0.0 && e.c2 > 0.0 {
      FractionOfSum(e.c1, e.c2 + e.c0, a);
      FractionOfSum(e.c2, e.c1 + e.c0, a);
      FractionOfSum(e.c0, e.c1 + e.c2, a);
    }
  }

  lemma FractionOfSum(part: real, rest: real, total: real)
    requires 0.0 < part && 0.0 < rest && part + rest == total
    ensures 0.0 < part / total < 1.0
  {
    assert total > 0.0;
    assert part / total > 0.0;
    assert rest / total > 0.0;
    DivideSum(part, rest, 0.0, total);
    assert total / total == 1.0;
  }

  lemma DivideSum(a: real, b: real, c: real, d: real)
    requires d != 0.0
    ensures a / d + b / d + c / d == (a + b + c) / d
  {
    assert (a / d) * d == a;
    assert (b / d) * d == b;
    assert (c / d) * d == c;
    assert (a / d + b / d + c / d) * d == a + b + c;
  }

  /** The weights reconstruct the pixel from the screen vertices. */
  lemma WeightsReconstructPoint(p0: Vec2, p1: Vec2, p2: Vec2, q: Vec2)
    requires Area(p0, p1, p2) != 0.0
    ensures var w := BarycentricWeights(p0, p1, p2, q);
      w.w0 * p0.x + w.w1 * p1.x + w.w2 * p2.x == q.x &&
      w.w0 * p0.y + w.w1 * p1.y + w.w2 * p2.y == q.y
  {
    var e := EdgeValues(p0, p1, p2, q);
    var a := Area(p0, p1, p2);
    var w := BarycentricWeights(p0, p1, p2, q);
    assert w == Weights(e.c1 / a, e.c2 / a, e.c0 / a);
    assert w.w0 * p0.x + w.w1 * p1.x + w.w2 * p2.x == q.x by {
      WeightedEdgesX(p0, p1, p2, q);
      WeightedQuotients(e.c1, e.c2, e.c0, p0.x, p1.x, p2.x, a, q.x);
    }
    assert w.w0 * p0.y + w.w1 * p1.y + w.w2 * p2.y == q.y by {
      WeightedEdgesY(p0, p1, p2, q);
      WeightedQuotients(e.c1, e.c2, e.c0, p0.y, p1.y, p2.y, a, q.y);
    }
  }

  /** Dividing three coefficients by the same non-zero `a` divides their weighted sum by `a`. */
  lemma WeightedQuotients(c0: real, c1: real, c2: real, x0: real, x1: real, x2: real, a: real, r: real)
    requires a != 0.0
    requires c0 * x0 + c1 * x1 + c2 * x2 == a * r
    ensures (c0 / a) * x0 + (c1 / a) * x1 + (c2 / a) * x2 == r
  {
    var k0, k1, k2 := c0 / a, c1 / a, c2 / a;
    assert k0 * a == c0 && k1 * a == c1 && k2 * a == c2;
    assert (k0 * x0 + k1 * x1 + k2 * x2) * a == c0 * x0 + c1 * x1 + c2 * x2;
  }

  lemma WeightedEdgesX(p0: Vec2, p1: Vec2, p2: Vec2, q: Vec2)
    ensures var e := EdgeValues(p0, p1, p2, q);
      e.c1 * p0.x + e.c2 * p1.x + e.c0 * p2.x == Area(p0, p1, p2) * q.x
  {
  }

  lemma WeightedEdgesY(p0: Vec2, p1: Vec2, p2: Vec2, q: Vec2)
    ensures var e := EdgeValues(p0, p1, p2, q);
      e.c1 * p0.y + e.c2 * p1.y + e.c0 * p2.y == Area(p0, p1, p2) * q.y
  {
  }

  /** A convex combination lies between the smallest and the largest of its terms. */
  lemma ConvexCombinationBounds(w: Weights, a0: real, a1: real, a2: real)
    requires w.w0 >= 0.0 && w.w1 >= 0.0 && w.w2 >= 0.0 && w.w0 + w.w1 + w.w2 == 1.0
    ensures Min3(a0, a1, a2) <= w.w0 * a0 + w.w1 * a1 + w.w2 * a2 <= Max3(a0, a1, a2)
  {
    var lo, hi := Min3(a0, a1, a2), Max3(a0, a1, a2);
    assert lo <= a0 <= hi && lo <= a1 <= hi && lo <= a2 <= hi;
    WeightedSumAbove(w.w0, w.w1, w.w2, a0, a1, a2, lo);
    WeightedSumAbove(w.w0, w.w1, w.w2, -a0, -a1, -a2, -hi);
  }

  lemma WeightedSumAbove(t0: real, t1: real, t2: real, a0: real, a1: real, a2: real, lo: real)
    requires t0 >= 0.0 && t1 >= 0.0 && t2 >= 0.0 && t0 + t1 + t2 == 1.0
    requires lo <= a0 && lo <= a1 && lo <= a2
    ensures lo <= t0 * a0 + t1 * a1 + t2 * a2
  {
    assert t0 * a0 + t1 * a1 + t2 * a2 - lo == t0 * (a0 - lo) + t1 * (a1 - lo) + t2 * (a2 - lo);
    assert t0 * (a0 - lo) >= 0.0;
    assert t1 * (a1 - lo) >= 0.0;
    assert t2 * (a2 - lo) >= 0.0;
  }

  /** The sample point of pixel (x, y): the integer corner, with no half-pixel offset. */
  function PixelPoint(x: int, y: int): Vec2
  {
    Vec2(x as real, y as real)
  }

  /** A covered pixel lies inside the axis-aligned hull of the three screen vertices. */
  lemma CoveredPointInHull(p0: Vec2, p1: Vec2, p2: Vec2, q: Vec2)
    requires Covers(p0, p1, p2, q)
    ensures Min3(p0.x, p1.x, p2.x) <= q.x <= Max3(p0.x, p1.x, p2.x)
    ensures Min3(p0.y, p1.y, p2.y) <= q.y <= Max3(p0.y, p1.y, p2.y)
  {
    CoveredOnlyByPositiveArea(p0, p1, p2, q);
    var w := BarycentricWeights(p0, p1, p2, q);
    WeightsReconstructPoint(p0, p1, p2, q);
    HullFromWeights(w, p0.x, p1.x, p2.x, q.x);
    HullFromWeights(w, p0.y, p1.y, p2.y, q.y);
  }

  lemma HullFromWeights(w: Weights, a0: real, a1: real, a2: real, b: real)
    requires w.w0 > 0.0 && w.w1 > 0.0 && w.w2 > 0.0 && w.w0 + w.w1 + w.w2 == 1.0
    requires w.w0 * a0 + w.w1 * a1 + w.w2 * a2 == b
    ensures Min3(a0, a1, a2) <= b <= Max3(a0, a1, a2)
  {
    ConvexCombinationBounds(w, a0, a1, a2);
  }

  /** The half-open pixel range [startX, endX) x [startY, endY) the rasterizer visits. */
  datatype Box = Box(startX: int, startY: int, endX: int, endY: int)

  /** Truncated min/max of the screen vertices, widened by one pixel and clamped to the screen. */
  function BoundingBox(p0: Vec2, p1: Vec2, p2: Vec2, width: nat, height: nat): (b: Box)
    ensures 0 <= b.startX <= b.endX <= width
    ensures 0 <= b.startY <= b.endY <= height
  {
    TruncMonotone(Min3(p0.x, p1.x, p2.x), Max3(p0.x, p1.x, p2.x));
    TruncMonotone(Min3(p0.y, p1.y, p2.y), Max3(p0.y, p1.y, p2.y));
    Box(Clamp(Trunc(Min3(p0.x, p1.x, p2.x)) - 1, 0, width),
        Clamp(Trunc(Min3(p0.y, p1.y, p2.y)) - 1, 0, height),
        Clamp(Trunc(Max3(p0.x, p1.x, p2.x)) + 1, 0, width),
        Clamp(Trunc(Max3(p0.y, p1.y, p2.y)) + 1, 0, height))
  }

  predicate InBox(b: Box, x: int, y: int)
  {
    b.startX <= x < b.endX && b.startY <= y < b.endY
  }

  /** Every pixel the loop visits is on screen, and its linear index `px + py * width` is a
      valid buffer position. */
  lemma BoxPixelsOnScreen(p0: Vec2, p1: Vec2, p2: Vec2, width: nat, height: nat, x: int, y: int)
    requires InBox(BoundingBox(p0, p1, p2, width, height), x, y)
    ensures OnGrid(x, y, width, height)
    ensures 0 <= Index(x, y, width) < width * height
  {
    IndexInRange(x, y, width, height);
  }

  /** The widened box misses no covered on-screen pixel, whatever the truncation does. */
  lemma CoveredPixelInBox(p0: Vec2, p1: Vec2, p2: Vec2, width: nat, height: nat, x: int, y: int)
    requires OnGrid(x, y, width, height)
    requires Covers(p0, p1, p2, PixelPoint(x, y))
    ensures InBox(BoundingBox(p0, p1, p2, width, height), x, y)
  {
    CoveredPointInHull(p0, p1, p2, PixelPoint(x, y));
    TruncWithinOne(Min3(p0.x, p1.x, p2.x));
    TruncWithinOne(Min3(p0.y, p1.y, p2.y));
    TruncWithinOne(Max3(p0.x, p1.x, p2.x));
    TruncWithinOne(Max3(p0.y, p1.y, p2.y));
  }

  /** The pixel depth `1 / (w0/z0 + w1/z1 + w2/z2)`, a weighted harmonic mean of the vertices'
      NDC depths. A depth of exactly 0 (allowed by the cull) divides to +infinity in IEEE
      arithmetic and so yields depth 0; that case is written out. Otherwise the result lies
      between the smallest and the largest vertex depth. */
  function InterpolatedDepth(w: Weights, z0: real, z1: real, z2: real): (d: real)
    requires w.w0 > 0.0 && w.w1 > 0.0 && w.w2 > 0.0 && w.w0 + w.w1 + w.w2 == 1.0
    requires z0 >= 0.0 && z1 >= 0.0 && z2 >= 0.0
    ensures 0.0 <= d <= Max3(z0, z1, z2)
    ensures z0 > 0.0 && z1 > 0.0 && z2 > 0.0 ==> Min3(z0, z1, z2) <= d
  {
    if z0 == 0.0 || z1 == 0.0 || z2 == 0.0 then 0.0
    else
      HarmonicMeanBounds(w, z0, z1, z2);
      1.0 / (w.w0 / z0 + w.w1 / z1 + w.w2 / z2)
  }

  lemma HarmonicMeanBounds(w: Weights, z0: real, z1: real, z2: real)
    requires w.w0 > 0.0 && w.w1 > 0.0 && w.w2 > 0.0 && w.w0 + w.w1 + w.w2 == 1.0
    requires z0 > 0.0 && z1 > 0.0 && z2 > 0.0
    ensures var s := w.w0 / z0 + w.w1 / z1 + w.w2 / z2;
      s > 0.0 && Min3(z0, z1, z2) <= 1.0 / s <= Max3(z0, z1, z2)
  {
    var lo, hi := Min3(z0, z1, z2), Max3(z0, z1, z2);
    assert 0.0 < lo <= z0 <= hi && lo <= z1 <= hi && lo <= z2 <= hi;
    RecipBetween(z0, lo, hi);
    RecipBetween(z1, lo, hi);
    RecipBetween(z2, lo, hi);
    var s := w.w0 / z0 + w.w1 / z1 + w.w2 / z2;
    WeightedReciprocals(w, z0, z1, z2, 1.0 / hi, 1.0 / lo);
    PositiveRecip(hi);
    RecipOfBetween(s, lo, hi);
  }

  lemma WeightedReciprocals(w: Weights, z0: real, z1: real, z2: real, lo: real, hi: real)
    requires w.w0 > 0.0 && w.w1 > 0.0 && w.w2 > 0.0 && w.w0 + w.w1 + w.w2 == 1.0
    requires z0 > 0.0 && z1 > 0.0 && z2 > 0.0
    requires lo <= 1.0 / z0 <= hi && lo <= 1.0 / z1 <= hi && lo <= 1.0 / z2 <= hi
    ensures lo <= w.w0 / z0 + w.w1 / z1 + w.w2 / z2 <= hi
  {
    DivideAsScale(w.w0, z0);
    DivideAsScale(w.w1, z1);
    DivideAsScale(w.w2, z2);
    var r0, r1, r2 := 1.0 / z0, 1.0 / z1, 1.0 / z2;
    WeightedSumAbove(w.w0, w.w1, w.w2, r0, r1, r2, lo);
    WeightedSumAbove(w.w0, w.w1, w.w2, -r0, -r1, -r2, -hi);
  }

  lemma RecipOfBetween(s: real, lo: real, hi: real)
    requires 0.0 < lo <= hi && 1.0 / hi <= s <= 1.0 / lo
    ensures lo <= 1.0 / s <= hi
  {
    PositiveRecip(hi);
    RecipBetween(s, 1.0 / hi, 1.0 / lo);
    RecipInvolution(hi);
    RecipInvolution(lo);
  }

  lemma DivideAsScale(a: real, z: real)
    requires z != 0.0
    ensures a / z == a * (1.0 / z)
  {
  }

  lemma PositiveRecip(z: real)
    requires z > 0.0
    ensures 1.0 / z > 0.0
  {
  }

  lemma RecipInvolution(z: real)
    requires z != 0.0
    ensures 1.0 / (1.0 / z) == z
  {
    assert (1.0 / z) * z == 1.0;
  }

  /** Reciprocal reverses order on positive reals. */
  lemma RecipBetween(z: real, lo: real, hi: real)
    requires 0.0 < lo <= z <= hi
    ensures 1.0 / hi <= 1.0 / z <= 1.0 / lo
  {
    assert (1.0 / z) * z == 1.0;
    assert (1.0 / lo) * lo == 1.0;
    assert (1.0 / hi) * hi == 1.0;
    assert 1.0 / z - 1.0 / hi == (hi - z) / (z * hi);
    assert 1.0 / lo - 1.0 / z == (z - lo) / (lo * z);
  }
}
