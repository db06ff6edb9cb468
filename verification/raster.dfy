/** The frame buffers and `RenderTriangle`: cull, bounding-box scan, coverage, depth test and
    buffer update for one triangle. */
module Raster {
  import opened Wrappers
  import opened Geometry
  import opened Numeric
  import opened Cull
  import opened Coverage

  /** The colour buffer and the parallel depth buffer, both `width * height` long and indexed
      `x + y * width`. */
  datatype FrameBuffer = FrameBuffer(width: nat, height: nat, depth: seq<real>, color: seq<Rgb>) {
    predicate Valid()
    {
      |depth| == width * height && |color| == width * height
    }
  }

  function Grey(v: byte): Rgb
  {
    Rgb(v, v, v)
  }

  /** The software path clears to grey 100, or to grey 3 when the clear colour is toggled. */
  function ClearColor(toggled: bool): Rgb
  {
    if toggled then Grey(3) else Grey(100)
  }

  /** The per-frame reset: every depth entry becomes FLT_MAX and every colour entry the clear colour. */
  function ClearFrame(width: nat, height: nat, toggled: bool): (fb: FrameBuffer)
    ensures fb.Valid() && fb.width == width && fb.height == height
    ensures forall k :: 0 <= k < |fb.depth| ==> fb.depth[k] == FltMax
    ensures forall k :: 0 <= k < |fb.color| ==> fb.color[k] == ClearColor(toggled)
  {
    FrameBuffer(width, height, seq(width * height, _ => FltMax), seq(width * height, _ => ClearColor(toggled)))
  }

  datatype Triangle = Triangle(v0: VertexOut, v1: VertexOut, v2: VertexOut)

  /** The colour written for a pixel that passes the depth test, from the triangle, the pixel's
      barycentric weights and its depth. It stands for the render-mode switch: pixel shading of
      the perspective-correct interpolated vertex, or the depth remapped to grey. */
  type Shader = (Triangle, Weights, real) -> Rgb

  datatype Fragment = Fragment(depth: real, color: Rgb)

  function ScreenPoints(t: Triangle, width: nat, height: nat): (Vec2, Vec2, Vec2)
  {
    (ToScreen(t.v0.position, width, height),
     ToScreen(t.v1.position, width, height),
     ToScreen(t.v2.position, width, height))
  }

  predicate CoversPixel(t: Triangle, width: nat, height: nat, x: int, y: int)
  {
    var (p0, p1, p2) := ScreenPoints(t, width, height);
    Covers(p0, p1, p2, PixelPoint(x, y))
  }

  /** What the triangle offers pixel (x, y): nothing when the triangle is culled or the pixel is
      not covered, otherwise the interpolated depth, which lies in [0, 1], and the shaded colour. */
  function FragmentAt(t: Triangle, width: nat, height: nat, shade: Shader, x: int, y: int): (f: Option<Fragment>)
    ensures f.Some? <==> !Culled(t.v0, t.v1, t.v2) && CoversPixel(t, width, height, x, y)
    ensures f.Some? ==> 0.0 <= f.value.depth <= 1.0
  {
    if Culled(t.v0, t.v1, t.v2) then None
    else
      var (p0, p1, p2) := ScreenPoints(t, width, height);
      var q := PixelPoint(x, y);
      if !Covers(p0, p1, p2, q) then None
      else
        CoveredOnlyByPositiveArea(p0, p1, p2, q);
        var w := BarycentricWeights(p0, p1, p2, q);
        var z := InterpolatedDepth(w, t.v0.position.z, t.v1.position.z, t.v2.position.z);
        Some(Fragment(z, shade(t, w, z)))
  }

  /** Whether a triangle offers a fragment, and at what depth, is decided before shading: two
      shaders give fragments that differ at most in colour. */
  lemma FragmentDepthIgnoresShader(t: Triangle, width: nat, height: nat, shade: Shader, shade': Shader, x: int, y: int)
    ensures FragmentAt(t, width, height, shade, x, y).Some? == FragmentAt(t, width, height, shade', x, y).Some?
    ensures FragmentAt(t, width, height, shade, x, y).Some? ==>
      FragmentAt(t, width, height, shade, x, y).value.depth == FragmentAt(t, width, height, shade', x, y).value.depth
  {
  }

  /** The depth test and write: a fragment is discarded only when the stored depth is strictly
      smaller, so the stored depth becomes the minimum of the two; a fragment at least as close,
      a tie included, replaces both depth and colour. */
  function DepthTest(stored: real, storedColor: Rgb, f: Option<Fragment>): (r: (real, Rgb))
    ensures r.0 <= stored
    ensures f.None? ==> r == (stored, storedColor)
    ensures f.Some? ==> r.0 == Min(stored, f.value.depth)
    ensures f.Some? && f.value.depth <= stored ==> r == (f.value.depth, f.value.color)
    ensures f.Some? && stored < f.value.depth ==> r == (stored, storedColor)
  {
    match f
    case None => (stored, storedColor)
    case Some(frag) =>
      if stored < frag.depth then (stored, storedColor) else (frag.depth, frag.color)
  }

  /** The depth test keeps the stored pixel exactly when the stored depth is strictly closer. */
  lemma DepthTestSkipsOnlyCloser(stored: real, storedColor: Rgb, frag: Fragment)
    ensures DepthTest(stored, storedColor, Some(frag)) == (stored, storedColor) <==>
            stored < frag.depth || (stored == frag.depth && storedColor == frag.color)
  {
  }

  function PixelOf(fb: FrameBuffer, x: int, y: int): (real, Rgb)
    requires fb.Valid() && OnGrid(x, y, fb.width, fb.height)
  {
    IndexInRange(x, y, fb.width, fb.height);
    (fb.depth[Index(x, y, fb.width)], fb.color[Index(x, y, fb.width)])
  }

  predicate SameShape(fb: FrameBuffer, out: FrameBuffer)
  {
    fb.Valid() && out.Valid() && out.width == fb.width && out.height == fb.height
  }

  /** `out` is `fb` with the triangle's fragment depth-tested at every pixel. */
  ghost predicate TriangleApplied(fb: FrameBuffer, out: FrameBuffer, t: Triangle, shade: Shader)
  {
    && SameShape(fb, out)
    && forall x, y | OnGrid(x, y, fb.width, fb.height) ::
         PixelOf(out, x, y) == DepthTest(PixelOf(fb, x, y).0, PixelOf(fb, x, y).1, FragmentAt(t, fb.width, fb.height, shade, x, y))
  }

  predicate Visited(b: Box, x: int, y: int, px: int, py: int)
  {
    InBox(b, x, y) && (x < px || (x == px && y < py))
  }

  lemma AllIndicesInRange(width: nat, height: nat)
    ensures forall x, y | OnGrid(x, y, width, height) :: 0 <= Index(x, y, width) < width * height
  {
    forall x, y | OnGrid(x, y, width, height)
      ensures 0 <= Index(x, y, width) < width * height
    {
      IndexInRange(x, y, width, height);
    }
  }

  lemma OtherIndices(px: int, py: int, width: nat, height: nat)
    requires OnGrid(px, py, width, height)
    ensures forall x, y | OnGrid(x, y, width, height) && (x != px || y != py) :: Index(x, y, width) != Index(px, py, width)
  {
    forall x, y | OnGrid(x, y, width, height) && (x != px || y != py)
      ensures Index(x, y, width) != Index(px, py, width)
    {
      if Index(x, y, width) == Index(px, py, width) {
        IndexInjective(x, y, px, py, width, height);
      }
    }
  }

  /** Outside the bounding box no on-screen pixel receives a fragment. */
  lemma NoFragmentOutsideBox(t: Triangle, width: nat, height: nat, shade: Shader)
    ensures var (p0, p1, p2) := ScreenPoints(t, width, height);
      forall x, y | OnGrid(x, y, width, height) && !InBox(BoundingBox(p0, p1, p2, width, height), x, y) ::
        FragmentAt(t, width, height, shade, x, y).None?
  {
    var (p0, p1, p2) := ScreenPoints(t, width, height);
    forall x, y | OnGrid(x, y, width, height) && !InBox(BoundingBox(p0, p1, p2, width, height), x, y)
      ensures FragmentAt(t, width, height, shade, x, y).None?
    {
      if Covers(p0, p1, p2, PixelPoint(x, y)) {
        CoveredPixelInBox(p0, p1, p2, width, height, x, y);
      }
    }
  }

  /** The scan up to pixel (px, py): every pixel visited before it holds the depth test of its
      old value against the triangle's fragment, every other pixel is as in `fb`. */
  ghost predicate Scanned(fb: FrameBuffer, t: Triangle, shade: Shader, box: Box,
                          depth: seq<real>, color: seq<Rgb>, px: int, py: int)
    requires fb.Valid()
  {
    AllIndicesInRange(fb.width, fb.height);
    && |depth| == fb.width * fb.height && |color| == fb.width * fb.height
    && forall x, y | OnGrid(x, y, fb.width, fb.height) ::
         (depth[Index(x, y, fb.width)], color[Index(x, y, fb.width)]) ==
           if Visited(box, x, y, px, py)
           then DepthTest(PixelOf(fb, x, y).0, PixelOf(fb, x, y).1, FragmentAt(t, fb.width, fb.height, shade, x, y))
           else PixelOf(fb, x, y)
  }

  /** One step of the inner loop: writing the depth test's outcome at (px, py), and nothing
      else, extends the scan by that pixel. */
  lemma ScanStep(fb: FrameBuffer, t: Triangle, shade: Shader, box: Box,
                 depth: seq<real>, color: seq<Rgb>, depth': seq<real>, color': seq<Rgb>, px: int, py: int)
    requires fb.Valid() && Scanned(fb, t, shade, box, depth, color, px, py)
    requires InBox(box, px, py) && OnGrid(px, py, fb.width, fb.height)
    requires 0 <= Index(px, py, fb.width) < |depth| && |depth'| == |depth| && |color'| == |color|
    requires forall k | 0 <= k < |depth| && k != Index(px, py, fb.width) :: depth'[k] == depth[k] && color'[k] == color[k]
    requires (depth'[Index(px, py, fb.width)], color'[Index(px, py, fb.width)]) ==
             DepthTest(PixelOf(fb, px, py).0, PixelOf(fb, px, py).1, FragmentAt(t, fb.width, fb.height, shade, px, py))
    ensures Scanned(fb, t, shade, box, depth', color', px, py + 1)
  {
    var w, h := fb.width, fb.height;
    AllIndicesInRange(w, h);
    OtherIndices(px, py, w, h);
    forall x, y | OnGrid(x, y, w, h)
      ensures (depth'[Index(x, y, w)], color'[Index(x, y, w)]) ==
                if Visited(box, x, y, px, py + 1)
                then DepthTest(PixelOf(fb, x, y).0, PixelOf(fb, x, y).1, FragmentAt(t, w, h, shade, x, y))
                else PixelOf(fb, x, y)
    {
      if x != px || y != py {
        assert Visited(box, x, y, px, py + 1) == Visited(box, x, y, px, py);
      }
    }
  }

  /** `RenderTriangle`: a culled triangle leaves both buffers untouched; otherwise the pixels of
      the clamped bounding box are scanned column by column and each covered pixel is depth
      tested and, if it passes, written to both buffers at `px + py * width`. */
  method RenderTriangle(fb: FrameBuffer, t: Triangle, shade: Shader) returns (out: FrameBuffer)
    requires fb.Valid()
    ensures Culled(t.v0, t.v1, t.v2) ==> out == fb
    ensures TriangleApplied(fb, out, t, shade)
  {
    if Culled(t.v0, t.v1, t.v2) {
      return fb;
    }
    var width, height := fb.width, fb.height;
    var (p0, p1, p2) := ScreenPoints(t, width, height);
    var box := BoundingBox(p0, p1, p2, width, height);
    var depth, color := fb.depth, fb.color;
    AllIndicesInRange(width, height);
    NoFragmentOutsideBox(t, width, height, shade);

    for px := box.startX to box.endX
      invariant Scanned(fb, t, shade, box, depth, color, px, box.startY)
    {
      for py := box.startY to box.endY
        invariant Scanned(fb, t, shade, box, depth, color, px, py)
      {
        BoxPixelsOnScreen(p0, p1, p2, width, height, px, py);
        var pixelIdx := px + py * width;
        assert (depth[pixelIdx], color[pixelIdx]) == PixelOf(fb, px, py);
        var q := PixelPoint(px, py);
        var e := EdgeValues(p0, p1, p2, q);
        if !(e.c0 > 0.0 && e.c1 > 0.0 && e.c2 > 0.0) {
          ScanStep(fb, t, shade, box, depth, color, depth, color, px, py);
          continue;
        }
        CoveredOnlyByPositiveArea(p0, p1, p2, q);
        var w := BarycentricWeights(p0, p1, p2, q);
        var z := InterpolatedDepth(w, t.v0.position.z, t.v1.position.z, t.v2.position.z);
        assert FragmentAt(t, width, height, shade, px, py) == Some(Fragment(z, shade(t, w, z)));
        if depth[pixelIdx] < z {
          ScanStep(fb, t, shade, box, depth, color, depth, color, px, py);
          continue;
        }
        ScanStep(fb, t, shade, box, depth, color, depth[pixelIdx := z], color[pixelIdx := shade(t, w, z)], px, py);
        depth := depth[pixelIdx := z];
        color := color[pixelIdx := shade(t, w, z)];
      }
    }
    out := FrameBuffer(width, height, depth, color);
  }
}
