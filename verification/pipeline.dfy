/** `SoftWareRender` for one mesh: clear the buffers, rebuild the transformed-vertex cache,
    assemble triangles by topology and rasterize them in submission order. */
module Pipeline {
  import opened Wrappers
  import opened Geometry
  import opened Numeric
  import opened Assembly
  import opened Coverage
  import opened Raster

  datatype Mesh = Mesh(vertices: seq<Vertex>, indices: seq<nat>, topology: PrimitiveTopology)

  /** Every index names an existing vertex. */
  predicate IndicesValid(m: Mesh)
  {
    forall k :: 0 <= k < |m.indices| ==> m.indices[k] < |m.vertices|
  }

  /** The per-vertex maps of the projection stage, which rest on matrix code outside this model:
      `project` is the world-view-projection transform followed by the divide of x, y, z by w
      (w itself kept); `transformNormal` is the world transform of the normal, normalised;
      `normalize` is `Vector3::Normalized`. */
  datatype VertexStage = VertexStage(project: Vec3 -> Vec4, transformNormal: Vec3 -> Vec3, normalize: Vec3 -> Vec3)

  /** One input vertex through the projection stage: colour, uv and tangent are copied, the
      normal goes through the world transform, and the view direction is the normalised NDC
      position of the transformed vertex itself. */
  function TransformVertex(v: Vertex, stage: VertexStage): (r: VertexOut)
    ensures r.color == v.color && r.uv == v.uv && r.tangent == v.tangent
    ensures r.position == stage.project(v.position)
    ensures r.normal == stage.transformNormal(v.normal)
    ensures r.viewDirection == stage.normalize(Vec3(r.position.x, r.position.y, r.position.z))
  {
    var p := stage.project(v.position);
    VertexOut(p, v.color, v.uv, stage.transformNormal(v.normal), v.tangent, stage.normalize(Vec3(p.x, p.y, p.z)))
  }

  /** `VertexTransformationFunction`: the cache is emptied, then one transformed vertex is
      appended per input vertex. Nothing of the previous frame's cache survives. */
  method RebuildCache(cache: seq<VertexOut>, vertices: seq<Vertex>, stage: VertexStage) returns (out: seq<VertexOut>)
    ensures |out| == |vertices|
    ensures forall i :: 0 <= i < |vertices| ==> out[i] == TransformVertex(vertices[i], stage)
  {
    out := cache[..0];
    for i := 0 to |vertices|
      invariant |out| == i
      invariant forall j :: 0 <= j < i ==> out[j] == TransformVertex(vertices[j], stage)
    {
      out := out + [TransformVertex(vertices[i], stage)];
    }
  }

  /** Every assembled triangle reads positions inside the index array. */
  lemma AssembledCornersInRange(topology: PrimitiveTopology, n: nat)
    ensures forall k :: 0 <= k < |Assemble(topology, n)| ==>
      var c := Assemble(topology, n)[k];
      0 <= c.i0 < n && 0 <= c.i1 < n && 0 <= c.i2 < n
  {
    ListTrianglesPartition(n);
    StripTrianglesWindow(n);
  }

  predicate CornersValid(cache: seq<VertexOut>, indices: seq<nat>, c: Corners)
  {
    && 0 <= c.i0 < |indices| && 0 <= c.i1 < |indices| && 0 <= c.i2 < |indices|
    && indices[c.i0] < |cache| && indices[c.i1] < |cache| && indices[c.i2] < |cache|
  }

  /** The triangle behind three index-array positions: `vertices_out[indices[idx]]`. */
  function TriangleOf(cache: seq<VertexOut>, indices: seq<nat>, c: Corners): Triangle
    requires CornersValid(cache, indices, c)
  {
    Triangle(cache[indices[c.i0]], cache[indices[c.i1]], cache[indices[c.i2]])
  }

  /** The triangles behind a sequence of corner triples, in order. */
  ghost function Triangles(cache: seq<VertexOut>, indices: seq<nat>, corners: seq<Corners>): seq<Triangle>
    requires forall k :: 0 <= k < |corners| ==> CornersValid(cache, indices, corners[k])
  {
    seq(|corners|, k requires 0 <= k < |corners| => TriangleOf(cache, indices, corners[k]))
  }

  /** The triangles of a mesh in submission order, read through a cache of matching size. */
  ghost function MeshTriangles(m: Mesh, cache: seq<VertexOut>): seq<Triangle>
    requires IndicesValid(m) && |cache| == |m.vertices|
  {
    var corners := Assemble(m.topology, |m.indices|);
    AssembledCornersInRange(m.topology, |m.indices|);
    Triangles(cache, m.indices, corners)
  }

  /** The depth a pixel holds after the triangles are drawn in order onto a cleared buffer:
      FLT_MAX lowered by every fragment the pixel receives. */
  ghost function ClosestDepth(tris: seq<Triangle>, width: nat, height: nat, shade: Shader, x: int, y: int): real
    decreases |tris|
  {
    if |tris| == 0 then FltMax
    else
      var before := ClosestDepth(tris[..|tris| - 1], width, height, shade, x, y);
      match FragmentAt(tris[|tris| - 1], width, height, shade, x, y)
      case None => before
      case Some(f) => Min(before, f.depth)
  }

  /** Closest wins: the final depth is no greater than any fragment the pixel received, and it is
      either FLT_MAX (no fragment at all) or the depth of one of those fragments. */
  lemma {:induction false} ClosestDepthIsMinimum(tris: seq<Triangle>, width: nat, height: nat, shade: Shader, x: int, y: int)
    ensures forall i | 0 <= i < |tris| && FragmentAt(tris[i], width, height, shade, x, y).Some? ::
      ClosestDepth(tris, width, height, shade, x, y) <= FragmentAt(tris[i], width, height, shade, x, y).value.depth
    ensures ClosestDepth(tris, width, height, shade, x, y) <= FltMax
    ensures ClosestDepth(tris, width, height, shade, x, y) == FltMax ||
      exists i | 0 <= i < |tris| :: FragmentAt(tris[i], width, height, shade, x, y).Some? &&
        ClosestDepth(tris, width, height, shade, x, y) == FragmentAt(tris[i], width, height, shade, x, y).value.depth
    decreases |tris|
  {
    if |tris| > 0 {
      var prefix := tris[..|tris| - 1];
      ClosestDepthIsMinimum(prefix, width, height, shade, x, y);
      var d := ClosestDepth(tris, width, height, shade, x, y);
      forall i | 0 <= i < |tris| && FragmentAt(tris[i], width, height, shade, x, y).Some?
        ensures d <= FragmentAt(tris[i], width, height, shade, x, y).value.depth
      {
        if i < |tris| - 1 {
          assert tris[i] == prefix[i];
        }
      }
      if d != FltMax {
        var before := ClosestDepth(prefix, width, height, shade, x, y);
        if d == before {
          var i :| 0 <= i < |prefix| && FragmentAt(prefix[i], width, height, shade, x, y).Some? &&
            before == FragmentAt(prefix[i], width, height, shade, x, y).value.depth;
          assert tris[i] == prefix[i];
        } else {
          assert FragmentAt(tris[|tris| - 1], width, height, shade, x, y).Some?;
        }
      }
    }
  }

  /** The depth a pixel ends up with does not depend on the shading: the depth test and write
      come before the render-mode switch, so the colour, normal-map and render-mode toggles only
      change colours. */
  lemma {:induction false} DepthIndependentOfShader(tris: seq<Triangle>, width: nat, height: nat,
                                                    shade: Shader, shade': Shader, x: int, y: int)
    ensures ClosestDepth(tris, width, height, shade, x, y) == ClosestDepth(tris, width, height, shade', x, y)
    decreases |tris|
  {
    if |tris| > 0 {
      var t := tris[|tris| - 1];
      DepthIndependentOfShader(tris[..|tris| - 1], width, height, shade, shade', x, y);
      FragmentDepthIgnoresShader(t, width, height, shade, shade', x, y);
    }
  }

  /** The loop invariant of the frame: depths follow `ClosestDepth`, and a pixel still at FLT_MAX
      still holds the clear colour. */
  ghost predicate FrameInvariant(fb: FrameBuffer, tris: seq<Triangle>, clear: Rgb, shade: Shader)
  {
    && fb.Valid()
    && forall x, y | OnGrid(x, y, fb.width, fb.height) ::
         && PixelOf(fb, x, y).0 == ClosestDepth(tris, fb.width, fb.height, shade, x, y)
         && (PixelOf(fb, x, y).0 == FltMax || 0.0 <= PixelOf(fb, x, y).0 <= 1.0)
         && (PixelOf(fb, x, y).0 == FltMax ==> PixelOf(fb, x, y).1 == clear)
  }

  /** Drawing one more triangle extends the invariant to the longer triangle sequence. */
  lemma FrameInvariantStep(fb: FrameBuffer, out: FrameBuffer, tris: seq<Triangle>, t: Triangle, clear: Rgb, shade: Shader)
    requires FrameInvariant(fb, tris, clear, shade)
    requires TriangleApplied(fb, out, t, shade)
    ensures FrameInvariant(out, tris + [t], clear, shade)
  {
    var tris' := tris + [t];
    assert tris'[..|tris'| - 1] == tris;
    forall x, y | OnGrid(x, y, out.width, out.height)
      ensures PixelOf(out, x, y).0 == ClosestDepth(tris', out.width, out.height, shade, x, y)
      ensures PixelOf(out, x, y).0 == FltMax || 0.0 <= PixelOf(out, x, y).0 <= 1.0
      ensures PixelOf(out, x, y).0 == FltMax ==> PixelOf(out, x, y).1 == clear
    {
      var f := FragmentAt(t, fb.width, fb.height, shade, x, y);
      assert PixelOf(out, x, y) == DepthTest(PixelOf(fb, x, y).0, PixelOf(fb, x, y).1, f);
    }
  }

  /** `SoftWareRender` for the mesh: the frame starts cleared, the cache is rebuilt, and the
      assembled triangles are drawn in order. Afterwards every pixel holds the closest depth any
      triangle offered it (or FLT_MAX), every written depth lies in [0, 1], and a pixel no
      triangle reached keeps the clear colour. */
  method SoftwareRender(mesh: Mesh, cache: seq<VertexOut>, stage: VertexStage, clearColorToggled: bool,
                        width: nat, height: nat, shade: Shader)
    returns (fb: FrameBuffer, cache': seq<VertexOut>)
    requires IndicesValid(mesh)
    requires |mesh.indices| < SizeLimit
    ensures |cache'| == |mesh.vertices|
    ensures forall i :: 0 <= i < |mesh.vertices| ==> cache'[i] == TransformVertex(mesh.vertices[i], stage)
    ensures fb.Valid() && fb.width == width && fb.height == height
    ensures FrameInvariant(fb, MeshTriangles(mesh, cache'), ClearColor(clearColorToggled), shade)
  {
    var cleared := ClearFrame(width, height, clearColorToggled);
    ClearedFrameInvariant(width, height, clearColorToggled, shade);
    cache' := RebuildCache(cache, mesh.vertices, stage);
    var n := |mesh.indices|;
    var corners;
    match mesh.topology {
      case TriangleStrip => corners := AssembleStrip(n);
      case TriangleList => corners := AssembleList(n);
    }
    assert corners == Assemble(mesh.topology, n);
    AssembledCornersInRange(mesh.topology, n);
    fb := DrawTriangles(cleared, cache', mesh.indices, corners, ClearColor(clearColorToggled), shade);
  }

  /** A freshly cleared frame satisfies the invariant for the empty triangle sequence. */
  lemma ClearedFrameInvariant(width: nat, height: nat, clearColorToggled: bool, shade: Shader)
    ensures FrameInvariant(ClearFrame(width, height, clearColorToggled), [], ClearColor(clearColorToggled), shade)
  {
    var fb := ClearFrame(width, height, clearColorToggled);
    forall x, y | OnGrid(x, y, width, height)
      ensures PixelOf(fb, x, y).0 == ClosestDepth([], width, height, shade, x, y) == FltMax
      ensures PixelOf(fb, x, y).1 == ClearColor(clearColorToggled)
    {
      IndexInRange(x, y, width, height);
    }
  }

  /** The draw loop of `SoftWareRender`: `RenderTriangle` on each corner triple in order. */
  method DrawTriangles(start: FrameBuffer, cache: seq<VertexOut>, indices: seq<nat>, corners: seq<Corners>,
                       clear: Rgb, shade: Shader)
    returns (fb: FrameBuffer)
    requires forall k :: 0 <= k < |corners| ==> CornersValid(cache, indices, corners[k])
    requires FrameInvariant(start, [], clear, shade)
    ensures fb.width == start.width && fb.height == start.height
    ensures FrameInvariant(fb, Triangles(cache, indices, corners), clear, shade)
  {
    fb := start;
    ghost var tris := Triangles(cache, indices, corners);
    AllIndicesInRange(fb.width, fb.height);
    for k := 0 to |corners|
      invariant fb.width == start.width && fb.height == start.height
      invariant FrameInvariant(fb, tris[..k], clear, shade)
    {
      var t := TriangleOf(cache, indices, corners[k]);
      assert tris[..k + 1] == tris[..k] + [t];
      var out := RenderTriangle(fb, t, shade);
      FrameInvariantStep(fb, out, tris[..k], t, clear, shade);
      fb := out;
    }
    assert tris[..|corners|] == tris;
  }
}
