/** Perspective-correct attribute interpolation: each attribute is weighted by 1/w of its vertex
    and the sum is rescaled by the interpolated w, `W * sum(weight_i * (a_i / W_i))` with
    `W = 1 / sum(weight_i / W_i)`. */
module Interpolation {
  import opened Geometry
  import opened Coverage

  /** The denominator `weight0 / W0 + weight1 / W1 + weight2 / W2`. */
  function ReciprocalSum(w: Weights, W0: real, W1: real, W2: real): real
    requires W0 != 0.0 && W1 != 0.0 && W2 != 0.0
  {
    w.w0 / W0 + w.w1 / W1 + w.w2 / W2
  }

  /** The divisions the source performs are all defined. The source does not guard them. */
  predicate Interpolable(w: Weights, W0: real, W1: real, W2: real)
  {
    W0 != 0.0 && W1 != 0.0 && W2 != 0.0 && ReciprocalSum(w, W0, W1, W2) != 0.0
  }

  /** One scalar attribute. Three equal attribute values come back unchanged, whatever the
      weights and the vertices' w. */
  function PerspectiveCorrect(w: Weights, W0: real, W1: real, W2: real, a0: real, a1: real, a2: real): (r: real)
    requires Interpolable(w, W0, W1, W2)
    ensures a0 == a1 == a2 ==> r == a0
  {
    var s := ReciprocalSum(w, W0, W1, W2);
    var interpolatedW := 1.0 / s;
    ConstantAttribute(w, W0, W1, W2, a0, a1, a2);
    interpolatedW * (w.w0 * (a0 / W0) + w.w1 * (a1 / W1) + w.w2 * (a2 / W2))
  }

  lemma ConstantAttribute(w: Weights, W0: real, W1: real, W2: real, a0: real, a1: real, a2: real)
    requires Interpolable(w, W0, W1, W2)
    ensures a0 == a1 == a2 ==>
      (1.0 / ReciprocalSum(w, W0, W1, W2)) * (w.w0 * (a0 / W0) + w.w1 * (a1 / W1) + w.w2 * (a2 / W2)) == a0
  {
    if a0 == a1 == a2 {
      var s := ReciprocalSum(w, W0, W1, W2);
      assert w.w0 * (a0 / W0) == a0 * (w.w0 / W0);
      assert w.w1 * (a0 / W1) == a0 * (w.w1 / W1);
      assert w.w2 * (a0 / W2) == a0 * (w.w2 / W2);
      assert w.w0 * (a0 / W0) + w.w1 * (a1 / W1) + w.w2 * (a2 / W2) == a0 * s;
      assert (1.0 / s) * (a0 * s) == a0;
    }
  }

  /** When the three vertices share one w the perspective correction cancels and the result is
      the plain (screen-space affine) barycentric blend. */
  lemma EqualDepthsGiveAffineBlend(w: Weights, W: real, a0: real, a1: real, a2: real)
    requires w.w0 + w.w1 + w.w2 == 1.0
    requires W != 0.0
    ensures Interpolable(w, W, W, W)
    ensures PerspectiveCorrect(w, W, W, W, a0, a1, a2) == w.w0 * a0 + w.w1 * a1 + w.w2 * a2
  {
    DivideSum(w.w0, w.w1, w.w2, W);
    assert ReciprocalSum(w, W, W, W) == 1.0 / W;
    assert w.w0 * (a0 / W) + w.w1 * (a1 / W) + w.w2 * (a2 / W) == (w.w0 * a0 + w.w1 * a1 + w.w2 * a2) / W;
    assert 1.0 / (1.0 / W) == W;
  }

  /** With positive weights and vertices in front of the camera (all w > 0) the result is a
      convex combination of the attribute values. */
  lemma PerspectiveCorrectIsConvex(w: Weights, W0: real, W1: real, W2: real, a0: real, a1: real, a2: real)
    requires w.w0 > 0.0 && w.w1 > 0.0 && w.w2 > 0.0
    requires W0 > 0.0 && W1 > 0.0 && W2 > 0.0
    ensures Interpolable(w, W0, W1, W2)
    ensures Min3(a0, a1, a2) <= PerspectiveCorrect(w, W0, W1, W2, a0, a1, a2) <= Max3(a0, a1, a2)
  {
    var q0, q1, q2 := w.w0 / W0, w.w1 / W1, w.w2 / W2;
    assert q0 > 0.0 && q1 > 0.0 && q2 > 0.0;
    var s := q0 + q1 + q2;
    Normalised(q0, q1, q2);
    RescaledBlend(w, W0, W1, W2, a0, a1, a2);
    HullFromWeights(Weights(q0 / s, q1 / s, q2 / s), a0, a1, a2, PerspectiveCorrect(w, W0, W1, W2, a0, a1, a2));
  }

  lemma Normalised(q0: real, q1: real, q2: real)
    requires q0 > 0.0 && q1 > 0.0 && q2 > 0.0
    ensures var s := q0 + q1 + q2;
      q0 / s > 0.0 && q1 / s > 0.0 && q2 / s > 0.0 && q0 / s + q1 / s + q2 / s == 1.0
  {
    var s := q0 + q1 + q2;
    DivideSum(q0, q1, q2, s);
    assert s / s == 1.0;
  }

  lemma RescaledBlend(w: Weights, W0: real, W1: real, W2: real, a0: real, a1: real, a2: real)
    requires W0 != 0.0 && W1 != 0.0 && W2 != 0.0 && ReciprocalSum(w, W0, W1, W2) != 0.0
    ensures var s := ReciprocalSum(w, W0, W1, W2);
      PerspectiveCorrect(w, W0, W1, W2, a0, a1, a2) ==
      (w.w0 / W0 / s) * a0 + (w.w1 / W1 / s) * a1 + (w.w2 / W2 / s) * a2
  {
    var s := ReciprocalSum(w, W0, W1, W2);
    ScaledTerm(s, w.w0, W0, a0);
    ScaledTerm(s, w.w1, W1, a1);
    ScaledTerm(s, w.w2, W2, a2);
  }

  /** One term of the blend, rescaled: `(1 / s) * (wi * (ai / Wi)) == (wi / Wi / s) * ai`. */
  lemma ScaledTerm(s: real, wi: real, Wi: real, ai: real)
    requires s != 0.0 && Wi != 0.0
    ensures (1.0 / s) * (wi * (ai / Wi)) == (wi / Wi / s) * ai
  {
    assert wi * (ai / Wi) == (wi / Wi) * ai;
  }

  function InterpolateVec2(w: Weights, W0: real, W1: real, W2: real, a0: Vec2, a1: Vec2, a2: Vec2): (r: Vec2)
    requires Interpolable(w, W0, W1, W2)
    ensures a0 == a1 == a2 ==> r == a0
  {
    Vec2(PerspectiveCorrect(w, W0, W1, W2, a0.x, a1.x, a2.x),
         PerspectiveCorrect(w, W0, W1, W2, a0.y, a1.y, a2.y))
  }

  function InterpolateVec3(w: Weights, W0: real, W1: real, W2: real, a0: Vec3, a1: Vec3, a2: Vec3): (r: Vec3)
    requires Interpolable(w, W0, W1, W2)
    ensures a0 == a1 == a2 ==> r == a0
  {
    Vec3(PerspectiveCorrect(w, W0, W1, W2, a0.x, a1.x, a2.x),
         PerspectiveCorrect(w, W0, W1, W2, a0.y, a1.y, a2.y),
         PerspectiveCorrect(w, W0, W1, W2, a0.z, a1.z, a2.z))
  }

  /** The interpolated vertex handed to pixel shading: uv, normal, tangent and view direction are
      interpolated (the last three then normalised by `normalize`, which stands for
      `Vector3::Normalized`); position and colour keep their default values. An attribute the
      three vertices share is passed through unchanged. */
  function InterpolateVertex(w: Weights, v0: VertexOut, v1: VertexOut, v2: VertexOut, normalize: Vec3 -> Vec3): (r: VertexOut)
    requires Interpolable(w, v0.position.w, v1.position.w, v2.position.w)
    ensures r.position == Vec4(0.0, 0.0, 0.0, 0.0) && r.color == White
    ensures v0.uv == v1.uv == v2.uv ==> r.uv == v0.uv
    ensures v0.normal == v1.normal == v2.normal ==> r.normal == normalize(v0.normal)
    ensures v0.tangent == v1.tangent == v2.tangent ==> r.tangent == normalize(v0.tangent)
    ensures v0.viewDirection == v1.viewDirection == v2.viewDirection ==> r.viewDirection == normalize(v0.viewDirection)
  {
    var W0, W1, W2 := v0.position.w, v1.position.w, v2.position.w;
    VertexOut(
      Vec4(0.0, 0.0, 0.0, 0.0),
      White,
      InterpolateVec2(w, W0, W1, W2, v0.uv, v1.uv, v2.uv),
      normalize(InterpolateVec3(w, W0, W1, W2, v0.normal, v1.normal, v2.normal)),
      normalize(InterpolateVec3(w, W0, W1, W2, v0.tangent, v1.tangent, v2.tangent)),
      normalize(InterpolateVec3(w, W0, W1, W2, v0.viewDirection, v1.viewDirection, v2.viewDirection)))
  }
}
