/** Triangle assembly: which positions of the index array form each triangle. */
module Assembly {
  import opened Geometry

  /** Three positions into the index array, in the order handed to the triangle rasterizer. */
  datatype Corners = Corners(i0: int, i1: int, i2: int)

  const SizeLimit: int := 0x1_0000_0000_0000_0000

  /** Reference list assembly: the k-th triangle is positions 3k, 3k+1, 3k+2. */
  function ListTriangles(n: nat): seq<Corners>
  {
    seq(n / 3, k => Corners(3 * k, 3 * k + 1, 3 * k + 2))
  }

  /** Reference strip assembly: the k-th triangle is the window k, k+1, k+2, with the last two
      swapped when k is odd so that every triangle keeps the winding of the first. */
  function StripTriangles(n: nat): seq<Corners>
  {
    seq(if n < 2 then 0 else n - 2,
        k => if k % 2 == 0 then Corners(k, k + 1, k + 2) else Corners(k, k + 2, k + 1))
  }

  function Assemble(topology: PrimitiveTopology, n: nat): seq<Corners>
  {
    match topology
    case TriangleList => ListTriangles(n)
    case TriangleStrip => StripTriangles(n)
  }

  /** The `size_t` parity test `(i ^ 1) != i + 1` holds exactly when the lowest bit is set,
      wrap-around at 2^64 included. */
  lemma XorDetectsOddIndex(b: bv64)
    ensures (b ^ 1 != b + 1) <==> (b & 1 == 1)
  {
  }

  lemma IncrementFlipsLowBit(b: bv64)
    ensures ((b + 1) & 1 == 1) <==> (b & 1 == 0)
  {
  }

  /** The list loop: `for (int i = 0; i + 2 < size; i += 3)`. */
  method AssembleList(n: nat) returns (tris: seq<Corners>)
    ensures |tris| == n / 3
    ensures tris == ListTriangles(n)
  {
    tris := [];
    var i := 0;
    while i + 2 < n
      invariant i == 3 * |tris|
      invariant i <= n + 2
      invariant i + 2 >= n ==> |tris| == n / 3
      invariant tris == ListTriangles(n)[..|tris|]
      decreases n - i
    {
      tris := tris + [Corners(i, i + 1, i + 2)];
      i := i + 3;
    }
  }

  /** The strip loop: a `size_t` counter whose parity is read through `(i ^ 1) != i + 1`. */
  method AssembleStrip(n: nat) returns (tris: seq<Corners>)
    requires n < SizeLimit
    ensures |tris| == if n < 2 then 0 else n - 2
    ensures tris == StripTriangles(n)
  {
    tris := [];
    var i: nat := 0;
    var b: bv64 := 0;
    while i + 2 < n
      invariant i == |tris|
      invariant i + 2 >= n ==> i == (if n < 2 then 0 else n - 2)
      invariant (b & 1 == 1) <==> i % 2 == 1
      invariant tris == StripTriangles(n)[..i]
      decreases n - i
    {
      var idx0, idx1, idx2 := i, i + 1, i + 2;
      XorDetectsOddIndex(b);
      if b ^ 1 != b + 1 {
        idx1, idx2 := idx2, idx1;
      }
      tris := tris + [Corners(idx0, idx1, idx2)];
      IncrementFlipsLowBit(b);
      i, b := i + 1, b + 1;
    }
  }

  /** Every list triangle reads three in-range positions, consecutive and disjoint from its
      neighbours; the one or two trailing positions that do not fill a triangle are never read. */
  lemma ListTrianglesPartition(n: nat)
    ensures |ListTriangles(n)| == n / 3
    ensures forall k :: 0 <= k < |ListTriangles(n)| ==>
      var c := ListTriangles(n)[k]; c.i0 == 3 * k && c.i1 == 3 * k + 1 && c.i2 == 3 * k + 2 && c.i2 < n
    ensures forall k :: 0 <= k < |ListTriangles(n)| ==> ListTriangles(n)[k].i2 < 3 * (n / 3)
  {
  }

  /** Every strip triangle reads the window k..k+2, all in range. */
  lemma StripTrianglesWindow(n: nat)
    ensures |StripTriangles(n)| == if n < 2 then 0 else n - 2
    ensures forall k :: 0 <= k < |StripTriangles(n)| ==>
      var c := StripTriangles(n)[k];
      c.i0 == k && {c.i1, c.i2} == {k + 1, k + 2} && c.i1 < n && c.i2 < n
  {
  }

  predicate HasDirectedEdge(c: Corners, a: int, b: int)
  {
    (c.i0 == a && c.i1 == b) || (c.i1 == a && c.i2 == b) || (c.i2 == a && c.i0 == b)
  }

  /** Consistent winding: two consecutive strip triangles share the edge between positions
      k+1 and k+2, and traverse it in opposite directions. */
  lemma StripWindingConsistent(n: nat, k: nat)
    requires k + 1 < |StripTriangles(n)|
    ensures HasDirectedEdge(StripTriangles(n)[k], k + 1, k + 2) <==>
            HasDirectedEdge(StripTriangles(n)[k + 1], k + 2, k + 1)
    ensures HasDirectedEdge(StripTriangles(n)[k], k + 2, k + 1) <==>
            HasDirectedEdge(StripTriangles(n)[k + 1], k + 1, k + 2)
    ensures HasDirectedEdge(StripTriangles(n)[k], k + 1, k + 2) || HasDirectedEdge(StripTriangles(n)[k], k + 2, k + 1)
  {
  }
}
