/** Nearest-neighbour texture sampling (`Texture::Sample`) over decoded 8-bit RGB texels. */
module Texture {
  import opened Wrappers
  import opened Geometry
  import opened Numeric

  /** The sampler's index arithmetic is on `Uint32`, so it is taken modulo 2^32. */
  const TwoTo32: int := 0x1_0000_0000

  /** The largest `int`: an SDL surface keeps its width and height as `int`. */
  const IntMax: int := 0x7FFF_FFFF

  /** A decoded, non-empty image: `width * height` texels in rows, indexed `x + y * width`. */
  datatype Texture = Texture(width: nat, height: nat, texels: seq<Rgb>) {
    predicate Valid()
    {
      0 < width <= IntMax && 0 < height <= IntMax && |texels| == width * height
    }
  }

  /** A float converts to `Uint32` exactly when its truncation toward zero fits, so on
      (-1, 2^32); outside that interval the conversion is undefined. */
  predicate ConvertsToUint32(t: real)
  {
    0 <= Trunc(t) < TwoTo32
  }

  /** The uv coordinates whose scaled column and row both convert to `Uint32`. */
  predicate InDomain(tex: Texture, u: real, v: real)
  {
    ConvertsToUint32(u * tex.width as real) && ConvertsToUint32(v * tex.height as real)
  }

  /** The texel column and row of a uv coordinate: the products `u * width` and `v * height`
      truncated toward zero by the conversion to `Uint32`. */
  function TexelCoordinates(tex: Texture, u: real, v: real): (int, int)
  {
    (Trunc(u * tex.width as real), Trunc(v * tex.height as real))
  }

  /** `x + y * width` in exact integer arithmetic, before any wrap-around. */
  function ExactTexelIndex(tex: Texture, u: real, v: real): int
  {
    Index(TexelCoordinates(tex, u, v).0, TexelCoordinates(tex, u, v).1, tex.width)
  }

  /** The index as the sampler computes it: `x + y * width` in `Uint32` arithmetic, so modulo
      2^32, with no clamping. It is congruent to the exact index, never above it, and equal to it
      while the exact index is below 2^32. */
  function RawTexelIndex(tex: Texture, u: real, v: real): (k: int)
    requires tex.Valid() && InDomain(tex, u, v)
    ensures 0 <= k < TwoTo32
    ensures (ExactTexelIndex(tex, u, v) - k) % TwoTo32 == 0
    ensures k <= ExactTexelIndex(tex, u, v)
    ensures ExactTexelIndex(tex, u, v) < TwoTo32 ==> k == ExactTexelIndex(tex, u, v)
  {
    ModBelow(ExactTexelIndex(tex, u, v));
    ExactTexelIndex(tex, u, v) % TwoTo32
  }

  lemma ModBelow(e: int)
    requires 0 <= e
    ensures 0 <= e % TwoTo32 <= e && (e - e % TwoTo32) % TwoTo32 == 0
    ensures e < TwoTo32 ==> e % TwoTo32 == e
  {
    var q, r := e / TwoTo32, e % TwoTo32;
    assert e == q * TwoTo32 + r && 0 <= r < TwoTo32;
    assert 0 <= q;
    assert e - r == q * TwoTo32;
  }

  /** Every uv in the unit square converts: both products stay in [0, 2^31). */
  lemma UnitSquareInDomain(tex: Texture, u: real, v: real)
    requires 0 < tex.width <= IntMax && 0 < tex.height <= IntMax
    requires 0.0 <= u <= 1.0 && 0.0 <= v <= 1.0
    ensures InDomain(tex, u, v)
  {
    FractionConverts(u, tex.width);
    FractionConverts(v, tex.height);
  }

  lemma FractionConverts(t: real, n: nat)
    requires 0.0 <= t <= 1.0 && 0 < n <= IntMax
    ensures ConvertsToUint32(t * n as real)
  {
    UnitScale(t, n);
  }

  /** While the column stays inside the row (u below 1) and the index does not wrap, the raw
      index encodes column and row faithfully: `% width` and `/ width` give them back. */
  lemma RawTexelIndexDecodes(tex: Texture, u: real, v: real)
    requires tex.Valid() && InDomain(tex, u, v)
    requires 0.0 <= u < 1.0 && 0.0 <= v
    requires ExactTexelIndex(tex, u, v) < TwoTo32
    ensures RawTexelIndex(tex, u, v) % tex.width == TexelCoordinates(tex, u, v).0
    ensures RawTexelIndex(tex, u, v) / tex.width == TexelCoordinates(tex, u, v).1
  {
    assert RawTexelIndex(tex, u, v) == ExactTexelIndex(tex, u, v);
    ExactTexelIndexDecodes(tex, u, v);
  }

  lemma ExactTexelIndexDecodes(tex: Texture, u: real, v: real)
    requires 0 < tex.width && 0.0 <= u < 1.0 && 0 <= TexelCoordinates(tex, u, v).1
    ensures ExactTexelIndex(tex, u, v) % tex.width == TexelCoordinates(tex, u, v).0
    ensures ExactTexelIndex(tex, u, v) / tex.width == TexelCoordinates(tex, u, v).1
  {
    UnitScale(u, tex.width);
    IndexDecomposes(TexelCoordinates(tex, u, v).0, TexelCoordinates(tex, u, v).1, tex.width);
  }

  /** For u and v below 1 the texel is in the image, and the raw index, however it wraps, is
      inside the texel array. */
  lemma RawTexelIndexInRange(tex: Texture, u: real, v: real)
    requires tex.Valid() && InDomain(tex, u, v)
    requires u < 1.0 && v < 1.0
    ensures OnGrid(TexelCoordinates(tex, u, v).0, TexelCoordinates(tex, u, v).1, tex.width, tex.height)
    ensures 0 <= ExactTexelIndex(tex, u, v) < |tex.texels|
    ensures 0 <= RawTexelIndex(tex, u, v) < |tex.texels|
  {
    var c := TexelCoordinates(tex, u, v);
    TexelInImage(tex, u, v);
    IndexInRange(c.0, c.1, tex.width, tex.height);
  }

  lemma InRangeBelowOne(tex: Texture, u: real, v: real)
    requires tex.Valid() && InDomain(tex, u, v)
    ensures u < 1.0 && v < 1.0 ==>
      && OnGrid(TexelCoordinates(tex, u, v).0, TexelCoordinates(tex, u, v).1, tex.width, tex.height)
      && 0 <= ExactTexelIndex(tex, u, v) < |tex.texels|
      && 0 <= RawTexelIndex(tex, u, v) < |tex.texels|
  {
    if u < 1.0 && v < 1.0 {
      RawTexelIndexInRange(tex, u, v);
    }
  }

  lemma TexelInImage(tex: Texture, u: real, v: real)
    requires 0 < tex.width && 0 < tex.height && u < 1.0 && v < 1.0
    requires 0 <= TexelCoordinates(tex, u, v).0 && 0 <= TexelCoordinates(tex, u, v).1
    ensures OnGrid(TexelCoordinates(tex, u, v).0, TexelCoordinates(tex, u, v).1, tex.width, tex.height)
  {
    TexelColumnInRow(tex, u, v);
    TexelRowInImage(tex, u, v);
  }

  lemma TexelColumnInRow(tex: Texture, u: real, v: real)
    requires 0 < tex.width && u < 1.0 && 0 <= TexelCoordinates(tex, u, v).0
    ensures TexelCoordinates(tex, u, v).0 < tex.width
  {
    ColumnBelow(u, tex.width);
  }

  lemma TexelRowInImage(tex: Texture, u: real, v: real)
    requires 0 < tex.height && v < 1.0 && 0 <= TexelCoordinates(tex, u, v).1
    ensures TexelCoordinates(tex, u, v).1 < tex.height
  {
    ColumnBelow(v, tex.height);
  }

  /** A coordinate below 1 whose product converts lands in a column below n. */
  lemma ColumnBelow(t: real, n: nat)
    requires 0 < n && t < 1.0 && 0 <= Trunc(t * n as real)
    ensures Trunc(t * n as real) < n
  {
    if 0.0 <= t {
      UnitScale(t, n);
    } else {
      NegativeColumn(t, n);
    }
  }

  /** A negative coordinate truncates to a column no greater than 0. */
  lemma NegativeColumn(t: real, n: nat)
    requires t < 0.0 && 0 < n
    ensures Trunc(t * n as real) <= 0
  {
    var m := n as real;
    assert t * m < 0.0 by {
      assert -(t * m) == (-t) * m;
    }
  }

  /** v = 1, a legal texture coordinate, puts the row one past the last: at uv (0, 1) the index
      is one past the last texel, at the corner (1, 1) a further row beyond, and while those
      indices stay below 2^32 the sampler reads outside the image. */
  lemma RawTexelIndexOverrunsAtOne(tex: Texture)
    requires tex.Valid()
    ensures InDomain(tex, 1.0, 1.0) && InDomain(tex, 0.0, 1.0)
    ensures ExactTexelIndex(tex, 1.0, 1.0) == |tex.texels| + tex.width
    ensures ExactTexelIndex(tex, 0.0, 1.0) == |tex.texels|
    ensures |tex.texels| + tex.width < TwoTo32 ==>
      Sample(tex, 0.0, 1.0).None? && Sample(tex, 1.0, 1.0).None?
  {
    assert TexelCoordinates(tex, 1.0, 1.0) == (tex.width, tex.height);
    assert TexelCoordinates(tex, 0.0, 1.0) == (0, tex.height);
  }

  /** u = 1 with v below 1 puts the column one past the row, so the index is that of the first
      texel of the NEXT row: a wrong texel while that row exists, one past the image on the last
      row (on a texture small enough that the index does not wrap). */
  lemma RawTexelIndexWrapsAtRightEdge(tex: Texture, v: real)
    requires tex.Valid()
    requires 0.0 <= v < 1.0
    ensures InDomain(tex, 1.0, v)
    ensures var y := TexelCoordinates(tex, 1.0, v).1;
      && ExactTexelIndex(tex, 1.0, v) == Index(0, y + 1, tex.width)
      && (|tex.texels| < TwoTo32 ==> RawTexelIndex(tex, 1.0, v) == Index(0, y + 1, tex.width))
      && (y + 1 < tex.height && |tex.texels| < TwoTo32 ==>
            0 <= Index(0, y + 1, tex.width) < |tex.texels| &&
            Sample(tex, 1.0, v) == Some(TexelColor(tex.texels[Index(0, y + 1, tex.width)])))
      && (y + 1 == tex.height && |tex.texels| < TwoTo32 ==> RawTexelIndex(tex, 1.0, v) == |tex.texels|)
  {
    UnitSquareInDomain(tex, 1.0, v);
    var y := TexelCoordinates(tex, 1.0, v).1;
    assert TexelCoordinates(tex, 1.0, v) == (tex.width, y);
    UnitScale(v, tex.height);
    NextRowStart(tex, y);
    assert ExactTexelIndex(tex, 1.0, v) == Index(0, y + 1, tex.width);
    if |tex.texels| < TwoTo32 {
      var k := RawTexelIndex(tex, 1.0, v);
      assert k == Index(0, y + 1, tex.width);
      if y + 1 < tex.height {
        assert k < |tex.texels|;
        assert Sample(tex, 1.0, v) == Some(TexelColor(tex.texels[k]));
      }
    }
  }

  /** One past the end of row y is the start of row y + 1, which is inside the image unless y is
      the last row. */
  lemma NextRowStart(tex: Texture, y: int)
    requires tex.Valid() && 0 <= y < tex.height
    ensures Index(tex.width, y, tex.width) == Index(0, y + 1, tex.width)
    ensures 0 <= Index(0, y + 1, tex.width) <= |tex.texels|
    ensures y + 1 == tex.height ==> Index(0, y + 1, tex.width) == |tex.texels|
    ensures y + 1 < tex.height ==> Index(0, y + 1, tex.width) < |tex.texels|
  {
    assert (y + 1) * tex.width == y * tex.width + tex.width;
    MulMonotone(y + 1, tex.height, tex.width);
    if y + 1 < tex.height {
      IndexInRange(0, y + 1, tex.width, tex.height);
    }
  }

  /** uv outside the unit square can push `y * width` to 2^32, and the `Uint32` index wraps back
      into the image: on a 1024 x 1024 texture uv (0, 4096) reads texel 0. */
  lemma RawTexelIndexWrapsModulo32(tex: Texture)
    requires tex.Valid() && tex.width == 1024 && tex.height == 1024
    ensures InDomain(tex, 0.0, 4096.0)
    ensures ExactTexelIndex(tex, 0.0, 4096.0) == TwoTo32
    ensures RawTexelIndex(tex, 0.0, 4096.0) == 0
    ensures Sample(tex, 0.0, 4096.0) == Some(TexelColor(tex.texels[0]))
  {
    assert TexelCoordinates(tex, 0.0, 4096.0) == (0, 4194304);
  }

  /** The index with the column and row clamped to the last texel: in range for every u and v in
      [0, 1], equal to the exact index wherever that one is in range, and at u = 1 the last texel
      of the SAME row rather than the first of the next. */
  function TexelIndex(tex: Texture, u: real, v: real): (k: nat)
    requires tex.Valid()
    requires 0.0 <= u <= 1.0 && 0.0 <= v <= 1.0
    ensures k < |tex.texels|
    ensures u < 1.0 && v < 1.0 ==> k == ExactTexelIndex(tex, u, v)
    ensures u == 1.0 && v < 1.0 ==> k == Index(tex.width - 1, TexelCoordinates(tex, u, v).1, tex.width)
  {
    var cx, cy := ClampedColumn(u, tex.width), ClampedColumn(v, tex.height);
    ClampedColumnIsTexelColumn(tex, u, v);
    ClampedRowIsTexelRow(tex, u, v);
    IndexInRange(cx, cy, tex.width, tex.height);
    Index(cx, cy, tex.width)
  }

  /** Below 1 the clamped column is the truncated one the sampler computes. */
  lemma ClampedColumnIsTexelColumn(tex: Texture, u: real, v: real)
    requires 0 < tex.width && 0.0 <= u <= 1.0
    ensures u < 1.0 ==> ClampedColumn(u, tex.width) == TexelCoordinates(tex, u, v).0
  {
  }

  /** Below 1 the clamped row is the truncated one the sampler computes. */
  lemma ClampedRowIsTexelRow(tex: Texture, u: real, v: real)
    requires 0 < tex.height && 0.0 <= v <= 1.0
    ensures v < 1.0 ==> ClampedColumn(v, tex.height) == TexelCoordinates(tex, u, v).1
  {
  }

  /** The truncated column of a fraction t of n, clamped to the last column: the plain
      truncation below 1, the last column at 1. */
  function ClampedColumn(t: real, n: nat): (c: int)
    requires 0.0 <= t <= 1.0 && 0 < n
    ensures 0 <= c < n
    ensures t < 1.0 ==> c == Trunc(t * n as real)
    ensures t == 1.0 ==> c == n - 1
  {
    UnitScale(t, n);
    var x := Trunc(t * n as real);
    if x < n then x else n - 1
  }

  /** A fraction in [0, 1] of n truncates to a column in [0, n], and below n when the
      fraction is below 1. */
  lemma UnitScale(t: real, n: nat)
    requires 0.0 <= t <= 1.0 && 0 < n
    ensures 0 <= Trunc(t * n as real) <= n
    ensures t < 1.0 ==> Trunc(t * n as real) < n
  {
    FractionOf(t, n as real);
    TruncInRange(t * n as real, n);
  }

  /** A value in [0, n] truncates into [0, n], and below n when the value is below n. */
  lemma TruncInRange(p: real, n: nat)
    requires 0.0 <= p <= n as real
    ensures 0 <= Trunc(p) <= n
    ensures p < n as real ==> Trunc(p) < n
  {
  }

  lemma FractionOf(t: real, m: real)
    requires 0.0 <= t <= 1.0 && 0.0 < m
    ensures 0.0 <= t * m <= m
    ensures t < 1.0 ==> t * m < m
  {
    assert m - t * m == (1.0 - t) * m;
  }

  /** Byte to [0, 1]: `byte / 255`. */
  function Channel(b: byte): (c: real)
    ensures 0.0 <= c <= 1.0
    ensures c * 255.0 == b as real
  {
    b as real / 255.0
  }

  /** A texel as the sampler returns it: every channel in [0, 1], and scaling back by 255
      recovers the stored byte. */
  function TexelColor(t: Rgb): (c: ColorRGB)
    ensures 0.0 <= c.r <= 1.0 && 0.0 <= c.g <= 1.0 && 0.0 <= c.b <= 1.0
    ensures c.r * 255.0 == t.r as real && c.g * 255.0 == t.g as real && c.b * 255.0 == t.b as real
  {
    ColorRGB(Channel(t.r), Channel(t.g), Channel(t.b))
  }

  /** `Sample` as written: the texel at the wrapped, unclamped `RawTexelIndex`. `None` stands for
      a read past the end of the surface's pixel array, which the code does not guard against.
      For u and v below 1 the read is always inside the image, and on a texture of at most 2^32
      texels it hits the texel at the truncated column and row. */
  function Sample(tex: Texture, u: real, v: real): (r: Option<ColorRGB>)
    requires tex.Valid() && InDomain(tex, u, v)
    ensures r.Some? <==> RawTexelIndex(tex, u, v) < |tex.texels|
    ensures r.Some? ==> 0.0 <= r.value.r <= 1.0 && 0.0 <= r.value.g <= 1.0 && 0.0 <= r.value.b <= 1.0
    ensures u < 1.0 && v < 1.0 ==>
      && OnGrid(TexelCoordinates(tex, u, v).0, TexelCoordinates(tex, u, v).1, tex.width, tex.height)
      && 0 <= RawTexelIndex(tex, u, v) < |tex.texels|
      && r == Some(TexelColor(tex.texels[RawTexelIndex(tex, u, v)]))
    ensures u < 1.0 && v < 1.0 && |tex.texels| <= TwoTo32 ==>
      RawTexelIndex(tex, u, v) == Index(TexelCoordinates(tex, u, v).0, TexelCoordinates(tex, u, v).1, tex.width)
  {
    InRangeBelowOne(tex, u, v);
    var k := RawTexelIndex(tex, u, v);
    if k < |tex.texels| then Some(TexelColor(tex.texels[k])) else None
  }

  /** The sampler with the texel clamped into the image: defined for every u and v in [0, 1],
      the texel at the truncated column and row on [0, 1), the same colour as `Sample` there on a
      texture whose indices do not wrap, and the last texel of the same row at u = 1. */
  function ClampedSample(tex: Texture, u: real, v: real): (c: ColorRGB)
    requires tex.Valid()
    requires 0.0 <= u <= 1.0 && 0.0 <= v <= 1.0
    ensures 0.0 <= c.r <= 1.0 && 0.0 <= c.g <= 1.0 && 0.0 <= c.b <= 1.0
    ensures u < 1.0 && v < 1.0 ==>
      0 <= ExactTexelIndex(tex, u, v) < |tex.texels| && c == TexelColor(tex.texels[ExactTexelIndex(tex, u, v)])
    ensures u < 1.0 && v < 1.0 && |tex.texels| <= TwoTo32 ==>
      InDomain(tex, u, v) && Sample(tex, u, v) == Some(c)
    ensures u == 1.0 && v < 1.0 ==>
      var k := Index(tex.width - 1, TexelCoordinates(tex, u, v).1, tex.width);
      0 <= k < |tex.texels| && c == TexelColor(tex.texels[k])
  {
    UnitSquareInDomain(tex, u, v);
    TexelColor(tex.texels[TexelIndex(tex, u, v)])
  }

  /** Two uv coordinates that truncate to the same texel sample the same colour, or both read
      outside the image. */
  lemma SampleDependsOnlyOnTexel(tex: Texture, u: real, v: real, u': real, v': real)
    requires tex.Valid() && InDomain(tex, u, v) && InDomain(tex, u', v')
    requires TexelCoordinates(tex, u, v) == TexelCoordinates(tex, u', v')
    ensures Sample(tex, u, v) == Sample(tex, u', v')
  {
  }
}
