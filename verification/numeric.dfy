/** Integer conversions and the row-major pixel index shared by the rasterizer and the texture sampler. */
module Numeric {

  /** The largest finite single-precision float, (2 - 2^-23) * 2^127, used to reset the depth buffer. */
  const FltMax: real := 340282346638528859811704183484516925440.0

  /** `static_cast<int>` of a float: truncation toward zero (overflow is not modelled). */
  function Trunc(x: real): (r: int)
    ensures x >= 0.0 ==> r as real <= x < r as real + 1.0
    ensures x < 0.0 ==> r as real - 1.0 < x <= r as real
  {
    if x >= 0.0 then x.Floor else -((-x).Floor)
  }

  /** Truncation never moves a value by a whole unit, so `Trunc(x) - 1 < x < Trunc(x) + 1`. */
  lemma TruncWithinOne(x: real)
    ensures (Trunc(x) - 1) as real < x < (Trunc(x) + 1) as real
  {
  }

  lemma TruncMonotone(a: real, b: real)
    requires a <= b
    ensures Trunc(a) <= Trunc(b)
  {
  }

  /** `std::clamp(v, lo, hi)`; the standard leaves `lo > hi` undefined. */
  function Clamp(v: int, lo: int, hi: int): (r: int)
    requires lo <= hi
    ensures lo <= r <= hi
    ensures lo <= v <= hi ==> r == v
    ensures v < lo ==> r == lo
    ensures v > hi ==> r == hi
  {
    if v < lo then lo else if hi < v then hi else v
  }

  predicate OnGrid(x: int, y: int, width: int, height: int)
  {
    0 <= x < width && 0 <= y < height
  }

  /** Row-major linear index `x + y * width`. */
  function Index(x: int, y: int, width: int): int
  {
    x + y * width
  }

  lemma IndexInRange(x: int, y: int, width: int, height: int)
    requires OnGrid(x, y, width, height)
    ensures 0 <= Index(x, y, width) < width * height
  {
    assert y * width <= (height - 1) * width by {
      MulMonotone(y, height - 1, width);
    }
    assert (height - 1) * width + width == height * width;
  }

  lemma MulMonotone(a: int, b: int, c: int)
    requires a <= b && 0 <= c
    ensures a * c <= b * c
  {
    assert b * c - a * c == (b - a) * c;
  }

  /** Distinct grid cells have distinct linear indices. */
  lemma IndexInjective(x: int, y: int, x': int, y': int, width: int, height: int)
    requires OnGrid(x, y, width, height) && OnGrid(x', y', width, height)
    requires Index(x, y, width) == Index(x', y', width)
    ensures x == x' && y == y'
  {
    if y < y' {
      assert (y + 1) * width == y * width + width;
      MulMonotone(y + 1, y', width);
    } else if y' < y {
      assert (y' + 1) * width == y' * width + width;
      MulMonotone(y' + 1, y, width);
    }
  }

  /** A column inside the row is recovered from the linear index by `% width`, the row by `/ width`. */
  lemma IndexDecomposes(x: int, y: int, width: int)
    requires 0 <= x < width && 0 <= y
    ensures Index(x, y, width) % width == x
    ensures Index(x, y, width) / width == y
  {
    var k := Index(x, y, width);
    var q, r := k / width, k % width;
    assert k == q * width + r && 0 <= r < width;
    if q > y {
      assert (y + 1) * width == y * width + width;
      MulMonotone(y + 1, q, width);
      assert false;
    } else if q < y {
      assert (q + 1) * width == q * width + width;
      MulMonotone(q + 1, y, width);
      assert false;
    }
  }

  /** Every index of a width-by-height buffer is the index of exactly one grid cell. */
  lemma IndexCovers(k: int, width: int, height: int)
    requires 0 < width && 0 <= k < width * height
    ensures OnGrid(k % width, k / width, width, height)
    ensures Index(k % width, k / width, width) == k
  {
    var y := k / width;
    if y >= height {
      MulMonotone(height, y, width);
      assert false;
    }
  }
}
