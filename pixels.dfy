/** Texels and row-major images, the data the mip builder works on. */
module Pixels {

  datatype Option<T> = None | Some(value: T)

  /** One RGBA texel. The source stores 8-bit channels; here each channel is an
      exact real, so rounding and saturation are not part of the model. */
  datatype Rgba = Rgba(r: real, g: real, b: real, a: real)

  /** Transparent black, the texel written when a weighted average is undefined. */
  const Transparent: Rgba := Rgba(0.0, 0.0, 0.0, 0.0)

  function DivideBy(p: Rgba, k: real): Rgba
    requires k != 0.0
  {
    Rgba(p.r / k, p.g / k, p.b / k, p.a / k)
  }

  /** Channel-wise `lo <= p <= hi`. */
  predicate InBox(p: Rgba, lo: Rgba, hi: Rgba) {
    lo.r <= p.r <= hi.r && lo.g <= p.g <= hi.g && lo.b <= p.b <= hi.b && lo.a <= p.a <= hi.a
  }

  /** An image of `cols` x `rows` texels stored row by row, as a continuous
      OpenCV matrix is: texel (x, y) sits at index `y * cols + x`. */
  datatype Image = Image(cols: nat, rows: nat, px: seq<Rgba>) {

    predicate WellFormed() {
      |px| == cols * rows
    }

    function At(x: nat, y: nat): Rgba
      requires WellFormed() && x < cols && y < rows
    {
      FlatIndexInRange(cols, rows, x, y);
      px[y * cols + x]
    }
  }

  /** Every texel of the image equals `c`. */
  predicate Uniform(img: Image, c: Rgba) {
    forall k :: 0 <= k < |img.px| ==> img.px[k] == c
  }

  lemma MulMonotone(a: nat, b: nat, c: nat)
    requires a <= b
    ensures a * c <= b * c
  {
    assert b * c - a * c == (b - a) * c;
  }

  lemma FlatIndexInRange(cols: nat, rows: nat, x: nat, y: nat)
    requires x < cols && y < rows
    ensures y * cols + x < cols * rows
  {
    MulMonotone(y + 1, rows, cols);
    assert (y + 1) * cols == y * cols + cols;
  }

  /** The row and column of flat index `y * n + x`. */
  lemma FlatIndexSplit(x: nat, y: nat, n: nat)
    requires x < n
    ensures (y * n + x) / n == y && (y * n + x) % n == x
  {
    var k := y * n + x;
    var q, r := k / n, k % n;
    assert q * n + r == y * n + x;
    assert (q - y) * n == x - r;
    if q > y {
      MulMonotone(1, q - y, n);
    } else if q < y {
      MulMonotone(1, y - q, n);
    }
  }

  /** An index below `m * n` has a row number below `m`. */
  lemma QuotientBelow(k: nat, n: nat, m: nat)
    requires k < m * n
    ensures n >= 1 && m >= 1 && 0 <= k / n < m && 0 <= k % n < n
  {
    if k / n >= m {
      MulMonotone(m, k / n, n);
    }
  }
}
