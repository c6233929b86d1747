/** The alpha-gated bilinear downsampler `my_resize` of src/ofxTextureArray.cpp
    applied to a whole image: the destination buffer, the loop nest that fills
    it, and what the result is as a function of the source. */
module Resize {
  import opened Pixels
  import opened Sampler

  /** The `width` x `height` image the downsampler produces from `src`. */
  function ResizeImage(src: Image, width: nat, height: nat): (dst: Image)
    requires Samplable(src)
    ensures dst.cols == width && dst.rows == height && dst.WellFormed()
  {
    if width == 0 || height == 0 then Image(width, height, [])
    else Image(width, height, seq(width * height, k requires 0 <= k < width * height =>
                                    Texel(src, width, height, k % width, k / width)))
  }

  /** Fills a fresh `width` x `height` buffer row by row, pixel (dx, dy) at
      index `dy * width + dx`. The loops run dy over the rows and dx over the
      columns (the source swaps the two bounds; see AsWrittenAddresses). */
  method Resize(src: Image, width: nat, height: nat) returns (dst: array<Rgba>)
    requires Samplable(src)
    ensures fresh(dst)
    ensures dst[..] == ResizeImage(src, width, height).px
  {
    ghost var target := ResizeImage(src, width, height).px;
    dst := new Rgba[width * height];
    var dy := 0;
    while dy < height
      invariant 0 <= dy <= height
      invariant forall j :: 0 <= j < dy * width ==> dst[j] == target[j]
    {
      MulMonotone(dy + 1, height, width);
      var row := dy * width;
      assert row + width == (dy + 1) * width <= dst.Length;
      var dx := 0;
      while dx < width
        invariant 0 <= dx <= width
        invariant forall j :: 0 <= j < row + dx ==> dst[j] == target[j]
      {
        assert 0 <= row + dx < dst.Length;
        assert width >= 1 && height >= 1;
        ResizeImageAt(src, width, height, dx, dy);
        assert row + dx == dy * width + dx;
        var p := Texel(src, width, height, dx, dy);
        dst[row + dx] := p;
        dx := dx + 1;
      }
      dy := dy + 1;
    }
  }

  // ---------------------------------------------------------------------------
  // What a whole resize computes

  /** Pixel (x, y) of the result, stored at `y * width + x`, is the sample
      for destination pixel (x, y). */
  lemma ResizeImageAt(src: Image, width: nat, height: nat, x: nat, y: nat)
    requires Samplable(src) && x < width && y < height
    ensures y * width + x < width * height
    ensures ResizeImage(src, width, height).px[y * width + x] == Texel(src, width, height, x, y)
  {
    var k := y * width + x;
    FlatIndexSplit(x, y, width);
    FlatIndexInRange(width, height, x, y);
    assert k % width == x && k / width == y;
    ResizeImageIndex(src, width, height, k);
  }

  /** Every pixel of the result is its own sample: index k holds pixel
      (k % width, k / width). */
  lemma ResizeImageIndex(src: Image, width: nat, height: nat, k: nat)
    requires Samplable(src) && k < width * height
    ensures width >= 1 && height >= 1 && k % width < width && 0 <= k / width < height
    ensures ResizeImage(src, width, height).px[k] == Texel(src, width, height, k % width, k / width)
  {
    QuotientBelow(k, width, height);
  }

  /** Downsampling an image of one opaque colour gives that colour everywhere. */
  lemma ResizeOfOpaqueUniform(src: Image, width: nat, height: nat, c: Rgba)
    requires Samplable(src) && Uniform(src, c) && c.a != 0.0
    ensures Uniform(ResizeImage(src, width, height), c)
  {
    var dst := ResizeImage(src, width, height);
    forall k | 0 <= k < |dst.px|
      ensures dst.px[k] == c
    {
      ResizeImageIndex(src, width, height, k);
      SampleOfOpaqueUniform(src, width, height, k % width, k / width, c);
    }
  }

  /** If every texel that is not transparent has colour `c`, so does every
      pixel of the result that is not transparent black. */
  lemma ResizeOfOneColour(src: Image, width: nat, height: nat, c: Rgba)
    requires Samplable(src) && OnlyColour(src, c)
    ensures forall k :: 0 <= k < |ResizeImage(src, width, height).px| ==>
              ResizeImage(src, width, height).px[k] in {Transparent, c}
  {
    var dst := ResizeImage(src, width, height);
    forall k | 0 <= k < |dst.px|
      ensures dst.px[k] in {Transparent, c}
    {
      ResizeImageIndex(src, width, height, k);
      SampleOfOneColour(src, width, height, k % width, k / width, c);
    }
  }

  /** Changing texels that stay transparent never changes the resized image. */
  lemma ResizeIgnoresTransparentTexels(src: Image, src2: Image, width: nat, height: nat)
    requires Samplable(src) && AgreeUpToTransparent(src, src2)
    ensures Samplable(src2)
    ensures ResizeImage(src, width, height) == ResizeImage(src2, width, height)
  {
    var dst, dst2 := ResizeImage(src, width, height), ResizeImage(src2, width, height);
    forall k | 0 <= k < |dst.px|
      ensures dst.px[k] == dst2.px[k]
    {
      ResizeImageIndex(src, width, height, k);
      ResizeImageIndex(src2, width, height, k);
      SampleIgnoresTransparentTexels(src, src2, width, height, k % width, k / width);
    }
  }

  /** With no transparent texel the resize equals plain bilinear interpolation. */
  lemma ResizeWithoutTransparency(src: Image, width: nat, height: nat, x: nat, y: nat)
    requires Samplable(src) && Opaque(src) && x < width && y < height
    ensures y * width + x < width * height
    ensures ResizeImage(src, width, height).px[y * width + x] == PlainBilinear(src, width, height, x, y)
  {
    ResizeImageAt(src, width, height, x, y);
    SampleWithoutTransparency(src, width, height, x, y);
  }

  /** When downsampling, every texel of the result is transparent black (an
      undefined sample) or lies within any box holding the source texels that
      are not transparent. */
  lemma ResizeWithinBox(src: Image, width: nat, height: nat, lo: Rgba, hi: Rgba)
    requires Samplable(src) && width <= src.cols && height <= src.rows
    requires OpaqueWithinBox(src, lo, hi)
    ensures forall k :: 0 <= k < |ResizeImage(src, width, height).px| ==>
              ResizeImage(src, width, height).px[k] == Transparent ||
              InBox(ResizeImage(src, width, height).px[k], lo, hi)
  {
    var dst := ResizeImage(src, width, height);
    forall k | 0 <= k < |dst.px|
      ensures dst.px[k] == Transparent || InBox(dst.px[k], lo, hi)
    {
      ResizeImageIndex(src, width, height, k);
      SampleWithinBox(src, width, height, k % width, k / width, lo, hi);
    }
  }

  // ---------------------------------------------------------------------------
  // The loop nest of the source, bounds as written

  /** The (outer, inner) index pairs a nest of two counting loops visits, in order. */
  function LoopVisits(outer: nat, inner: nat): (v: seq<(nat, nat)>)
    ensures |v| == outer * inner
  {
    if inner == 0 then [] else seq(outer * inner, k requires 0 <= k => Visit(k, inner))
  }

  /** Visit number k of a loop nest whose inner loop runs `inner` times. */
  function Visit(k: nat, inner: nat): (nat, nat)
    requires inner >= 1
  {
    (k / inner, k % inner)
  }

  /** Visit k of the nest is outer index `k / inner` and inner index
      `k % inner`, both inside their loops' ranges. */
  lemma VisitInRange(outer: nat, inner: nat, k: nat)
    requires k < |LoopVisits(outer, inner)|
    ensures inner >= 1 && LoopVisits(outer, inner)[k] == (k / inner, k % inner)
    ensures k / inner < outer && k % inner < inner
  {
    QuotientBelow(k, inner, outer);
  }

  /** The buffer index each visit writes: pixel (dx, dy) of a matrix with `cols`
      columns is stored at `dy * cols + dx`, and nothing stops dx from reaching
      past the row. */
  function Addresses(visits: seq<(nat, nat)>, cols: nat): (a: seq<int>)
    ensures |a| == |visits|
  {
    seq(|visits|, k requires 0 <= k < |visits| => visits[k].0 * cols + visits[k].1)
  }

  /** The addresses the source's loops write for a `width` x `height`
      destination: dy runs up to the width and dx up to the height. */
  function AsWrittenAddresses(width: nat, height: nat): seq<int> {
    Addresses(LoopVisits(width, height), width)
  }

  /** The addresses the Resize method writes: dy up to the height, dx up to the width. */
  function CorrectedAddresses(width: nat, height: nat): seq<int> {
    Addresses(LoopVisits(height, width), width)
  }

  /** The corrected loops write every pixel exactly once, in buffer order. */
  lemma CorrectedAddressesInOrder(width: nat, height: nat)
    ensures |CorrectedAddresses(width, height)| == width * height
    ensures forall k :: 0 <= k < width * height ==> CorrectedAddresses(width, height)[k] == k
  {
    var a := CorrectedAddresses(width, height);
    forall k | 0 <= k < width * height
      ensures a[k] == k
    {
      assert width != 0;
      assert LoopVisits(height, width)[k] == (k / width, k % width);
    }
  }

  /** For a square destination the loops as written visit exactly what the corrected ones do. */
  lemma AsWrittenAgreesOnSquare(n: nat)
    ensures AsWrittenAddresses(n, n) == CorrectedAddresses(n, n)
  {
  }

  /** Visit k of the loops as written is (k / height, k % height) and writes
      address `(k / height) * width + k % height`. */
  lemma AsWrittenAddressAt(width: nat, height: nat, k: nat)
    requires k < width * height
    ensures 0 <= k / height < width && 0 <= k % height < height
    ensures |AsWrittenAddresses(width, height)| == width * height
    ensures AsWrittenAddresses(width, height)[k] == (k / height) * width + k % height
  {
    QuotientBelow(k, height, width);
    assert LoopVisits(width, height)[k] == (k / height, k % height);
  }

  /** In a destination taller than it is wide, a write at row `dy` below the
      width and column `dx` below the height stays below the first of the
      last `(width - 1) * (height - width)` pixels. */
  lemma TallAddressBound(width: nat, height: nat, dy: nat, dx: nat)
    requires 1 < width < height && dy < width && dx < height
    ensures dy * width + dx < (width - 1) * width + height
    ensures (width - 1) * width + height < width * height
  {
    MulMonotone(dy, width - 1, width);
    assert width * height - ((width - 1) * width + height) == (width - 1) * (height - width);
    MulMonotone(1, width - 1, height - width);
  }

  /** A destination taller than it is wide (and wider than 1): the loops as
      written never reach the last `(width - 1) * (height - width)` pixels of
      the buffer, the last pixel among them, so those keep whatever the fresh
      buffer held. */
  lemma AsWrittenMissesLastPixel(width: nat, height: nat)
    requires 1 < width < height
    ensures forall k :: 0 <= k < |AsWrittenAddresses(width, height)| ==>
              AsWrittenAddresses(width, height)[k] < (width - 1) * width + height
    ensures (width - 1) * width + height < width * height
    ensures width * height - 1 !in AsWrittenAddresses(width, height)
  {
    var a := AsWrittenAddresses(width, height);
    forall k | 0 <= k < |a|
      ensures a[k] < (width - 1) * width + height
    {
      AsWrittenAddressAt(width, height, k);
      TallAddressBound(width, height, k / height, k % height);
    }
    TallAddressBound(width, height, 0, 0);
  }

  /** A destination wider than it is tall: the last write of the loops as
      written lands beyond the end of the `width * height` buffer. */
  lemma AsWrittenOverrunsBuffer(width: nat, height: nat)
    requires 1 <= height < width
    ensures |AsWrittenAddresses(width, height)| == width * height
    ensures AsWrittenAddresses(width, height)[width * height - 1] == (width - 1) * width + height - 1
    ensures AsWrittenAddresses(width, height)[width * height - 1] >= width * height
  {
    var k := width * height - 1;
    MulMonotone(1, width, height);
    assert k == (width - 1) * height + (height - 1);
    FlatIndexSplit(height - 1, width - 1, height);
    assert LoopVisits(width, height)[k] == (width - 1, height - 1);
    assert (width - 1) * width + height - 1 - width * height == (width - 1) * (width - height) - 1;
    MulMonotone(1, width - 1, width - height);
  }

  /** The concrete case: a 2 x 4 destination (the first mip level of a 4 x 8
      image) gets writes at [0, 1, 2, 3, 2, 3, 4, 5], so buffer indices 6 and
      7, the pixels of row 3, are never written. */
  lemma AsWrittenTallExample()
    ensures AsWrittenAddresses(2, 4) == [0, 1, 2, 3, 2, 3, 4, 5]
    ensures 6 !in AsWrittenAddresses(2, 4) && 7 !in AsWrittenAddresses(2, 4)
  {
    var v := LoopVisits(2, 4);
    assert v == [(0, 0), (0, 1), (0, 2), (0, 3), (1, 0), (1, 1), (1, 2), (1, 3)];
  }
}
