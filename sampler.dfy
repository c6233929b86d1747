/** One destination pixel of the downsampler `my_resize`
    (src/ofxTextureArray.cpp): where its centre falls in the source, its four
    neighbours, their bilinear weights, the alpha gate, and the
    weight-normalised average. */
module Sampler {
  import opened Pixels

  /** `ofClamp` on the whole-valued floats the sampler passes it. */
  function Clamp(v: int, lo: int, hi: int): (r: int)
    requires lo <= hi
    ensures lo <= r <= hi
    ensures lo <= v <= hi ==> r == v
  {
    if v < lo then lo else if v > hi then hi else v
  }

  /** Where the centre of destination pixel `d` falls in the source along one
      axis, with the half-pixel alignment of a linear resize. */
  function SourceCoord(srcDim: nat, dstDim: nat, d: nat): real
    requires dstDim >= 1
  {
    (srcDim as real) * ((0.5 + d as real) / (dstDim as real)) - 0.5
  }

  /** The neighbour columns x0, x1 and rows y0, y1 of a destination pixel, and
      the fractions alpha, beta of the sample point past (x0, y0). */
  datatype Footprint = Footprint(x0: nat, x1: nat, y0: nat, y1: nat, alpha: real, beta: real)

  /** The footprint of destination pixel (dx, dy) of a `dstCols` x `dstRows`
      resize of a `srcCols` x `srcRows` source. */
  function Locate(srcCols: nat, srcRows: nat, dstCols: nat, dstRows: nat, dx: nat, dy: nat): (f: Footprint)
    requires srcCols >= 1 && srcRows >= 1 && dstCols >= 1 && dstRows >= 1
    ensures f.x0 < srcCols && f.x1 < srcCols && f.y0 < srcRows && f.y1 < srcRows
    ensures f.x0 <= f.x1 <= f.x0 + 1 && f.y0 <= f.y1 <= f.y0 + 1
  {
    var sx := SourceCoord(srcCols, dstCols, dx);
    var sy := SourceCoord(srcRows, dstRows, dy);
    var x0 := Clamp(sx.Floor, 0, srcCols - 1);
    var y0 := Clamp(sy.Floor, 0, srcRows - 1);
    var x1 := Clamp(sx.Floor + 1, 0, srcCols - 1);
    var y1 := Clamp(sy.Floor + 1, 0, srcRows - 1);
    Footprint(x0, x1, y0, y1, sx - x0 as real, sy - y0 as real)
  }

  /** Weights of the corners a = (x0, y0), b = (x1, y0), c = (x0, y1), d = (x1, y1). */
  datatype Weights = Weights(wa: real, wb: real, wc: real, wd: real) {
    function Total(): real { wa + wb + wc + wd }
    predicate NonNegative() { 0.0 <= wa && 0.0 <= wb && 0.0 <= wc && 0.0 <= wd }
  }

  /** The ungated bilinear weights for fractions alpha (across) and beta (down). */
  function Bilinear(alpha: real, beta: real): (w: Weights)
    ensures w.Total() == 1.0
    ensures 0.0 <= alpha <= 1.0 && 0.0 <= beta <= 1.0 ==> w.NonNegative()
  {
    ProductNonNegative(1.0 - alpha, 1.0 - beta);
    ProductNonNegative(alpha, 1.0 - beta);
    ProductNonNegative(1.0 - alpha, beta);
    ProductNonNegative(alpha, beta);
    Weights((1.0 - alpha) * (1.0 - beta), alpha * (1.0 - beta), (1.0 - alpha) * beta, alpha * beta)
  }

  lemma ProductNonNegative(x: real, y: real)
    ensures 0.0 <= x && 0.0 <= y ==> 0.0 <= x * y
  {
  }

  /** The texels at corners a, b, c, d. */
  datatype Corners = Corners(a: Rgba, b: Rgba, c: Rgba, d: Rgba)

  predicate Samplable(src: Image) {
    src.WellFormed() && src.cols >= 1 && src.rows >= 1
  }

  predicate Inside(src: Image, f: Footprint) {
    f.x0 < src.cols && f.x1 < src.cols && f.y0 < src.rows && f.y1 < src.rows
  }

  function CornersOf(src: Image, f: Footprint): Corners
    requires src.WellFormed() && Inside(src, f)
  {
    Corners(src.At(f.x0, f.y0), src.At(f.x1, f.y0), src.At(f.x0, f.y1), src.At(f.x1, f.y1))
  }

  /** A texel whose alpha is exactly 0 contributes no weight. */
  function GateOne(p: Rgba, w: real): real {
    if p.a == 0.0 then 0.0 else w
  }

  /** The weights after the alpha test: a transparent neighbour's weight
      becomes 0 and the others keep theirs. */
  function Gate(cs: Corners, w: Weights): Weights {
    Weights(GateOne(cs.a, w.wa), GateOne(cs.b, w.wb), GateOne(cs.c, w.wc), GateOne(cs.d, w.wd))
  }

  /** One channel of `a*wa + b*wb + c*wc + d*wd`. */
  function Dot(xa: real, xb: real, xc: real, xd: real, w: Weights): real {
    xa * w.wa + xb * w.wb + xc * w.wc + xd * w.wd
  }

  /** `a*wa + b*wb + c*wc + d*wd`, channel by channel, alpha included. */
  function Blend(cs: Corners, w: Weights): Rgba {
    Rgba(Dot(cs.a.r, cs.b.r, cs.c.r, cs.d.r, w), Dot(cs.a.g, cs.b.g, cs.c.g, cs.d.g, w),
         Dot(cs.a.b, cs.b.b, cs.c.b, cs.d.b, w), Dot(cs.a.a, cs.b.a, cs.c.a, cs.d.a, w))
  }

  /** The value of one destination pixel from its four neighbours and their
      ungated weights: neighbours of alpha 0 lose their weight, and the
      weighted sum is divided by the sum of the weights that remain. None when
      that sum is 0, where the source divides by zero. */
  function GatedAverage(cs: Corners, w: Weights): Option<Rgba> {
    var g := Gate(cs, w);
    if g.Total() == 0.0 then None else Some(DivideBy(Blend(cs, g), g.Total()))
  }

  /** Destination pixel (dx, dy) of a `dstCols` x `dstRows` resize. */
  function Sample(src: Image, dstCols: nat, dstRows: nat, dx: nat, dy: nat): Option<Rgba>
    requires Samplable(src) && dstCols >= 1 && dstRows >= 1
  {
    var f := Locate(src.cols, src.rows, dstCols, dstRows, dx, dy);
    GatedAverage(CornersOf(src, f), Bilinear(f.alpha, f.beta))
  }

  /** The texel stored for pixel (dx, dy). Where the average is undefined
      it is transparent black. That is this model's choice: the source
      divides 0 by 0 there, and the 8-bit conversion of the resulting NaN
      depends on the platform. */
  function Texel(src: Image, dstCols: nat, dstRows: nat, dx: nat, dy: nat): Rgba
    requires Samplable(src) && dstCols >= 1 && dstRows >= 1
  {
    match Sample(src, dstCols, dstRows, dx, dy)
    case Some(p) => p
    case None => Transparent
  }

  /** Plain bilinear interpolation without gating or normalisation: the
      reference the gated sampler is compared against. */
  function PlainBilinear(src: Image, dstCols: nat, dstRows: nat, dx: nat, dy: nat): Rgba
    requires Samplable(src) && dstCols >= 1 && dstRows >= 1
  {
    var f := Locate(src.cols, src.rows, dstCols, dstRows, dx, dy);
    Blend(CornersOf(src, f), Bilinear(f.alpha, f.beta))
  }

  // ---------------------------------------------------------------------------
  // Geometry

  lemma CoordInRange(n: nat, m: nat, d: nat)
    requires 1 <= m <= n && d < m
    ensures 0.0 <= SourceCoord(n, m, d) < n as real
  {
    var nr, mr, dr := n as real, m as real, d as real;
    assert 0.0 <= dr && dr + 1.0 <= mr <= nr;
    var t := (0.5 + dr) / mr;
    UnitFraction(0.5 + dr, mr);
    ScaleBetween(nr, mr, t);
    assert SourceCoord(n, m, d) == nr * t - 0.5;
  }

  /** A quotient of two positives, the first the smaller, lies strictly in (0, 1). */
  lemma UnitFraction(a: real, b: real)
    requires 0.0 < a < b
    ensures 0.0 < a / b < 1.0 && (a / b) * b == a
  {
    var q := a / b;
    assert q * b == a;
    PositiveFactor(q, b);
    assert (1.0 - q) * b == b - a;
    PositiveFactor(1.0 - q, b);
  }

  lemma PositiveFactor(x: real, y: real)
    requires y > 0.0 && x * y > 0.0
    ensures x > 0.0
  {
  }

  lemma ScaleBetween(n: real, m: real, t: real)
    requires 0.0 < m <= n && 0.0 < t < 1.0
    ensures m * t <= n * t < n
  {
    assert (n - m) * t >= 0.0;
    assert n * (1.0 - t) > 0.0;
  }

  /** When the destination is no larger than the source and (dx, dy) is one of
      its pixels, the lower neighbours need no clamping and the bilinear
      fractions lie in [0, 1). */
  lemma FractionsInUnitInterval(srcCols: nat, srcRows: nat, dstCols: nat, dstRows: nat, dx: nat, dy: nat)
    requires 1 <= dstCols <= srcCols && 1 <= dstRows <= srcRows && dx < dstCols && dy < dstRows
    ensures var f := Locate(srcCols, srcRows, dstCols, dstRows, dx, dy);
            0.0 <= f.alpha < 1.0 && 0.0 <= f.beta < 1.0
  {
    CoordInRange(srcCols, dstCols, dx);
    CoordInRange(srcRows, dstRows, dy);
  }

  /** Under the same conditions the four ungated weights are non-negative and sum to 1. */
  lemma BilinearWeightsConvex(srcCols: nat, srcRows: nat, dstCols: nat, dstRows: nat, dx: nat, dy: nat)
    requires 1 <= dstCols <= srcCols && 1 <= dstRows <= srcRows && dx < dstCols && dy < dstRows
    ensures var f := Locate(srcCols, srcRows, dstCols, dstRows, dx, dy);
            var w := Bilinear(f.alpha, f.beta);
            w.NonNegative() && w.Total() == 1.0
  {
    FractionsInUnitInterval(srcCols, srcRows, dstCols, dstRows, dx, dy);
  }

  // ---------------------------------------------------------------------------
  // The gated average, for any four neighbours

  lemma TermOfConstant(x: real, w: real, v: real)
    requires w == 0.0 || x == v
    ensures x * w == v * w
  {
  }

  lemma DotOfConstant(xa: real, xb: real, xc: real, xd: real, w: Weights, v: real)
    requires (w.wa == 0.0 || xa == v) && (w.wb == 0.0 || xb == v)
    requires (w.wc == 0.0 || xc == v) && (w.wd == 0.0 || xd == v)
    ensures Dot(xa, xb, xc, xd, w) == v * w.Total()
  {
    TermOfConstant(xa, w.wa, v);
    TermOfConstant(xb, w.wb, v);
    TermOfConstant(xc, w.wc, v);
    TermOfConstant(xd, w.wd, v);
    Distribute(v, w.wa, w.wb, w.wc, w.wd);
  }

  /** Each corner is either transparent or of colour `c`. */
  predicate CornersOfColour(cs: Corners, c: Rgba) {
    (cs.a.a == 0.0 || cs.a == c) && (cs.b.a == 0.0 || cs.b == c) &&
    (cs.c.a == 0.0 || cs.c == c) && (cs.d.a == 0.0 || cs.d == c)
  }

  /** If every neighbour that is not transparent has colour `c`, a defined
      average is `c`. */
  lemma AverageOfOneColour(cs: Corners, w: Weights, c: Rgba)
    requires CornersOfColour(cs, c)
    ensures GatedAverage(cs, w) == None || GatedAverage(cs, w) == Some(c)
  {
    var g := Gate(cs, w);
    assert g.wa == 0.0 || cs.a == c;
    assert g.wb == 0.0 || cs.b == c;
    assert g.wc == 0.0 || cs.c == c;
    assert g.wd == 0.0 || cs.d == c;
    if g.Total() != 0.0 {
      BlendOfConstant(cs, g, c);
    }
  }

  /** Where every corner that carries weight has colour `c`, the weighted
      average is `c`. */
  lemma BlendOfConstant(cs: Corners, w: Weights, c: Rgba)
    requires (w.wa == 0.0 || cs.a == c) && (w.wb == 0.0 || cs.b == c)
    requires (w.wc == 0.0 || cs.c == c) && (w.wd == 0.0 || cs.d == c)
    requires w.Total() != 0.0
    ensures DivideBy(Blend(cs, w), w.Total()) == c
  {
    DotOverTotalOfConstant(cs.a.r, cs.b.r, cs.c.r, cs.d.r, w, c.r);
    DotOverTotalOfConstant(cs.a.g, cs.b.g, cs.c.g, cs.d.g, w, c.g);
    DotOverTotalOfConstant(cs.a.b, cs.b.b, cs.c.b, cs.d.b, w, c.b);
    DotOverTotalOfConstant(cs.a.a, cs.b.a, cs.c.a, cs.d.a, w, c.a);
  }

  lemma DotOverTotalOfConstant(xa: real, xb: real, xc: real, xd: real, w: Weights, v: real)
    requires (w.wa == 0.0 || xa == v) && (w.wb == 0.0 || xb == v)
    requires (w.wc == 0.0 || xc == v) && (w.wd == 0.0 || xd == v)
    requires w.Total() != 0.0
    ensures Dot(xa, xb, xc, xd, w) / w.Total() == v
  {
    var t := w.Total();
    DotOfConstant(xa, xb, xc, xd, w, v);
    QuotientOfMultiple(Dot(xa, xb, xc, xd, w), v, t);
  }

  lemma QuotientOfMultiple(s: real, v: real, t: real)
    requires t != 0.0 && s == v * t
    ensures s / t == v
  {
    var q := s / t;
    assert q * t == v * t;
    assert (q - v) * t == 0.0;
    ZeroFactor(q - v, t);
  }

  lemma ZeroFactor(x: real, y: real)
    requires y != 0.0 && x * y == 0.0
    ensures x == 0.0
  {
  }

  /** Four neighbours of one opaque colour average to that colour. */
  lemma AverageOfOpaqueColour(w: Weights, c: Rgba)
    requires w.Total() == 1.0 && c.a != 0.0
    ensures GatedAverage(Corners(c, c, c, c), w) == Some(c)
  {
    var cs := Corners(c, c, c, c);
    assert Gate(cs, w) == w;
    AverageOfOneColour(cs, w, c);
  }

  /** The two texels agree, or both are transparent. */
  predicate SameUpToTransparent(p: Rgba, q: Rgba) {
    p == q || (p.a == 0.0 && q.a == 0.0)
  }

  lemma DotAgree(xa: real, xb: real, xc: real, xd: real, ya: real, yb: real, yc: real, yd: real, w: Weights)
    requires (w.wa == 0.0 || xa == ya) && (w.wb == 0.0 || xb == yb)
    requires (w.wc == 0.0 || xc == yc) && (w.wd == 0.0 || xd == yd)
    ensures Dot(xa, xb, xc, xd, w) == Dot(ya, yb, yc, yd, w)
  {
    TermOfConstant(xa, w.wa, ya);
    TermOfConstant(xb, w.wb, yb);
    TermOfConstant(xc, w.wc, yc);
    TermOfConstant(xd, w.wd, yd);
  }

  /** A transparent neighbour has no influence: replacing it by any other
      transparent texel leaves the average unchanged. */
  lemma AverageIgnoresTransparent(cs: Corners, cs2: Corners, w: Weights)
    requires SameUpToTransparent(cs.a, cs2.a) && SameUpToTransparent(cs.b, cs2.b)
    requires SameUpToTransparent(cs.c, cs2.c) && SameUpToTransparent(cs.d, cs2.d)
    ensures GatedAverage(cs, w) == GatedAverage(cs2, w)
  {
    var g, g2 := Gate(cs, w), Gate(cs2, w);
    assert g == g2;
    assert g.wa == 0.0 || cs.a == cs2.a;
    assert g.wb == 0.0 || cs.b == cs2.b;
    assert g.wc == 0.0 || cs.c == cs2.c;
    assert g.wd == 0.0 || cs.d == cs2.d;
    DotAgree(cs.a.r, cs.b.r, cs.c.r, cs.d.r, cs2.a.r, cs2.b.r, cs2.c.r, cs2.d.r, g);
    DotAgree(cs.a.g, cs.b.g, cs.c.g, cs.d.g, cs2.a.g, cs2.b.g, cs2.c.g, cs2.d.g, g);
    DotAgree(cs.a.b, cs.b.b, cs.c.b, cs.d.b, cs2.a.b, cs2.b.b, cs2.c.b, cs2.d.b, g);
    DotAgree(cs.a.a, cs.b.a, cs.c.a, cs.d.a, cs2.a.a, cs2.b.a, cs2.c.a, cs2.d.a, g);
    assert Blend(cs, g) == Blend(cs2, g2);
  }

  /** With no transparent neighbour the gate never fires: weights that sum to
      1 give the plain weighted sum. */
  lemma AverageWithoutTransparency(cs: Corners, w: Weights)
    requires cs.a.a != 0.0 && cs.b.a != 0.0 && cs.c.a != 0.0 && cs.d.a != 0.0
    requires w.Total() == 1.0
    ensures GatedAverage(cs, w) == Some(Blend(cs, w))
  {
    assert Gate(cs, w) == w;
    var p := Blend(cs, w);
    assert DivideBy(p, 1.0) == p;
  }

  /** Every corner is transparent or carries weight 0. */
  predicate Unweighted(cs: Corners, w: Weights) {
    (cs.a.a == 0.0 || w.wa == 0.0) && (cs.b.a == 0.0 || w.wb == 0.0) &&
    (cs.c.a == 0.0 || w.wc == 0.0) && (cs.d.a == 0.0 || w.wd == 0.0)
  }

  /** With non-negative weights the average is undefined exactly when every
      neighbour is transparent or carries weight 0. */
  lemma AverageUndefinedIff(cs: Corners, w: Weights)
    requires w.NonNegative()
    ensures GatedAverage(cs, w) == None <==> Unweighted(cs, w)
  {
    var ga, gb, gc, gd := GateOne(cs.a, w.wa), GateOne(cs.b, w.wb), GateOne(cs.c, w.wc), GateOne(cs.d, w.wd);
    GateOneVanishes(cs.a, w.wa);
    GateOneVanishes(cs.b, w.wb);
    GateOneVanishes(cs.c, w.wc);
    GateOneVanishes(cs.d, w.wd);
    ZeroSumOfNonNegative(ga, gb, gc, gd);
    assert ga + gb + gc + gd == 0.0 <==> Unweighted(cs, w);
    assert Gate(cs, w).Total() == ga + gb + gc + gd;
  }

  /** A gated weight is non-negative, and 0 exactly when the texel is
      transparent or its weight was 0 already. */
  lemma GateOneVanishes(p: Rgba, w: real)
    requires 0.0 <= w
    ensures 0.0 <= GateOne(p, w)
    ensures GateOne(p, w) == 0.0 <==> p.a == 0.0 || w == 0.0
  {
  }

  /** Four non-negative reals sum to 0 exactly when each of them is 0. */
  lemma ZeroSumOfNonNegative(a: real, b: real, c: real, d: real)
    requires 0.0 <= a && 0.0 <= b && 0.0 <= c && 0.0 <= d
    ensures a + b + c + d == 0.0 <==> a == 0.0 && b == 0.0 && c == 0.0 && d == 0.0
  {
  }

  lemma TermAtLeast(x: real, w: real, lo: real)
    requires 0.0 <= w && (w != 0.0 ==> lo <= x)
    ensures lo * w <= x * w
  {
    assert (x - lo) * w >= 0.0;
  }

  /** A weighted sum with non-negative weights is at least the least of the
      values that carry weight, times the total weight. */
  lemma SumAtLeast(xa: real, xb: real, xc: real, xd: real, wa: real, wb: real, wc: real, wd: real, lo: real)
    requires 0.0 <= wa && 0.0 <= wb && 0.0 <= wc && 0.0 <= wd
    requires (wa != 0.0 ==> lo <= xa) && (wb != 0.0 ==> lo <= xb)
    requires (wc != 0.0 ==> lo <= xc) && (wd != 0.0 ==> lo <= xd)
    ensures lo * (wa + wb + wc + wd) <= xa * wa + xb * wb + xc * wc + xd * wd
  {
    TermAtLeast(xa, wa, lo);
    TermAtLeast(xb, wb, lo);
    TermAtLeast(xc, wc, lo);
    TermAtLeast(xd, wd, lo);
    Distribute(lo, wa, wb, wc, wd);
  }

  /** The same sum is at most the greatest weighted value times the total weight. */
  lemma SumAtMost(xa: real, xb: real, xc: real, xd: real, wa: real, wb: real, wc: real, wd: real, hi: real)
    requires 0.0 <= wa && 0.0 <= wb && 0.0 <= wc && 0.0 <= wd
    requires (wa != 0.0 ==> xa <= hi) && (wb != 0.0 ==> xb <= hi)
    requires (wc != 0.0 ==> xc <= hi) && (wd != 0.0 ==> xd <= hi)
    ensures xa * wa + xb * wb + xc * wc + xd * wd <= hi * (wa + wb + wc + wd)
  {
    SumAtLeast(-xa, -xb, -xc, -xd, wa, wb, wc, wd, -hi);
    Negate(xa, xb, xc, xd, wa, wb, wc, wd, hi);
  }

  lemma Negate(xa: real, xb: real, xc: real, xd: real, wa: real, wb: real, wc: real, wd: real, hi: real)
    ensures (-xa) * wa + (-xb) * wb + (-xc) * wc + (-xd) * wd == -(xa * wa + xb * wb + xc * wc + xd * wd)
    ensures (-hi) * (wa + wb + wc + wd) == -(hi * (wa + wb + wc + wd))
  {
  }

  lemma Distribute(k: real, a: real, b: real, c: real, d: real)
    ensures k * (a + b + c + d) == k * a + k * b + k * c + k * d
  {
  }

  lemma NonNegativeFactor(x: real, y: real)
    requires y > 0.0 && x * y >= 0.0
    ensures x >= 0.0
  {
  }

  lemma QuotientBetween(s: real, t: real, lo: real, hi: real)
    requires t > 0.0 && lo * t <= s <= hi * t
    ensures lo <= s / t <= hi
  {
    var q := s / t;
    assert q * t == s;
    NonNegativeFactor(q - lo, t);
    NonNegativeFactor(hi - q, t);
  }

  /** A weighted average with non-negative weights lies between the least and
      the greatest of the values that carry weight. */
  lemma DotBetween(xa: real, xb: real, xc: real, xd: real, w: Weights, lo: real, hi: real)
    requires w.NonNegative() && w.Total() > 0.0
    requires w.wa != 0.0 ==> lo <= xa <= hi
    requires w.wb != 0.0 ==> lo <= xb <= hi
    requires w.wc != 0.0 ==> lo <= xc <= hi
    requires w.wd != 0.0 ==> lo <= xd <= hi
    ensures lo <= Dot(xa, xb, xc, xd, w) / w.Total() <= hi
  {
    SumAtLeast(xa, xb, xc, xd, w.wa, w.wb, w.wc, w.wd, lo);
    SumAtMost(xa, xb, xc, xd, w.wa, w.wb, w.wc, w.wd, hi);
    QuotientBetween(Dot(xa, xb, xc, xd, w), w.Total(), lo, hi);
  }

  /** Every corner that is not transparent lies in the box [lo, hi]. */
  predicate CornersWithinBox(cs: Corners, lo: Rgba, hi: Rgba) {
    (cs.a.a != 0.0 ==> InBox(cs.a, lo, hi)) && (cs.b.a != 0.0 ==> InBox(cs.b, lo, hi)) &&
    (cs.c.a != 0.0 ==> InBox(cs.c, lo, hi)) && (cs.d.a != 0.0 ==> InBox(cs.d, lo, hi))
  }

  /** Four transparent neighbours leave the average undefined, whatever the weights. */
  lemma AverageOfTransparent(cs: Corners, w: Weights)
    requires cs.a.a == 0.0 && cs.b.a == 0.0 && cs.c.a == 0.0 && cs.d.a == 0.0
    ensures GatedAverage(cs, w) == None
  {
    assert Gate(cs, w) == Weights(0.0, 0.0, 0.0, 0.0);
  }

  /** Convexity: with non-negative weights a defined average lies, channel by
      channel, within any box that holds the neighbours that are not transparent. */
  lemma AverageWithinBox(cs: Corners, w: Weights, lo: Rgba, hi: Rgba)
    requires w.NonNegative() && CornersWithinBox(cs, lo, hi)
    ensures GatedAverage(cs, w).Some? ==> InBox(GatedAverage(cs, w).value, lo, hi)
  {
    var g := Gate(cs, w);
    assert g.NonNegative();
    if g.Total() != 0.0 {
      BlendWithinBox(cs, g, lo, hi);
    }
  }

  lemma BlendWithinBox(cs: Corners, g: Weights, lo: Rgba, hi: Rgba)
    requires g.NonNegative() && g.Total() > 0.0
    requires g.wa != 0.0 ==> InBox(cs.a, lo, hi)
    requires g.wb != 0.0 ==> InBox(cs.b, lo, hi)
    requires g.wc != 0.0 ==> InBox(cs.c, lo, hi)
    requires g.wd != 0.0 ==> InBox(cs.d, lo, hi)
    ensures InBox(DivideBy(Blend(cs, g), g.Total()), lo, hi)
  {
    DotBetween(cs.a.r, cs.b.r, cs.c.r, cs.d.r, g, lo.r, hi.r);
    DotBetween(cs.a.g, cs.b.g, cs.c.g, cs.d.g, g, lo.g, hi.g);
    DotBetween(cs.a.b, cs.b.b, cs.c.b, cs.d.b, g, lo.b, hi.b);
    DotBetween(cs.a.a, cs.b.a, cs.c.a, cs.d.a, g, lo.a, hi.a);
  }

  // ---------------------------------------------------------------------------
  // One destination pixel of an image

  /** The four corners are the texels at the footprint's flat indices. */
  lemma CornersOfIndices(src: Image, f: Footprint)
    requires src.WellFormed() && Inside(src, f)
    ensures var cs := CornersOf(src, f);
            var n := src.cols;
            0 <= f.y0 * n + f.x0 < |src.px| && cs.a == src.px[f.y0 * n + f.x0] &&
            0 <= f.y0 * n + f.x1 < |src.px| && cs.b == src.px[f.y0 * n + f.x1] &&
            0 <= f.y1 * n + f.x0 < |src.px| && cs.c == src.px[f.y1 * n + f.x0] &&
            0 <= f.y1 * n + f.x1 < |src.px| && cs.d == src.px[f.y1 * n + f.x1]
  {
    FlatIndexInRange(src.cols, src.rows, f.x0, f.y0);
    FlatIndexInRange(src.cols, src.rows, f.x1, f.y0);
    FlatIndexInRange(src.cols, src.rows, f.x0, f.y1);
    FlatIndexInRange(src.cols, src.rows, f.x1, f.y1);
  }

  /** Every texel that is not transparent has colour `c`. */
  predicate OnlyColour(src: Image, c: Rgba) {
    forall k :: 0 <= k < |src.px| ==> src.px[k].a == 0.0 || src.px[k] == c
  }

  /** If every texel that is not transparent has colour `c`, a defined sample is `c`. */
  lemma SampleOfOneColour(src: Image, dstCols: nat, dstRows: nat, dx: nat, dy: nat, c: Rgba)
    requires Samplable(src) && dstCols >= 1 && dstRows >= 1 && OnlyColour(src, c)
    ensures Sample(src, dstCols, dstRows, dx, dy) == None || Sample(src, dstCols, dstRows, dx, dy) == Some(c)
  {
    var f := Locate(src.cols, src.rows, dstCols, dstRows, dx, dy);
    CornersOfIndices(src, f);
    AverageOfOneColour(CornersOf(src, f), Bilinear(f.alpha, f.beta), c);
  }

  /** On an image of one opaque colour every sample is defined and equals it. */
  lemma SampleOfOpaqueUniform(src: Image, dstCols: nat, dstRows: nat, dx: nat, dy: nat, c: Rgba)
    requires Samplable(src) && dstCols >= 1 && dstRows >= 1
    requires Uniform(src, c) && c.a != 0.0
    ensures Sample(src, dstCols, dstRows, dx, dy) == Some(c)
  {
    var f := Locate(src.cols, src.rows, dstCols, dstRows, dx, dy);
    CornersOfIndices(src, f);
    assert CornersOf(src, f) == Corners(c, c, c, c);
    AverageOfOpaqueColour(Bilinear(f.alpha, f.beta), c);
  }

  /** Two images of the same size that differ only in texels transparent in both. */
  predicate AgreeUpToTransparent(src: Image, src2: Image) {
    src2.cols == src.cols && src2.rows == src.rows && |src2.px| == |src.px| &&
    forall k :: 0 <= k < |src.px| ==> SameUpToTransparent(src.px[k], src2.px[k])
  }

  /** A texel of alpha 0 has no influence: changing texels that stay
      transparent never changes a sample. */
  lemma SampleIgnoresTransparentTexels(src: Image, src2: Image, dstCols: nat, dstRows: nat, dx: nat, dy: nat)
    requires Samplable(src) && AgreeUpToTransparent(src, src2) && dstCols >= 1 && dstRows >= 1
    ensures Samplable(src2)
    ensures Sample(src, dstCols, dstRows, dx, dy) == Sample(src2, dstCols, dstRows, dx, dy)
  {
    var f := Locate(src.cols, src.rows, dstCols, dstRows, dx, dy);
    CornersOfIndices(src, f);
    CornersOfIndices(src2, f);
    AverageIgnoresTransparent(CornersOf(src, f), CornersOf(src2, f), Bilinear(f.alpha, f.beta));
  }

  /** No texel is transparent. */
  predicate Opaque(src: Image) {
    forall k :: 0 <= k < |src.px| ==> src.px[k].a != 0.0
  }

  /** Where no texel is transparent the gate never fires and a sample is the
      plain bilinear interpolation. */
  lemma SampleWithoutTransparency(src: Image, dstCols: nat, dstRows: nat, dx: nat, dy: nat)
    requires Samplable(src) && dstCols >= 1 && dstRows >= 1 && Opaque(src)
    ensures Sample(src, dstCols, dstRows, dx, dy) == Some(PlainBilinear(src, dstCols, dstRows, dx, dy))
  {
    var f := Locate(src.cols, src.rows, dstCols, dstRows, dx, dy);
    CornersOfIndices(src, f);
    AverageWithoutTransparency(CornersOf(src, f), Bilinear(f.alpha, f.beta));
  }

  /** Inside a destination no larger than the source, a sample is undefined
      exactly when each of its four neighbours is transparent or has bilinear
      weight 0. */
  lemma SampleUndefinedIff(src: Image, dstCols: nat, dstRows: nat, dx: nat, dy: nat)
    requires Samplable(src) && 1 <= dstCols <= src.cols && 1 <= dstRows <= src.rows
    requires dx < dstCols && dy < dstRows
    ensures var f := Locate(src.cols, src.rows, dstCols, dstRows, dx, dy);
            Sample(src, dstCols, dstRows, dx, dy) == None <==>
              Unweighted(CornersOf(src, f), Bilinear(f.alpha, f.beta))
  {
    var f := Locate(src.cols, src.rows, dstCols, dstRows, dx, dy);
    BilinearWeightsConvex(src.cols, src.rows, dstCols, dstRows, dx, dy);
    AverageUndefinedIff(CornersOf(src, f), Bilinear(f.alpha, f.beta));
  }

  /** Four transparent neighbours always leave the sample undefined and the
      stored texel transparent black. */
  lemma SampleOfTransparentNeighbours(src: Image, dstCols: nat, dstRows: nat, dx: nat, dy: nat)
    requires Samplable(src) && dstCols >= 1 && dstRows >= 1
    requires var cs := CornersOf(src, Locate(src.cols, src.rows, dstCols, dstRows, dx, dy));
             cs.a.a == 0.0 && cs.b.a == 0.0 && cs.c.a == 0.0 && cs.d.a == 0.0
    ensures Sample(src, dstCols, dstRows, dx, dy) == None
    ensures Texel(src, dstCols, dstRows, dx, dy) == Transparent
  {
    var f := Locate(src.cols, src.rows, dstCols, dstRows, dx, dy);
    AverageOfTransparent(CornersOf(src, f), Bilinear(f.alpha, f.beta));
  }

  /** Every texel that is not transparent lies in the box [lo, hi]. */
  predicate OpaqueWithinBox(src: Image, lo: Rgba, hi: Rgba) {
    forall k :: 0 <= k < |src.px| ==> src.px[k].a != 0.0 ==> InBox(src.px[k], lo, hi)
  }

  /** Convexity: inside a destination no larger than the source, a defined
      sample lies, channel by channel, within any box that holds every texel
      that is not transparent. */
  lemma SampleWithinBox(src: Image, dstCols: nat, dstRows: nat, dx: nat, dy: nat, lo: Rgba, hi: Rgba)
    requires Samplable(src) && 1 <= dstCols <= src.cols && 1 <= dstRows <= src.rows
    requires dx < dstCols && dy < dstRows && OpaqueWithinBox(src, lo, hi)
    ensures Sample(src, dstCols, dstRows, dx, dy).Some? ==>
              InBox(Sample(src, dstCols, dstRows, dx, dy).value, lo, hi)
  {
    var f := Locate(src.cols, src.rows, dstCols, dstRows, dx, dy);
    BilinearWeightsConvex(src.cols, src.rows, dstCols, dstRows, dx, dy);
    CornersOfIndices(src, f);
    AverageWithinBox(CornersOf(src, f), Bilinear(f.alpha, f.beta), lo, hi);
  }
}
