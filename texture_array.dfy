/** The texture object `ofxTextureArray` (src/ofxTextureArray.h and .cpp):
    its state, `allocate`, `enableMipmap` and `loadData` with its mip chain.
    The graphics driver is the ghost log `gl` of the calls the object issues. */
module TextureArray {
  import opened Pixels
  import opened Sampler
  import opened Resize
  import opened MipLevels
  import opened Gl

  /** The fields of the base class's texture description that the texture
      array reads or writes. */
  datatype TexData = TexData(
    texW: int, texH: int, texD: int,
    texT: int, texU: int, texV: int,
    width: int, height: int, depth: int,
    textureTarget: int, glInternalFormat: int, glType: int, pixelType: int,
    minFilter: int, flipTexture: bool, isAllocated: bool)

  // ---------------------------------------------------------------------------
  // allocate

  /** The levels `allocate` reserves: the chain's level count with mipmapping
      on, one level otherwise. */
  function StorageLevels(mipmap: bool, w: int, h: int): int
    requires mipmap ==> w >= 1 && h >= 1
  {
    if mipmap then LevelCount(w, h) else 1
  }

  /** The texture description after `allocate(w, h, d, internalFormat)`, where
      `format` and `pixelType` are what the format lookups give for
      `internalFormat`. */
  function Allocated(tex: TexData, w: int, h: int, d: int, internalFormat: int, format: int, pixelType: int): TexData {
    tex.(texW := w, texH := h, texD := d, texT := w, texU := h, texV := d,
         textureTarget := Texture2DArray, glInternalFormat := internalFormat,
         glType := format, pixelType := pixelType,
         width := w, height := h, depth := d, flipTexture := false, isAllocated := true)
  }

  /** The calls `allocate` issues, in order. */
  function AllocateCalls(mipmap: bool, internalFormat: int, w: int, h: int, d: int): seq<GlCall>
    requires mipmap ==> w >= 1 && h >= 1
  {
    [Clear, GenTexture, Retain, Bind,
     Storage3D(Texture2DArray, StorageLevels(mipmap, w, h), internalFormat, w, h, d),
     Parameter(TextureMinFilter, if mipmap then LinearMipmapLinear else Linear),
     Parameter(TextureMagFilter, Linear),
     Parameter(TextureWrapS, Repeat), Parameter(TextureWrapT, Repeat), Parameter(TextureWrapR, Repeat),
     Unbind]
  }

  /** `allocate` reserves storage exactly once, for the full `w` x `h` x `d`
      size, with at least one level: the chain's level count with
      mipmapping on, and one level otherwise. It sets the minifying filter to
      match, and uploads nothing. */
  lemma AllocateReserves(mipmap: bool, internalFormat: int, w: int, h: int, d: int)
    requires mipmap ==> w >= 1 && h >= 1
    ensures var s := Storages(AllocateCalls(mipmap, internalFormat, w, h, d));
            |s| == 1 && s[0].target == Texture2DArray && s[0].internalFormat == internalFormat &&
            s[0].width == w && s[0].height == h && s[0].depth == d &&
            s[0].levels >= 1 && (s[0].levels == 1 <==> !mipmap || Min(w, h) < 4) &&
            (mipmap ==> s[0].levels == LevelCount(w, h))
    ensures Uploads(AllocateCalls(mipmap, internalFormat, w, h, d)) == []
    ensures Parameter(TextureMinFilter, if mipmap then LinearMipmapLinear else Linear)
              in AllocateCalls(mipmap, internalFormat, w, h, d)
  {
    var calls := AllocateCalls(mipmap, internalFormat, w, h, d);
    if mipmap {
      LevelCountBrackets(w, h);
    }
    var pre, st, post := calls[..4], calls[4], calls[5..];
    assert calls == pre + [st] + post;
    NeitherStorageNorUpload(pre);
    NeitherStorageNorUpload(post);
    StoragesAppend(pre + [st], post);
    StoragesAppend(pre, [st]);
    UploadsAppend(pre + [st], post);
    UploadsAppend(pre, [st]);
    assert Storages([st]) == [st] && Uploads([st]) == [];
  }

  // ---------------------------------------------------------------------------
  // enableMipmap

  /** The texture description after `enableMipmap`: trilinear minification,
      every other field as before. */
  function MipmapEnabled(tex: TexData): (t: TexData)
    ensures t.minFilter == LinearMipmapLinear
    ensures t.(minFilter := tex.minFilter) == tex
  {
    tex.(minFilter := LinearMipmapLinear)
  }

  /** Enabling mipmapping a second time changes nothing. */
  lemma EnableMipmapIdempotent(tex: TexData)
    ensures MipmapEnabled(MipmapEnabled(tex)) == MipmapEnabled(tex)
  {
  }

  // ---------------------------------------------------------------------------
  // loadData

  /** Where and in what format the uploads of one `loadData` call go. */
  datatype Placement = Placement(target: int, xOffset: int, yOffset: int, layerOffset: int,
                                 depth: int, format: int, pixelType: int)

  /** The two guards of `loadData`, in the order the source runs them: the
      data's format must be the texture's, and the data must fit the
      texture's size. The offsets are not checked. */
  predicate FormatMatches(tex: TexData, glFormat: int) {
    glFormat == tex.glType
  }

  predicate FitsSize(tex: TexData, w: int, h: int, d: int) {
    w <= tex.texW && h <= tex.texH && d <= tex.texD
  }

  /** What `loadData` needs of its caller when it gets past both guards with
      mipmapping on: a base level of at least 1 x 1 whose first layer is in
      `data`, since the mip chain reads it as a `w` x `h` RGBA image. */
  predicate CanLoad(tex: TexData, mipmap: bool, data: seq<Rgba>, w: int, h: int, d: int, glFormat: int) {
    FormatMatches(tex, glFormat) && FitsSize(tex, w, h, d) && mipmap ==> 1 <= w && 1 <= h && w * h <= |data|
  }

  /** Layer 0 of the data, read as a `w` x `h` image. */
  function BaseImage(data: seq<Rgba>, w: int, h: int): (img: Image)
    requires 1 <= w && 1 <= h && w * h <= |data|
    ensures Samplable(img) && img.cols == w && img.rows == h
  {
    Image(w, h, data[..w * h])
  }

  /** Level `n` of the chain built from `base`: each level is the previous one
      resized to `max(1, side / 2)` on each side. */
  function MipImage(base: Image, n: nat): (img: Image)
    requires Samplable(base)
    ensures Samplable(img)
    ensures img.cols == HalveN(base.cols, n) && img.rows == HalveN(base.rows, n)
  {
    if n == 0 then base
    else
      var prev := MipImage(base, n - 1);
      ResizeImage(prev, Halve(prev.cols), Halve(prev.rows))
  }

  /** The upload of level `level` of the chain. */
  function LevelUpload(base: Image, level: nat, at: Placement): GlCall
    requires Samplable(base)
  {
    var img := MipImage(base, level);
    SubImage3D(at.target, level, at.xOffset, at.yOffset, at.layerOffset,
               img.cols, img.rows, at.depth, at.format, at.pixelType, img.px)
  }

  /** The uploads of levels 1 through `count` of the chain, in order. */
  function MipUploads(base: Image, count: nat, at: Placement): (u: seq<GlCall>)
    requires Samplable(base)
    ensures |u| == count
  {
    seq(count, j requires 0 <= j < count => LevelUpload(base, j + 1, at))
  }

  lemma MipUploadsStep(base: Image, i: nat, at: Placement)
    requires Samplable(base) && i >= 1
    ensures MipUploads(base, i, at) == MipUploads(base, i - 1, at) + [LevelUpload(base, i, at)]
  {
    assert forall j :: 0 <= j < i - 1 ==> MipUploads(base, i, at)[j] == MipUploads(base, i - 1, at)[j];
  }

  /** The calls `loadData(data, w, h, d, xOffset, yOffset, layerOffset, glFormat)`
      issues: nothing when a guard fails; otherwise the unpack alignment, a
      bind, the upload of level 0, the mip chain when mipmapping is on, and an
      unbind. */
  function LoadCalls(tex: TexData, mipmap: bool, data: seq<Rgba>, w: int, h: int, d: int,
                     xOffset: int, yOffset: int, layerOffset: int, glFormat: int): (calls: seq<GlCall>)
    requires CanLoad(tex, mipmap, data, w, h, d, glFormat)
    ensures calls != [] ==> |calls| >= 4 && calls[1] == Bind && calls[|calls| - 1] == Unbind
    ensures calls == [] <==> !FormatMatches(tex, glFormat) || !FitsSize(tex, w, h, d)
  {
    if !FormatMatches(tex, glFormat) then []
    else if !FitsSize(tex, w, h, d) then []
    else
      var at := Placement(tex.textureTarget, xOffset, yOffset, layerOffset, d, tex.glType, tex.pixelType);
      [UnpackAlignment(w, glFormat), Bind,
       SubImage3D(tex.textureTarget, 0, xOffset, yOffset, layerOffset, w, h, d, tex.glType, tex.pixelType, data)]
      + (if mipmap then MipUploads(BaseImage(data, w, h), LevelCount(w, h) - 1, at) else [])
      + [Unbind]
  }

  /** The uploads of a call that gets past both guards: level 0 first, then
      the mip chain. */
  lemma LoadUploads(tex: TexData, mipmap: bool, data: seq<Rgba>, w: int, h: int, d: int,
                    xOffset: int, yOffset: int, layerOffset: int, glFormat: int)
    requires CanLoad(tex, mipmap, data, w, h, d, glFormat)
    requires FormatMatches(tex, glFormat) && FitsSize(tex, w, h, d)
    ensures var at := Placement(tex.textureTarget, xOffset, yOffset, layerOffset, d, tex.glType, tex.pixelType);
            Uploads(LoadCalls(tex, mipmap, data, w, h, d, xOffset, yOffset, layerOffset, glFormat)) ==
              [SubImage3D(tex.textureTarget, 0, xOffset, yOffset, layerOffset, w, h, d, tex.glType, tex.pixelType, data)]
              + (if mipmap then MipUploads(BaseImage(data, w, h), LevelCount(w, h) - 1, at) else [])
  {
    var at := Placement(tex.textureTarget, xOffset, yOffset, layerOffset, d, tex.glType, tex.pixelType);
    var base0 := SubImage3D(tex.textureTarget, 0, xOffset, yOffset, layerOffset, w, h, d, tex.glType, tex.pixelType, data);
    var chain := if mipmap then MipUploads(BaseImage(data, w, h), LevelCount(w, h) - 1, at) else [];
    assert LoadCalls(tex, mipmap, data, w, h, d, xOffset, yOffset, layerOffset, glFormat) ==
           [UnpackAlignment(w, glFormat), Bind] + ([base0] + chain) + [Unbind];
    assert forall k :: 0 <= k < |chain| ==> chain[k].SubImage3D?;
    UploadsOfExchange([UnpackAlignment(w, glFormat), Bind], [base0] + chain, [Unbind]);
  }

  /** Either guard failing means no call at all: no bind, no upload. Getting
      past both means an upload of level 0. The format guard runs first, so a
      format mismatch needs no size check. */
  lemma LoadGuards(tex: TexData, mipmap: bool, data: seq<Rgba>, w: int, h: int, d: int,
                   xOffset: int, yOffset: int, layerOffset: int, glFormat: int)
    requires CanLoad(tex, mipmap, data, w, h, d, glFormat)
    ensures !FormatMatches(tex, glFormat) ==> LoadCalls(tex, mipmap, data, w, h, d, xOffset, yOffset, layerOffset, glFormat) == []
    ensures (w > tex.texW || h > tex.texH || d > tex.texD) ==>
              LoadCalls(tex, mipmap, data, w, h, d, xOffset, yOffset, layerOffset, glFormat) == []
    ensures LoadCalls(tex, mipmap, data, w, h, d, xOffset, yOffset, layerOffset, glFormat) == [] <==>
              !(FormatMatches(tex, glFormat) && FitsSize(tex, w, h, d))
    ensures Uploads(LoadCalls(tex, mipmap, data, w, h, d, xOffset, yOffset, layerOffset, glFormat)) == [] <==>
              !(FormatMatches(tex, glFormat) && FitsSize(tex, w, h, d))
  {
    if FormatMatches(tex, glFormat) && FitsSize(tex, w, h, d) {
      LoadUploads(tex, mipmap, data, w, h, d, xOffset, yOffset, layerOffset, glFormat);
    }
  }

  /** Level 0 is uploaded exactly once, at the given offsets with the full
      `w` x `h` x `d` size; without mipmapping that is the only upload and the
      whole exchange is alignment, bind, upload, unbind. */
  lemma LoadBaseLevelOnce(tex: TexData, mipmap: bool, data: seq<Rgba>, w: int, h: int, d: int,
                          xOffset: int, yOffset: int, layerOffset: int, glFormat: int)
    requires CanLoad(tex, mipmap, data, w, h, d, glFormat)
    requires FormatMatches(tex, glFormat) && FitsSize(tex, w, h, d)
    ensures var u := Uploads(LoadCalls(tex, mipmap, data, w, h, d, xOffset, yOffset, layerOffset, glFormat));
            |u| >= 1 &&
            u[0] == SubImage3D(tex.textureTarget, 0, xOffset, yOffset, layerOffset, w, h, d, tex.glType, tex.pixelType, data) &&
            forall k :: 1 <= k < |u| ==> u[k].level != 0
    ensures !mipmap ==>
              LoadCalls(tex, mipmap, data, w, h, d, xOffset, yOffset, layerOffset, glFormat) ==
              [UnpackAlignment(w, glFormat), Bind,
               SubImage3D(tex.textureTarget, 0, xOffset, yOffset, layerOffset, w, h, d, tex.glType, tex.pixelType, data),
               Unbind]
  {
    LoadUploads(tex, mipmap, data, w, h, d, xOffset, yOffset, layerOffset, glFormat);
  }

  /** With mipmapping on, upload l of a load that fits is level l of the
      chain built from layer 0 of the data, for every l from 1 up to the
      level count. */
  lemma LoadChainAt(tex: TexData, data: seq<Rgba>, w: int, h: int, d: int,
                    xOffset: int, yOffset: int, layerOffset: int, glFormat: int, l: nat)
    requires CanLoad(tex, true, data, w, h, d, glFormat)
    requires FormatMatches(tex, glFormat) && FitsSize(tex, w, h, d)
    ensures var u := Uploads(LoadCalls(tex, true, data, w, h, d, xOffset, yOffset, layerOffset, glFormat));
            |u| == LevelCount(w, h) &&
            (1 <= l < |u| ==>
               u[l] == LevelUpload(BaseImage(data, w, h), l,
                                   Placement(tex.textureTarget, xOffset, yOffset, layerOffset, d, tex.glType, tex.pixelType)))
  {
    LoadUploads(tex, true, data, w, h, d, xOffset, yOffset, layerOffset, glFormat);
  }

  /** With mipmapping on, after level 0 come levels 1 to `LevelCount(w, h) - 1`
      in increasing order, all at the offsets and depth of level 0 and in its
      format and pixel type. */
  lemma LoadMipChain(tex: TexData, data: seq<Rgba>, w: int, h: int, d: int,
                     xOffset: int, yOffset: int, layerOffset: int, glFormat: int)
    requires CanLoad(tex, true, data, w, h, d, glFormat)
    requires FormatMatches(tex, glFormat) && FitsSize(tex, w, h, d)
    ensures var u := Uploads(LoadCalls(tex, true, data, w, h, d, xOffset, yOffset, layerOffset, glFormat));
            |u| == LevelCount(w, h) &&
            forall l :: 1 <= l < |u| ==>
              u[l].SubImage3D? && u[l].level == l && u[l].target == tex.textureTarget &&
              u[l].xOffset == xOffset && u[l].yOffset == yOffset && u[l].layerOffset == layerOffset &&
              u[l].depth == d && u[l].format == tex.glType && u[l].pixelType == tex.pixelType
  {
    LoadChainAt(tex, data, w, h, d, xOffset, yOffset, layerOffset, glFormat, 0);
    var u := Uploads(LoadCalls(tex, true, data, w, h, d, xOffset, yOffset, layerOffset, glFormat));
    forall l | 1 <= l < |u|
      ensures u[l].SubImage3D? && u[l].level == l && u[l].target == tex.textureTarget
      ensures u[l].xOffset == xOffset && u[l].yOffset == yOffset && u[l].layerOffset == layerOffset
      ensures u[l].depth == d && u[l].format == tex.glType && u[l].pixelType == tex.pixelType
    {
      LoadChainAt(tex, data, w, h, d, xOffset, yOffset, layerOffset, glFormat, l);
    }
  }

  /** Level l of the chain has the OpenGL size `max(1, side / 2^l)` of the
      base, its pixels a `width` x `height` image, and sides at least 1 and
      never above those of the level before. */
  lemma LoadMipSizes(tex: TexData, data: seq<Rgba>, w: int, h: int, d: int,
                     xOffset: int, yOffset: int, layerOffset: int, glFormat: int)
    requires CanLoad(tex, true, data, w, h, d, glFormat)
    requires FormatMatches(tex, glFormat) && FitsSize(tex, w, h, d)
    ensures var u := Uploads(LoadCalls(tex, true, data, w, h, d, xOffset, yOffset, layerOffset, glFormat));
            forall l :: 1 <= l < |u| ==>
              u[l].SubImage3D? && u[l].width == MipSide(w, l) && u[l].height == MipSide(h, l) &&
              |u[l].pixels| == u[l].width * u[l].height &&
              1 <= u[l].width <= u[l - 1].width && 1 <= u[l].height <= u[l - 1].height
  {
    LoadBaseLevelOnce(tex, true, data, w, h, d, xOffset, yOffset, layerOffset, glFormat);
    var u := Uploads(LoadCalls(tex, true, data, w, h, d, xOffset, yOffset, layerOffset, glFormat));
    var base := BaseImage(data, w, h);
    var at := Placement(tex.textureTarget, xOffset, yOffset, layerOffset, d, tex.glType, tex.pixelType);
    forall l | 1 <= l < |u|
      ensures u[l].SubImage3D? && u[l].width == MipSide(w, l) && u[l].height == MipSide(h, l)
      ensures |u[l].pixels| == u[l].width * u[l].height
      ensures 1 <= u[l].width <= u[l - 1].width && 1 <= u[l].height <= u[l - 1].height
    {
      LoadChainAt(tex, data, w, h, d, xOffset, yOffset, layerOffset, glFormat, l);
      LoadChainAt(tex, data, w, h, d, xOffset, yOffset, layerOffset, glFormat, l - 1);
      LevelUploadShape(base, l, at);
    }
  }

  /** Level `l` of the chain is uploaded at level l with the OpenGL level
      size, sides at least 1 and no larger than those of level `l - 1`. */
  lemma LevelUploadShape(base: Image, l: nat, at: Placement)
    requires Samplable(base) && l >= 1
    ensures var c := LevelUpload(base, l, at);
            c.width == MipSide(base.cols, l) && c.height == MipSide(base.rows, l) &&
            1 <= c.width <= MipImage(base, l - 1).cols && 1 <= c.height <= MipImage(base, l - 1).rows
  {
    HalveNIsMipSide(base.cols, l);
    HalveNIsMipSide(base.rows, l);
  }

  /** The chain never reaches past the storage `allocate` reserved with
      mipmapping on for a `texW` x `texH` texture: every upload of a load that
      fits goes to a reserved level, inside that level's size. */
  lemma LoadFitsStorage(tex: TexData, data: seq<Rgba>, w: int, h: int, d: int,
                        xOffset: int, yOffset: int, layerOffset: int, glFormat: int)
    requires CanLoad(tex, true, data, w, h, d, glFormat)
    requires FormatMatches(tex, glFormat) && FitsSize(tex, w, h, d)
    ensures var u := Uploads(LoadCalls(tex, true, data, w, h, d, xOffset, yOffset, layerOffset, glFormat));
            |u| <= StorageLevels(true, tex.texW, tex.texH) &&
            forall l :: 0 <= l < |u| ==>
              u[l].level == l && u[l].width <= MipSide(tex.texW, l) && u[l].height <= MipSide(tex.texH, l)
  {
    LoadMipChain(tex, data, w, h, d, xOffset, yOffset, layerOffset, glFormat);
    LoadMipSizes(tex, data, w, h, d, xOffset, yOffset, layerOffset, glFormat);
    LoadBaseLevelOnce(tex, true, data, w, h, d, xOffset, yOffset, layerOffset, glFormat);
    LevelCountMonotone(w, h, tex.texW, tex.texH);
    var u := Uploads(LoadCalls(tex, true, data, w, h, d, xOffset, yOffset, layerOffset, glFormat));
    MipSideZero(w);
    MipSideZero(h);
    assert forall l :: 0 <= l < |u| ==> u[l].SubImage3D? && u[l].level == l &&
                                        u[l].width == MipSide(w, l) && u[l].height == MipSide(h, l);
    ChainWithinLevels(u, w, h, tex.texW, tex.texH);
  }

  /** Uploads of the level sizes of a `w` x `h` base fit the level sizes of a
      `texW` x `texH` texture. */
  lemma ChainWithinLevels(u: seq<GlCall>, w: int, h: int, texW: int, texH: int)
    requires 1 <= w <= texW && 1 <= h <= texH
    requires forall l :: 0 <= l < |u| ==> u[l].SubImage3D? && u[l].level == l &&
                                          u[l].width == MipSide(w, l) && u[l].height == MipSide(h, l)
    ensures forall l :: 0 <= l < |u| ==> u[l].width <= MipSide(texW, l) && u[l].height <= MipSide(texH, l)
  {
    forall l | 0 <= l < |u|
      ensures u[l].width <= MipSide(texW, l) && u[l].height <= MipSide(texH, l)
    {
      MipSideMonotone(w, texW, l);
      MipSideMonotone(h, texH, l);
    }
  }

  /** Every level of the chain built from an image of one opaque colour has
      that colour everywhere. */
  lemma {:induction false} MipChainOfOpaqueUniform(base: Image, n: nat, c: Rgba)
    requires Samplable(base) && Uniform(base, c) && c.a != 0.0
    ensures Uniform(MipImage(base, n), c)
  {
    if n > 0 {
      MipChainOfOpaqueUniform(base, n - 1, c);
      var prev := MipImage(base, n - 1);
      ResizeOfOpaqueUniform(prev, Halve(prev.cols), Halve(prev.rows), c);
    }
  }

  /** Transparent texels of the base have no influence on any level of the chain. */
  lemma {:induction false} MipChainIgnoresTransparentTexels(base: Image, base2: Image, n: nat)
    requires Samplable(base) && AgreeUpToTransparent(base, base2)
    ensures Samplable(base2)
    ensures n >= 1 ==> MipImage(base, n) == MipImage(base2, n)
  {
    if n > 1 {
      MipChainIgnoresTransparentTexels(base, base2, n - 1);
    } else if n == 1 {
      ResizeIgnoresTransparentTexels(base, base2, Halve(base.cols), Halve(base.rows));
    }
  }

  /** Every level of the chain stays within any box that holds the texels of
      the base that are not transparent: texels of later levels are
      transparent black or inside the box. */
  lemma {:induction false} MipChainWithinBox(base: Image, n: nat, lo: Rgba, hi: Rgba)
    requires Samplable(base) && OpaqueWithinBox(base, lo, hi)
    ensures OpaqueWithinBox(MipImage(base, n), lo, hi)
  {
    if n > 0 {
      MipChainWithinBox(base, n - 1, lo, hi);
      var prev := MipImage(base, n - 1);
      ResizeWithinBox(prev, Halve(prev.cols), Halve(prev.rows), lo, hi);
    }
  }

  /** A square base gives square levels only, and on a square level the
      swapped loop bounds of `my_resize` write exactly what the corrected
      loops write. */
  lemma MipChainOfSquare(base: Image, n: nat)
    requires Samplable(base) && base.cols == base.rows
    ensures MipImage(base, n).cols == MipImage(base, n).rows
    ensures AsWrittenAddresses(MipImage(base, n).cols, MipImage(base, n).rows) ==
            CorrectedAddresses(MipImage(base, n).cols, MipImage(base, n).rows)
  {
    AsWrittenAgreesOnSquare(MipImage(base, n).cols);
  }

  /** Once some level of the chain is square, every later level is square
      too, and from there on the swapped loop bounds of `my_resize` write
      exactly what the corrected loops write. */
  lemma {:induction false} SquareFromLevel(base: Image, k: nat, n: nat)
    requires Samplable(base) && k <= n && MipImage(base, k).cols == MipImage(base, k).rows
    ensures MipImage(base, n).cols == MipImage(base, n).rows
    ensures AsWrittenAddresses(MipImage(base, n).cols, MipImage(base, n).rows) ==
            CorrectedAddresses(MipImage(base, n).cols, MipImage(base, n).rows)
  {
    if n > k {
      SquareFromLevel(base, k, n - 1);
    }
    AsWrittenAgreesOnSquare(MipImage(base, n).cols);
  }

  /** Bases that are not square can still have square levels from level 1 on:
      5 x 4 and 9 x 8 both halve to a square level 1. */
  lemma SquareLevelOneExamples()
    ensures HalveN(5, 1) == HalveN(4, 1) == 2
    ensures HalveN(9, 1) == HalveN(8, 1) == 4
  {
  }

  // ---------------------------------------------------------------------------
  // The object

  /** The texture array: the base class's texture description, the mipmap
      switch, the never-read `ignored_alpha`, and the log of calls issued. */
  class TextureArray {
    var texData: TexData
    var hasMipmap: bool
    var ignoredAlpha: real
    ghost var gl: seq<GlCall>

    /** `base` is the texture description the base-class constructor leaves. */
    constructor(base: TexData)
      ensures texData == base.(textureTarget := Texture2DArray)
      ensures !hasMipmap && ignoredAlpha == 0.5 && gl == []
    {
      texData := base.(textureTarget := Texture2DArray);
      hasMipmap := false;
      ignoredAlpha := 0.5;
      gl := [];
    }

    /** `formatOf` and `typeOf` stand for the format lookups
        `ofGetGLFormatFromInternal` and `ofGetGlTypeFromInternal`. */
    method Allocate(w: int, h: int, d: int, internalFormat: int, formatOf: int -> int, typeOf: int -> int)
      requires hasMipmap ==> w >= 1 && h >= 1
      modifies this`texData, this`gl
      ensures texData == Allocated(old(texData), w, h, d, internalFormat, formatOf(internalFormat), typeOf(internalFormat))
      ensures gl == old(gl) + AllocateCalls(hasMipmap, internalFormat, w, h, d)
    {
      texData := texData.(texW := w, texH := h, texD := d, texT := w, texU := h, texV := d,
                          textureTarget := Texture2DArray);
      texData := texData.(glInternalFormat := internalFormat);
      texData := texData.(glType := formatOf(texData.glInternalFormat),
                          pixelType := typeOf(texData.glInternalFormat));
      gl := gl + [Clear, GenTexture, Retain, Bind];
      if hasMipmap {
        var level := Max(1, FloorLog2(Min(w, h)));
        gl := gl + [Storage3D(texData.textureTarget, level, texData.glInternalFormat, texData.texW, texData.texH, texData.texD),
                    Parameter(TextureMinFilter, LinearMipmapLinear)];
      } else {
        gl := gl + [Storage3D(texData.textureTarget, 1, texData.glInternalFormat, texData.texW, texData.texH, texData.texD),
                    Parameter(TextureMinFilter, Linear)];
      }
      gl := gl + [Parameter(TextureMagFilter, Linear), Parameter(TextureWrapS, Repeat),
                  Parameter(TextureWrapT, Repeat), Parameter(TextureWrapR, Repeat)];
      gl := gl + [Unbind];
      texData := texData.(width := w, height := h, depth := d, flipTexture := false, isAllocated := true);
    }

    method EnableMipmap()
      modifies this`hasMipmap, this`texData
      ensures hasMipmap && texData == MipmapEnabled(old(texData))
    {
      hasMipmap := true;
      texData := texData.(minFilter := LinearMipmapLinear);
    }

    method LoadData(data: seq<Rgba>, w: int, h: int, d: int, xOffset: int, yOffset: int, layerOffset: int, glFormat: int)
      requires CanLoad(texData, hasMipmap, data, w, h, d, glFormat)
      modifies this`gl
      ensures texData == old(texData) && hasMipmap == old(hasMipmap) && ignoredAlpha == old(ignoredAlpha)
      ensures gl == old(gl) + LoadCalls(texData, hasMipmap, data, w, h, d, xOffset, yOffset, layerOffset, glFormat)
    {
      if glFormat != texData.glType {
        return;
      }
      if w > texData.texW || h > texData.texH || d > texData.texD {
        return;
      }
      gl := gl + [UnpackAlignment(w, glFormat), Bind];
      gl := gl + [SubImage3D(texData.textureTarget, 0, xOffset, yOffset, layerOffset, w, h, d,
                             texData.glType, texData.pixelType, data)];
      if hasMipmap {
        ghost var at := Placement(texData.textureTarget, xOffset, yOffset, layerOffset, d, texData.glType, texData.pixelType);
        var level := Max(1, FloorLog2(Min(w, h)));
        UploadMipChain(Image(w, h, data[..w * h]), level, xOffset, yOffset, layerOffset, d);
        assert gl == old(gl) + [UnpackAlignment(w, glFormat), Bind,
                                SubImage3D(texData.textureTarget, 0, xOffset, yOffset, layerOffset, w, h, d,
                                           texData.glType, texData.pixelType, data)]
                             + MipUploads(BaseImage(data, w, h), LevelCount(w, h) - 1, at);
      }
      gl := gl + [Unbind];
    }

    /** The mip loop of `loadData`: levels 1 to `level - 1`, each the resize
        of the one before to `max(1, side / 2)`, uploaded at the offsets of
        level 0. */
    method UploadMipChain(base: Image, level: int, xOffset: int, yOffset: int, layerOffset: int, d: int)
      requires Samplable(base) && level >= 1
      modifies this`gl
      ensures gl == old(gl) + MipUploads(base, level - 1,
                                         Placement(texData.textureTarget, xOffset, yOffset, layerOffset, d,
                                                   texData.glType, texData.pixelType))
    {
      ghost var at := Placement(texData.textureTarget, xOffset, yOffset, layerOffset, d, texData.glType, texData.pixelType);
      var width := base.cols;
      var height := base.rows;
      var tmp := base;
      var i := 1;
      while i < level
        invariant 1 <= i <= level
        invariant tmp == MipImage(base, i - 1) && width == tmp.cols && height == tmp.rows
        invariant gl == old(gl) + MipUploads(base, i - 1, at)
      {
        width := Max(1, width / 2);
        height := Max(1, height / 2);
        var nxt := Resize.Resize(tmp, width, height);
        tmp := Image(width, height, nxt[..]);
        gl := gl + [SubImage3D(texData.textureTarget, i, xOffset, yOffset, layerOffset, width, height, d,
                               texData.glType, texData.pixelType, tmp.px)];
        MipUploadsStep(base, i, at);
        i := i + 1;
      }
    }
  }
}
