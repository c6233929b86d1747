# ofxTextureArray in Dafny

This project models the texture-array add-on for openFrameworks.
`ofxTextureArray` is an OpenGL `GL_TEXTURE_2D_ARRAY` texture. A layer of it is
uploaded with `loadData`. When mipmapping is enabled, the same call builds the
lower mip levels on the CPU: it repeatedly halves the image with an
alpha-gated bilinear downsampler (`my_resize`) and uploads each result.

The project has six modules:

- `Pixels`: RGBA texels with exact real channels, and row-major images
  (texel (x, y) is at index `y * cols + x`).
- `Sampler`: one destination pixel of `my_resize`. It covers where the
  destination pixel's centre maps in the source, the four clamped neighbours,
  the bilinear fractions and weights, the gate that zeroes the weight of a
  neighbour whose alpha is 0, and the weight-normalised average. The average
  is `None` when the division would be 0 / 0.
- `Resize`: the whole downsampler.
  - `ResizeImage` is the image it computes.
  - `Resize` fills a fresh array in nested `dy`/`dx` loops like the source's,
    but with the corrected bounds (`dy` below the height outside, `dx` below
    the width inside), not the swapped bounds the source writes.
  - A group of address functions models the loop bounds exactly as the source
    writes them (see Findings).
- `MipLevels`: the integer arithmetic of the chain. It covers the level count
  `max(1, (int)log2(min(w, h)))` as an integer floor-log2, and the halving
  step `max(1, x / 2)`.
- `Gl`: the calls the object makes into the driver and its base class, as a
  datatype. Glossary: the "call log" is the ghost sequence of these calls,
  which the object's methods append to. `Uploads` and `Storages` pick the
  `glTexSubImage3D` and `glTexStorage3D` entries out of the log.
- `TextureArray`: the class. Its fields are the base class's texture
  description (`texData`), `hasMipmap`, `ignoredAlpha` and the ghost call log
  `gl`.
  - Each method is proved against a function of its inputs and old state:
    `Allocated` / `AllocateCalls`, `MipmapEnabled` and `LoadCalls`.
  - Lemmas state what those functions imply: the guards, the uploads, the
    levels of the mip chain, and what the chain does to pixels.

Points where the code does something other than one might expect, and
which the model follows:

- The gate zeroes the weight for the alpha channel too, not only for colour.
- The chain stops after `max(1, floor(log2(min(w, h))))` levels, not at 1x1.
  For example, 256 x 256 gets 8 levels, so the smallest is 2 x 2.
- `loadData` does not check that the texture has been allocated.
- The `enableMipmap` definition takes no parameters, although its declaration
  lists `(bool, float)` defaults.

One point the model does not follow: the swapped loop bounds of `my_resize`
(see Findings). `ResizeImage`, and every level of the mip chain built from
it, are the images the corrected loops compute. For a square destination they
are the same as what the source computes; for any other destination they are
not. So the modelled chain is the source's exactly when every level from
level 1 on is square. A square level 1 is enough for that. The base may be
non-square: 5 x 4 and 9 x 8 both qualify.

## Model

| member | source | states |
|---|---|---|
| Pixels.Image.At | src/ofxTextureArray.cpp:107-110 | texel (x, y) of a continuous matrix, the one `at(y, x)` reads, is at row-major index `y * cols + x`, which is inside the buffer |
| Sampler.Clamp | src/ofxTextureArray.cpp:97-100 | the clamped neighbour index lies in `[0, n - 1]`, and an index already in range is kept |
| Sampler.Locate | src/ofxTextureArray.cpp:94-102 | all four neighbour indices `sx0, sx1, sy0, sy1` are inside the source, and each upper neighbour is the lower one or the next |
| Sampler.SourceCoord | src/ofxTextureArray.cpp:94-95 | the centre of destination pixel d mapped into the source, `n * ((0.5 + d) / m) - 0.5`. Its range is stated by CoordInRange |
| Sampler.Bilinear | src/ofxTextureArray.cpp:112-115 | the four ungated weights sum to 1, and are non-negative when both fractions lie in [0, 1] |
| Sampler.CoordInRange | src/ofxTextureArray.cpp:94-95 | when the destination is no larger than the source, the mapped centre of an in-range pixel lies in `[0, n)` |
| Sampler.FractionsInUnitInterval | src/ofxTextureArray.cpp:94-102 | no larger destination and in-range pixel: `alpha` and `beta` lie in [0, 1) |
| Sampler.BilinearWeightsConvex | src/ofxTextureArray.cpp:94-115 | under the same conditions the ungated weights are non-negative and sum to 1 |
| Sampler.CornersOf | src/ofxTextureArray.cpp:107-110 | the four neighbours a, b, c, d read at (sy0, sx0), (sy0, sx1), (sy1, sx0) and (sy1, sx1). CornersOfIndices states their buffer indices |
| Sampler.Blend | src/ofxTextureArray.cpp:117 | the numerator `a*wa + b*wb + c*wc + d*wd` for all four channels. Its bounds are stated by BlendWithinBox and DotBetween |
| Sampler.CornersOfIndices | src/ofxTextureArray.cpp:107-110 | corners a, b, c, d are the texels at rows `sy0`/`sy1` and columns `sx0`/`sx1`, and every index is inside the buffer |
| Sampler.Gate | src/ofxTextureArray.cpp:112-115 | a neighbour whose alpha is 0 gets weight 0, and every other neighbour keeps its bilinear weight. What this implies is stated by AverageIgnoresTransparent, AverageUndefinedIff and AverageWithinBox |
| Sampler.GatedAverage | src/ofxTextureArray.cpp:112-117 | the gated weighted sum of the four neighbours, all four channels, divided by the gated total. It is undefined where that total is 0. Its properties are stated by the Average lemmas |
| Sampler.Sample | src/ofxTextureArray.cpp:94-117 | destination pixel (dx, dy) is the gated average of the four neighbours `Locate` picks, under the `Bilinear` weights of its fractions. Its properties are stated by the Sample lemmas |
| Sampler.Texel | src/ofxTextureArray.cpp:117 | the texel stored for pixel (dx, dy): the sample, or transparent black where the sample is undefined |
| Sampler.AverageOfOneColour | src/ofxTextureArray.cpp:112-117 | if every corner that is not transparent has colour C, a defined average is C |
| Sampler.AverageOfOpaqueColour | src/ofxTextureArray.cpp:112-117 | four corners of one opaque colour, with weights summing to 1, average to that colour |
| Sampler.AverageIgnoresTransparent | src/ofxTextureArray.cpp:112-117 | swapping a transparent corner for another transparent texel never changes the average |
| Sampler.AverageWithoutTransparency | src/ofxTextureArray.cpp:112-117 | with no transparent corner and weights summing to 1, the average is the plain weighted sum |
| Sampler.AverageUndefinedIff | src/ofxTextureArray.cpp:112-117 | with non-negative weights, the average is undefined (0 / 0) exactly when every corner is transparent or has weight 0 |
| Sampler.AverageOfTransparent | src/ofxTextureArray.cpp:112-117 | four transparent corners leave the average undefined |
| Sampler.DotBetween | src/ofxTextureArray.cpp:117 | a weighted average with non-negative weights and a positive total lies between the smallest and largest value that carries weight |
| Sampler.AverageWithinBox | src/ofxTextureArray.cpp:112-117 | convexity: a defined average lies, channel by channel, in any box that holds every corner that is not transparent |
| Sampler.SampleOfOneColour | src/ofxTextureArray.cpp:94-117 | a destination pixel of an image whose non-transparent texels all have colour C is undefined or C |
| Sampler.SampleOfOpaqueUniform | src/ofxTextureArray.cpp:94-117 | every destination pixel of a uniform opaque image is defined and has that colour |
| Sampler.SampleIgnoresTransparentTexels | src/ofxTextureArray.cpp:112-117 | changing source texels that stay transparent never changes a destination pixel |
| Sampler.SampleWithoutTransparency | src/ofxTextureArray.cpp:112-117 | with no transparent source texel, each destination pixel is plain bilinear interpolation |
| Sampler.SampleUndefinedIff | src/ofxTextureArray.cpp:94-117 | downsampling: a destination pixel is undefined exactly when each of its four neighbours is transparent or has bilinear weight 0 |
| Sampler.SampleOfTransparentNeighbours | src/ofxTextureArray.cpp:112-117 | four transparent neighbours make the pixel undefined, and the stored texel transparent black |
| Sampler.SampleWithinBox | src/ofxTextureArray.cpp:94-117 | downsampling: a defined destination pixel lies in any box that holds every non-transparent source texel |
| Resize.ResizeImage | src/ofxTextureArray.cpp:84 | the result has the requested width and height and `width * height` texels |
| Resize.Resize | src/ofxTextureArray.cpp:82-121 | the nested loops fill a fresh `width * height` array whose contents are exactly `ResizeImage`, pixel (dx, dy) at `dy * width + dx` |
| Resize.ResizeImageAt | src/ofxTextureArray.cpp:117 | index `y * width + x` of the result is inside the buffer and holds the texel for destination pixel (x, y) |
| Resize.ResizeImageIndex | src/ofxTextureArray.cpp:117 | buffer index k holds destination pixel `(k % width, k / width)`, which is inside the destination |
| Resize.ResizeOfOpaqueUniform | src/ofxTextureArray.cpp:89-117 | resizing a uniform opaque image gives that colour everywhere |
| Resize.ResizeOfOneColour | src/ofxTextureArray.cpp:89-117 | if every non-transparent texel has colour C, every result texel is C or transparent black |
| Resize.ResizeIgnoresTransparentTexels | src/ofxTextureArray.cpp:112-117 | images that differ only in texels transparent in both resize to the same image |
| Resize.ResizeWithoutTransparency | src/ofxTextureArray.cpp:112-117 | without transparent texels, every result texel is the plain bilinear interpolation |
| Resize.ResizeWithinBox | src/ofxTextureArray.cpp:89-117 | downsampling: every result texel is transparent black or lies in any box holding the non-transparent source texels |
| Resize.LoopVisits | src/ofxTextureArray.cpp:89-91 | a nest of two counting loops makes `outer * inner` visits. Their order is stated by VisitInRange |
| Resize.VisitInRange | src/ofxTextureArray.cpp:89-91 | visit k of the nest is `(k / inner, k % inner)`, so both indices lie inside their loops' ranges |
| Resize.Addresses | src/ofxTextureArray.cpp:117 | one buffer address per visit. The address formula is stated by AsWrittenAddressAt and CorrectedAddressesInOrder |
| Resize.CorrectedAddresses | src/ofxTextureArray.cpp:89-91 | the writes of the loop nest `Resize.Resize` runs: `dy` below the height outside, `dx` below the width inside. CorrectedAddressesInOrder states that visit k writes address k |
| Resize.CorrectedAddressesInOrder | src/ofxTextureArray.cpp:89-91 | with the bounds ordered rows-then-columns, visit k writes address k, so every pixel is written once, in buffer order |
| Resize.AsWrittenAgreesOnSquare | src/ofxTextureArray.cpp:89-91 | for a square destination, the loops as written visit exactly what the corrected loops visit |
| Resize.AsWrittenAddresses | src/ofxTextureArray.cpp:89-91 | the writes of the loops as written: `dy` below the width outside, `dx` below the height inside, each at `dy * width + dx`. Its shape is stated by AsWrittenAddressAt, AsWrittenMissesLastPixel, AsWrittenOverrunsBuffer and AsWrittenTallExample |
| Resize.AsWrittenAddressAt | src/ofxTextureArray.cpp:89-91 | visit k of the loops as written is `(k / height, k % height)` and writes `(k / height) * width + k % height` |
| Resize.AsWrittenMissesLastPixel | src/ofxTextureArray.cpp:89-91 | when `1 < width < height`, every write lands below `(width - 1) * width + height`, so the last pixel of the buffer is never written |
| Resize.AsWrittenOverrunsBuffer | src/ofxTextureArray.cpp:89-91 | when `height < width`, the last write lands at `(width - 1) * width + height - 1`, past the end of the buffer |
| Resize.AsWrittenTallExample | src/ofxTextureArray.cpp:89-91 | for a 2 x 4 destination the writes are [0, 1, 2, 3, 2, 3, 4, 5], so indices 6 and 7 are never written |
| MipLevels.FloorLog2 | src/ofxTextureArray.cpp:45 | `(int)log2(n)` is the exponent r with `2^r <= n < 2^(r+1)` |
| MipLevels.FloorLog2Unique | src/ofxTextureArray.cpp:45 | only one exponent brackets n |
| MipLevels.LevelCount | src/ofxTextureArray.cpp:45 | the level count is at least 1 |
| MipLevels.LevelCountBrackets | src/ofxTextureArray.cpp:45 | the count is 1 exactly when the smaller side is below 4; otherwise `2^count <= min(w, h) < 2^(count+1)` |
| MipLevels.LevelCountExamples | src/ofxTextureArray.cpp:45 | 1 x 1 gives 1 level, 256 x 256 gives 8 levels and 256 x 64 gives 6 levels |
| MipLevels.LevelCountMonotone | src/ofxTextureArray.cpp:145 | a base no larger in either side never gets more levels |
| MipLevels.LevelCountWithinFullChain | src/ofxTextureArray.cpp:45 | the count never exceeds the full OpenGL chain length `floor(log2(max(w, h))) + 1` |
| MipLevels.Halve | src/ofxTextureArray.cpp:153-154 | `max(1, x / 2)` is between 1 and x, and for x >= 2 it is exactly half, rounded down |
| MipLevels.HalveN | src/ofxTextureArray.cpp:150-154 | after any number of halvings the side is between 1 and the original |
| MipLevels.HalveNIsMipSide | src/ofxTextureArray.cpp:150-154 | halving k times gives the OpenGL level size `max(1, floor(x / 2^k))` |
| MipLevels.MipSideZero | src/ofxTextureArray.cpp:146-147 | level 0 has the base size |
| MipLevels.MipSideMonotone | src/ofxTextureArray.cpp:153-154 | a smaller base side never gives a larger level side |
| MipLevels.ChainHalvesExactly | src/ofxTextureArray.cpp:150-154 | below the last level both sides are at least 2, so every step of the chain is an exact halving |
| TextureArray.TextureArray.constructor | src/ofxTextureArray.cpp:4-8 | the constructor sets the target to `GL_TEXTURE_2D_ARRAY` and starts with an empty call log. With the member defaults of `src/ofxTextureArray.h` lines 19-20, a new object also has `hasMipmap == false` and `ignored_alpha == 0.5` |
| TextureArray.TextureArray.Allocate | src/ofxTextureArray.cpp:11-73 | the new texture description is `Allocated(...)`: sizes, target, formats from the lookups, width/height/depth, no flip, allocated. The log grows by exactly `AllocateCalls(hasMipmap, ...)` |
| TextureArray.Allocated | src/ofxTextureArray.cpp:22-72 | the texture description after `allocate`: the sizes, the target, the internal format and its lookups, and width, height and depth. It has no flip and is marked allocated |
| TextureArray.StorageLevels | src/ofxTextureArray.cpp:43-53 | the levels `allocate` reserves: `LevelCount(w, h)` with mipmapping on, and 1 otherwise. AllocateReserves states what that means |
| TextureArray.AllocateCalls | src/ofxTextureArray.cpp:36-66 | the calls of `allocate`, in order: clear, generate, retain, bind, storage, the five parameters, unbind. What they reserve is stated by AllocateReserves |
| TextureArray.AllocateReserves | src/ofxTextureArray.cpp:42-53 | `allocate` reserves storage exactly once, at full size, with at least 1 level. It uses `LevelCount(w, h)` levels with mipmapping on, and exactly 1 otherwise (1 also when the smaller side is below 4). It sets the matching minifying filter and uploads nothing |
| TextureArray.TextureArray.EnableMipmap | src/ofxTextureArray.cpp:75-79 | sets `hasMipmap` and a trilinear minifying filter, and changes nothing else |
| TextureArray.MipmapEnabled | src/ofxTextureArray.cpp:78 | the minifying filter becomes `GL_LINEAR_MIPMAP_LINEAR`, and only that field changes |
| TextureArray.EnableMipmapIdempotent | src/ofxTextureArray.cpp:75-79 | enabling mipmapping twice gives the same state as enabling it once |
| TextureArray.FormatMatches | src/ofxTextureArray.cpp:126 | the first guard of `loadData`: the data's format is the texture's format |
| TextureArray.FitsSize | src/ofxTextureArray.cpp:132 | the second guard of `loadData`: width, height and depth are within the texture's |
| TextureArray.LoadCalls | src/ofxTextureArray.cpp:124-166 | a load issues no call exactly when a guard fails. Otherwise its second call is the bind and its last the unbind. The uploads are stated by LoadGuards, LoadUploads and the LoadMip lemmas |
| TextureArray.LevelUpload | src/ofxTextureArray.cpp:158 | the upload of chain level l: level number l, the given offsets and depth, the texture's format and type, and that level's size and pixels. Its shape is stated by LevelUploadShape |
| TextureArray.TextureArray.LoadData | src/ofxTextureArray.cpp:124-166 | the texture description, `hasMipmap` and `ignored_alpha` are unchanged. The log grows by exactly `LoadCalls(...)` |
| TextureArray.TextureArray.UploadMipChain | src/ofxTextureArray.cpp:145-160 | the loop appends exactly the uploads of levels 1 to `level - 1`. Each is the resize of the level before, halved on each side |
| TextureArray.BaseImage | src/ofxTextureArray.cpp:148 | layer 0 of the data, read as a `w` x `h` image, can be sampled |
| TextureArray.MipImage | src/ofxTextureArray.cpp:150-157 | level n of the chain can be sampled and has sides `HalveN(w, n)` x `HalveN(h, n)` |
| TextureArray.MipUploads | src/ofxTextureArray.cpp:150-160 | the chain has one upload per level |
| TextureArray.LoadUploads | src/ofxTextureArray.cpp:138-165 | past both guards, the uploads of a load are level 0 followed by the mip chain when mipmapping is on |
| TextureArray.LoadGuards | src/ofxTextureArray.cpp:126-136 | a format mismatch, or a width, height or depth above the texture's, means no call at all. A load issues calls, and uploads, exactly when both guards pass |
| TextureArray.LoadBaseLevelOnce | src/ofxTextureArray.cpp:138-142 | level 0 is uploaded exactly once, first, at the given offsets with size `w x h x d`. Without mipmapping the whole exchange is alignment, bind, that upload and unbind |
| TextureArray.LoadChainAt | src/ofxTextureArray.cpp:145-160 | with mipmapping on there are `LevelCount(w, h)` uploads, and upload l is level l of the chain |
| TextureArray.LoadMipChain | src/ofxTextureArray.cpp:150-158 | levels 1 to `LevelCount - 1` follow in increasing order, each at the offsets, depth, format and pixel type of level 0 |
| TextureArray.LoadMipSizes | src/ofxTextureArray.cpp:153-158 | level l's size is `max(1, side / 2^l)` and its pixels form a `width x height` image. Its sides are at least 1 and never above the level before |
| TextureArray.LevelUploadShape | src/ofxTextureArray.cpp:153-158 | an uploaded level has the OpenGL level size, no larger than the level before it |
| TextureArray.LoadFitsStorage | src/ofxTextureArray.cpp:145-158 | with mipmapping on, a load that fits uploads only levels the mipmapped `allocate` reserved, and each upload's width and height are at most that level's. The region written is not bounded, because the offsets are not halved per level |
| TextureArray.MipChainOfOpaqueUniform | src/ofxTextureArray.cpp:150-157 | every level built from a uniform opaque base has that colour everywhere |
| TextureArray.MipChainIgnoresTransparentTexels | src/ofxTextureArray.cpp:150-157 | texels transparent in the base have no influence on any level from 1 on |
| TextureArray.MipChainWithinBox | src/ofxTextureArray.cpp:150-157 | every non-transparent texel of every level lies in any box holding the non-transparent texels of the base |
| TextureArray.MipChainOfSquare | src/ofxTextureArray.cpp:150-157 | a square base gives only square levels, and for each of them the loops of `my_resize` as written write exactly the addresses the corrected loops write |
| TextureArray.SquareFromLevel | src/ofxTextureArray.cpp:150-157 | once some level of the chain is square, every later level is square, and on each the loops as written write exactly the corrected loops' addresses |
| TextureArray.SquareLevelOneExamples | src/ofxTextureArray.cpp:153-154 | the 5 x 4 and 9 x 8 bases halve to the square levels 2 x 2 and 4 x 4 |

## Left out

- OpenGL and openFrameworks calls are not executed. `glGenTextures`,
  `glTexStorage3D`, `glTexParameteri`, `glTexSubImage3D`, `bind`/`unbind`,
  `ofRetain`, `clear` and `ofSetPixelStoreiAlignment` appear only as entries
  in the ghost call log.
- `clear()` may reset fields of the texture description. Its effect on those
  fields is not modelled because `ofxTexture.h` is not part of this model.
- The format lookups `ofGetGLFormatFromInternal` and `ofGetGlTypeFromInternal`
  are the function parameters `formatOf` and `typeOf` of `Allocate`.
  `ofGetNumChannelsFromGLFormat` is dropped: the alignment entry records only
  the width and the format.
- The verbose logging block of `allocate`, the error messages of `loadData`,
  and the local `ofTexture t; t.enableMipmap();` are left out. The last has no
  effect on this object.
- The disabled `glGenerateMipmap` branch and the unused `scale_x`/`scale_y`
  are left out.
- Pixel arithmetic is exact `real` arithmetic. OpenCV's `Vec4b` operators
  round and saturate to 8 bits after every multiply, add and divide, and the
  model does not. Where a lemma states an exact output colour, the source's
  8-bit value can differ from it, as the next two items show.
- The uniform-colour lemmas below state that a uniform opaque image keeps its
  colour exactly. The source does not keep it, even when the weights sum to 1,
  because each `Vec4b * float` product is rounded to a byte before the sum.
  - Example, not executed: an 8 x 8 uniform base of (1, 1, 1, 255) has
    `LevelCount` 3 and a 4 x 4 level 1.
  - There sx = 8 * ((0.5 + dx) / 4) - 0.5 = 0.5, 2.5, ..., so alpha = beta =
    0.5 and every weight is 0.25.
  - The source rounds 1 * 0.25 to 0, and the alpha channel sums to 255, so
    level 1 is (0, 0, 0, 255). A base of (3, 3, 3, 255) gives
    (4, 4, 4, 255).
  - The model gives level 1 = (1, 1, 1, 255) and (3, 3, 3, 255).
- Sampler.AverageOfOpaqueColour: holds of the source only up to the per-product 8-bit rounding above. Four (1, 1, 1, 255) corners at weights 0.25 give (0, 0, 0, 255) in the source.
- Sampler.SampleOfOpaqueUniform: holds of the source only up to the per-product 8-bit rounding above. Every pixel of the 4 x 4 resize of the 8 x 8 base of (1, 1, 1, 255) is (0, 0, 0, 255) in the source.
- The colour lemmas below hold of the source only up to its rounding error,
  and that error is not small. Each product `a*wa` is rounded to 8 bits before
  the division by the gated total. The error is therefore about 0.5 / total
  per channel, and the total can be tiny.
  - Example, not executed: a 21 x 21 base has the 10 x 10 level 1. For its
    pixel (4, 4), `Locate` picks x0 = y0 = 8 with alpha = beta = 0.95, so
    wa = 0.0025.
  - Let texel (8, 8) be (100, 100, 100, 255), and let its three other
    neighbours have alpha 0.
  - The source rounds `a*wa` = (0.25, 0.25, 0.25, 0.64) to (0, 0, 0, 1). Then
    400 times that saturates to (0, 0, 0, 255): opaque black.
  - The model gives (100, 100, 100, 255). The source's pixel is neither that
    colour nor inside the neighbours' box.
- Sampler.AverageOfOneColour: holds of the source only up to the 8-bit rounding error above.
- Sampler.AverageWithinBox: holds of the source only up to the 8-bit rounding error above.
- Sampler.SampleOfOneColour: holds of the source only up to the 8-bit rounding error above.
- Sampler.SampleWithinBox: holds of the source only up to the 8-bit rounding error above.
- Resize.ResizeOfOneColour: holds of the source only up to the 8-bit rounding error above, and only for square destinations.
- Resize.ResizeWithinBox: holds of the source only up to the 8-bit rounding error above, and only for square destinations.
- TextureArray.MipChainWithinBox: holds of the source only up to the 8-bit rounding error above, and only when every level from level 1 on is square.
- Sampler.Texel: a 0 / 0 average is stored as transparent black. The source
  divides by a zero float there, and the 8-bit conversion of the resulting NaN
  is platform-defined.
- Resize.AsWrittenAddresses: models where the source's loops write, not the
  values they write there. The out-of-bounds writes themselves (undefined
  behaviour) are outside the model.
- Sampler.Locate: the centre mapping `src.cols * ((0.5 + dx) / dst.cols) - 0.5` and the fractions use exact reals, not the source's 32-bit floats. Near an integer the two can floor to different neighbours. For example, a 5125-wide level halved to 2562, at dx = 1280, gives sx = 2561 exactly in float32 but about 2560.9998 in exact arithmetic. There the gate can then decide differently.
- Resize.ResizeImage: is the image the corrected loops compute. It is what the source computes only for a square destination, because of the swapped loop bounds (see Findings and Resize.AsWrittenAgreesOnSquare).
- Resize.ResizeOfOpaqueUniform: like the other lemmas about ResizeImage, it holds of the source only for square destinations, and even then only up to the per-product 8-bit rounding above. The square 8 x 8 base of (1, 1, 1, 255) resizes to (0, 0, 0, 255) in the source.
- Resize.ResizeIgnoresTransparentTexels: holds of the source only for square destinations.
- Resize.ResizeWithoutTransparency: holds of the source only for square destinations.
- TextureArray.MipImage: every level is the corrected resize of the one before, so the chain is the source's only when every level from level 1 on is square (TextureArray.MipChainOfSquare, TextureArray.SquareFromLevel). For a taller base the source leaves rows of a level unwritten, and for a wider one it writes past the level's buffer. The model does not say what such levels hold.
- TextureArray.LoadCalls: its mip uploads carry the pixels of MipImage, so they are the source's only when every level from level 1 on is square.
- TextureArray.TextureArray.UploadMipChain: uploads the corrected levels, which are the source's only when every level from level 1 on is square.
- TextureArray.MipChainOfOpaqueUniform: holds of the source only when every level from level 1 on is square, and even then only up to the per-product 8-bit rounding above. The square 8 x 8 base of (1, 1, 1, 255) has level 1 = (0, 0, 0, 255) in the source.
- TextureArray.MipChainIgnoresTransparentTexels: holds of the source only when every level from level 1 on is square.
- TextureArray.TextureArray.LoadData: `data` is a sequence of RGBA texels whatever `glFormat` and the pixel type are. The source wraps the buffer as 8-bit, 4-channel `CV_8UC4` whatever the texture's format. For a texture that is not 8-bit RGBA, it samples bytes misread as RGBA texels, and the model does not capture that.
- Resize.Resize: returns a fresh array, where the source reassigns a
  `cv::Mat` output parameter. Its pixels are the corrected loop nest's.
- TextureArray.TextureArray.UploadMipChain: the mip loop of `loadData` is a
  method of its own. It receives layer 0 of `data` as an image, where the
  source wraps the same buffer in a `cv::Mat` header without copying it.
- TextureArray.TextureArray.LoadData: requires, when mipmapping is on and both
  guards pass, that `w, h >= 1` and `data` holds at least `w * h` texels. The
  chain reads that many from the buffer, and `log2` of 0 is undefined.
- TextureArray.TextureArray.LoadData: the level-0 upload passes the whole
  `data` sequence. The model does not check that it holds `w * h * d` texels.
- TextureArray.LoadMipSizes: each level is uploaded with depth `d`, but its
  pixels are one `width x height` layer. For `d > 1` the driver would read
  past them, and the model does not say what it reads.
- TextureArray.TextureArray.Allocate: requires `w, h >= 1` when mipmapping is
  on, because `log2(min(w, h))` of 0 is undefined in the source.
- TextureArray.LoadFitsStorage: holds only for storage reserved with
  mipmapping on. If `enableMipmap` is called after `allocate`, a later load
  uploads levels the one-level storage does not have. Nothing in the source
  prevents this.
  - It also bounds only each upload's width and height, not the region
    written.
  - Every level is uploaded at level 0's `xOffset`/`yOffset`, not halved
    (TextureArray.LoadMipChain).
  - Example, not executed: a mipmapped 256 x 256 texture gets a 128 x 128 load
    at xOffset 128. Level 0 fits, but level 1 writes x in [128, 192) of a
    128-wide level, which OpenGL rejects.
  - With any non-zero offset, levels from 1 on land at the wrong place.
- Offsets are not checked by `loadData`, so no offset bound is stated.
- `ignored_alpha` is a field that no method reads. The resize takes no such
  parameter, so its output cannot depend on it. `LoadData` leaves it unchanged.
- Integer widths: sizes are unbounded integers. The source's `int` overflow
  for huge sizes is not modelled.

## Findings

| source | as written | input that shows it | evidently intended | confidence | as-written member | corrected member |
|---|---|---|---|---|---|---|
| src/ofxTextureArray.cpp:89-91 | the outer loop runs `dy < size.width` and the inner loop `dx < size.height`, while `dy` is used as the row and `dx` as the column of `dst.at(dy, dx)` | the 2 x 4 level below a 4 x 8 base: writes go to [0, 1, 2, 3, 2, 3, 4, 5], so row 3 is never written. A wide level such as 4 x 2 writes past its buffer | `dy < size.height` outer and `dx < size.width` inner, which writes every pixel once | not executed | Resize.AsWrittenAddresses (see Resize.AsWrittenTallExample, Resize.AsWrittenMissesLastPixel, Resize.AsWrittenOverrunsBuffer) | Resize.Resize (see Resize.CorrectedAddressesInOrder) |
