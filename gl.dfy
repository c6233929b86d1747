/** The OpenGL state the texture array drives, seen as the sequence of calls it
    issues. Only the enumerant values the texture array passes are named. */
module Gl {
  import opened Pixels

  const Texture2DArray: int := 0x8C1A
  const TextureMagFilter: int := 0x2800
  const TextureMinFilter: int := 0x2801
  const TextureWrapS: int := 0x2802
  const TextureWrapT: int := 0x2803
  const TextureWrapR: int := 0x8072
  const Linear: int := 0x2601
  const LinearMipmapLinear: int := 0x2703
  const Repeat: int := 0x2901

  /** One call into the graphics driver or the texture base class:
      - Clear: the base class's `clear()`, freeing the previous texture;
      - GenTexture: `glGenTextures(1, ...)`; Retain: `ofRetain()`;
      - Bind / Unbind: the base class's `bind()` / `unbind()`;
      - Storage3D: `glTexStorage3D(target, levels, internalFormat, w, h, d)`;
      - Parameter: `glTexParameteri(GL_TEXTURE_2D_ARRAY, name, value)`;
      - UnpackAlignment: `ofSetPixelStoreiAlignment(GL_UNPACK_ALIGNMENT, w, 1, channels of format)`;
      - SubImage3D: `glTexSubImage3D(target, level, x, y, layer, w, h, d, format, type, pixels)`. */
  datatype GlCall =
    | Clear
    | GenTexture
    | Retain
    | Bind
    | Unbind
    | Storage3D(target: int, levels: int, internalFormat: int, width: int, height: int, depth: int)
    | Parameter(name: int, value: int)
    | UnpackAlignment(rowWidth: int, format: int)
    | SubImage3D(target: int, level: int, xOffset: int, yOffset: int, layerOffset: int,
                 width: int, height: int, depth: int, format: int, pixelType: int, pixels: seq<Rgba>)

  /** The uploads among `calls`, in order. */
  function Uploads(calls: seq<GlCall>): (u: seq<GlCall>)
    ensures |u| <= |calls|
    ensures forall k :: 0 <= k < |u| ==> u[k].SubImage3D?
  {
    if calls == [] then []
    else (if calls[0].SubImage3D? then [calls[0]] else []) + Uploads(calls[1..])
  }

  /** The storage calls among `calls`, in order. */
  function Storages(calls: seq<GlCall>): (s: seq<GlCall>)
    ensures |s| <= |calls|
    ensures forall k :: 0 <= k < |s| ==> s[k].Storage3D?
  {
    if calls == [] then []
    else (if calls[0].Storage3D? then [calls[0]] else []) + Storages(calls[1..])
  }

  lemma {:induction false} UploadsAppend(xs: seq<GlCall>, ys: seq<GlCall>)
    ensures Uploads(xs + ys) == Uploads(xs) + Uploads(ys)
  {
    if xs == [] {
      assert xs + ys == ys;
    } else {
      assert (xs + ys)[1..] == xs[1..] + ys;
      UploadsAppend(xs[1..], ys);
    }
  }

  lemma {:induction false} StoragesAppend(xs: seq<GlCall>, ys: seq<GlCall>)
    ensures Storages(xs + ys) == Storages(xs) + Storages(ys)
  {
    if xs == [] {
      assert xs + ys == ys;
    } else {
      assert (xs + ys)[1..] == xs[1..] + ys;
      StoragesAppend(xs[1..], ys);
    }
  }

  /** Calls that neither reserve storage nor upload contribute to neither list. */
  lemma {:induction false} NeitherStorageNorUpload(xs: seq<GlCall>)
    requires forall k :: 0 <= k < |xs| ==> !xs[k].Storage3D? && !xs[k].SubImage3D?
    ensures Storages(xs) == [] && Uploads(xs) == []
  {
    if xs != [] {
      NeitherStorageNorUpload(xs[1..]);
    }
  }

  /** The uploads of an exchange that uploads only in its middle part. */
  lemma UploadsOfExchange(pre: seq<GlCall>, ups: seq<GlCall>, post: seq<GlCall>)
    requires forall k :: 0 <= k < |pre| ==> !pre[k].Storage3D? && !pre[k].SubImage3D?
    requires forall k :: 0 <= k < |post| ==> !post[k].Storage3D? && !post[k].SubImage3D?
    requires forall k :: 0 <= k < |ups| ==> ups[k].SubImage3D?
    ensures Uploads(pre + ups + post) == ups
  {
    NeitherStorageNorUpload(pre);
    NeitherStorageNorUpload(post);
    UploadsOfUploads(ups);
    UploadsAppend(pre + ups, post);
    UploadsAppend(pre, ups);
  }

  lemma {:induction false} UploadsOfUploads(u: seq<GlCall>)
    requires forall k :: 0 <= k < |u| ==> u[k].SubImage3D?
    ensures Uploads(u) == u
  {
    if u != [] {
      UploadsOfUploads(u[1..]);
    }
  }
}
