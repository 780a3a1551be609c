/** The channel compositor: each `create_*` function of the forward direction
    allocates a fresh RGBA8 buffer, fills it in place and picks a category. */
module Compositor {
  import opened ImageModel
  import opened FormatPolicy
  import opened Classifier
  import opened Config

  /** `InputImages`: every role is optional. */
  datatype InputImages = InputImages(
    diffuse: Option<SourceImage>,
    normal: Option<SourceImage>,
    specular: Option<SourceImage>,
    glow: Option<SourceImage>,
    skinTint: Option<SourceImage>,
    height: Option<SourceImage>,
    cubemap: Option<SourceImage>,
    envMask: Option<SourceImage>,
    innerDiffuse: Option<SourceImage>,
    innerDepth: Option<SourceImage>,
    subsurface: Option<SourceImage>,
    backlight: Option<SourceImage>,
    metallic: Option<SourceImage>,
    glossiness: Option<SourceImage>)

  /** What is handed to the DDS encoder: the composed buffer (indexed [x, y])
      and the format chosen for it, with the category the format was picked from. */
  datatype Texture = Texture(buffer: array2<Rgba>, props: ImageProps, format: ImageFormat)

  // ---------------------------------------------------------------------------
  // Specifications of the composed buffers

  /** The buffer is `prim` converted to RGBA8, with channel 0 of `alpha` in the
      alpha channel wherever `alpha` covers the pixel. */
  ghost predicate CopiedWithAlpha(buffer: array2<Rgba>, prim: SourceImage, alpha: Option<SourceImage>)
    reads buffer
  {
    buffer.Length0 == prim.width && buffer.Length1 == prim.height &&
    forall x, y | 0 <= x < prim.width && 0 <= y < prim.height ::
      buffer[x, y] == if Covers(alpha, x, y) then prim.rgba8(x, y).WithChannel(3, alpha.value.rgba8(x, y).r)
                      else prim.rgba8(x, y)
  }

  /** A single-image slot: a straight copy with a fixed category. */
  ghost predicate IsGenericTexture(img: SourceImage, props: ImageProps, flags: Flags, t: Texture)
    reads t.buffer
  {
    t.props == props &&
    t.format == PickFormat(props, flags.archaicFormat, flags.highQuality) &&
    CopiedWithAlpha(t.buffer, img, None)
  }

  /** The height image that goes into the diffuse alpha, if any. */
  function DiffuseAlphaSource(images: InputImages, flags: Flags): Option<SourceImage> {
    if flags.terrainParallax then images.height else None
  }

  /** The diffuse slot: its own category, unless terrain parallax packs the
      height into alpha, which makes it full alpha. */
  ghost predicate IsDiffuseTexture(images: InputImages, flags: Flags, t: Texture)
    requires images.diffuse.Some? && DetermineImageProps(images.diffuse.value).Some?
    reads t.buffer
  {
    var alpha := DiffuseAlphaSource(images, flags);
    t.props == (if alpha.Some? then RGBFullAlpha else DetermineImageProps(images.diffuse.value).value) &&
    t.format == PickFormat(t.props, flags.archaicFormat, flags.highQuality) &&
    CopiedWithAlpha(t.buffer, images.diffuse.value, alpha)
  }

  /** The normal and inner slots: `prim` with channel 0 of `sec` in alpha;
      full alpha when `sec` exists or `prim` has alpha; high quality forced. */
  ghost predicate IsAlphaPackedTexture(prim: SourceImage, sec: Option<SourceImage>, flags: Flags, t: Texture)
    reads t.buffer
  {
    t.props == (if sec.Some? || HasAlpha(prim.color) then RGBFullAlpha else RGB) &&
    t.format == PickFormat(t.props, flags.archaicFormat, true) &&
    CopiedWithAlpha(t.buffer, prim, sec)
  }

  /** The size of the complex parallax map: that of the first present of
      env_mask, glossiness, metallic and height. */
  function ParallaxSize(images: InputImages): (r: Option<(nat, nat)>)
    ensures r.None? <==>
      images.envMask.None? && images.glossiness.None? && images.metallic.None? && images.height.None?
    ensures images.envMask.Some? ==> r == Some((images.envMask.value.width, images.envMask.value.height))
    ensures images.envMask.None? && images.glossiness.Some? ==>
      r == Some((images.glossiness.value.width, images.glossiness.value.height))
    ensures images.envMask.None? && images.glossiness.None? && images.metallic.Some? ==>
      r == Some((images.metallic.value.width, images.metallic.value.height))
    ensures images.envMask.None? && images.glossiness.None? && images.metallic.None? && images.height.Some? ==>
      r == Some((images.height.value.width, images.height.value.height))
    ensures r.Some? ==>
      (images.envMask.Some? && r.value == (images.envMask.value.width, images.envMask.value.height)) ||
      (images.glossiness.Some? && r.value == (images.glossiness.value.width, images.glossiness.value.height)) ||
      (images.metallic.Some? && r.value == (images.metallic.value.width, images.metallic.value.height)) ||
      (images.height.Some? && r.value == (images.height.value.width, images.height.value.height))
  {
    if images.envMask.Some? then Some((images.envMask.value.width, images.envMask.value.height))
    else if images.glossiness.Some? then Some((images.glossiness.value.width, images.glossiness.value.height))
    else if images.metallic.Some? then Some((images.metallic.value.width, images.metallic.value.height))
    else if images.height.Some? then Some((images.height.value.width, images.height.value.height))
    else None
  }

  /** A complex parallax pixel: R env_mask, G glossiness, B metallic, A height,
      each channel 0 of its own role where present, else the fill (0, 5, 0, 255). */
  function ParallaxPixel(images: InputImages, x: int, y: int): Rgba {
    Rgba(ChannelOr(images.envMask, x, y, 0),
         ChannelOr(images.glossiness, x, y, 5),
         ChannelOr(images.metallic, x, y, 0),
         ChannelOr(images.height, x, y, 255))
  }

  ghost predicate IsParallaxTexture(images: InputImages, flags: Flags, t: Texture)
    requires ParallaxSize(images).Some?
    reads t.buffer
  {
    var (w, h) := ParallaxSize(images).value;
    t.props == RGBFullAlpha &&
    t.format == PickFormat(RGBFullAlpha, flags.archaicFormat, flags.highQuality) &&
    t.buffer.Length0 == w && t.buffer.Length1 == h &&
    forall x, y | 0 <= x < w && 0 <= y < h :: t.buffer[x, y] == ParallaxPixel(images, x, y)
  }

  // ---------------------------------------------------------------------------
  // What the callers must guarantee: writes through `get_pixel_mut` panic
  // outside the buffer, so each non-empty image packed into another must fit
  // in it.

  predicate FitsOver(sec: Option<SourceImage>, prim: SourceImage) {
    sec.Some? ==> FitsIn(sec.value, prim.width, prim.height)
  }

  /** Only reached when the diffuse image is classified; then a height packed
      by terrain parallax must fit. */
  predicate DiffuseFits(images: InputImages, flags: Flags) {
    images.diffuse.Some? && DetermineImageProps(images.diffuse.value).Some? ==>
      FitsOver(DiffuseAlphaSource(images, flags), images.diffuse.value)
  }

  predicate PackedFits(prim: Option<SourceImage>, sec: Option<SourceImage>) {
    prim.Some? ==> FitsOver(sec, prim.value)
  }

  predicate ParallaxFits(images: InputImages) {
    ParallaxSize(images).Some? ==>
      var (w, h) := ParallaxSize(images).value;
      (images.envMask.Some? ==> FitsIn(images.envMask.value, w, h)) &&
      (images.glossiness.Some? ==> FitsIn(images.glossiness.value, w, h)) &&
      (images.metallic.Some? ==> FitsIn(images.metallic.value, w, h)) &&
      (images.height.Some? ==> FitsIn(images.height.value, w, h))
  }

  // ---------------------------------------------------------------------------
  // Buffer operations of the image crate

  /** `RgbaImage::new(w, h)` followed by `copy_from(img, 0, 0)`. The copy
      cannot fail: the buffer has exactly the image's size. */
  method CopyFrom(img: SourceImage) returns (res: array2<Rgba>)
    ensures fresh(res)
    ensures res.Length0 == img.width && res.Length1 == img.height
    ensures forall x, y | 0 <= x < img.width && 0 <= y < img.height :: res[x, y] == img.rgba8(x, y)
  {
    res := new Rgba[img.width, img.height];
    for y := 0 to img.height
      invariant forall x', y' | 0 <= x' < img.width && 0 <= y' < y :: res[x', y'] == img.rgba8(x', y')
    {
      for x := 0 to img.width
        invariant forall x', y' | 0 <= x' < img.width && 0 <= y' < y :: res[x', y'] == img.rgba8(x', y')
        invariant forall x' | 0 <= x' < x :: res[x', y] == img.rgba8(x', y)
      {
        res[x, y] := img.rgba8(x, y);
      }
    }
  }

  /** The nested loop `res.get_pixel_mut(x, y).0[k] = src.get_pixel(x, y).0[0]`
      over the extent of `src`. */
  method PackIntoChannel(res: array2<Rgba>, src: SourceImage, k: nat)
    requires k < 4
    requires FitsIn(src, res.Length0, res.Length1)
    modifies res
    ensures forall x, y | 0 <= x < res.Length0 && 0 <= y < res.Length1 ::
      res[x, y] == if x < src.width && y < src.height then old(res[x, y]).WithChannel(k, src.rgba8(x, y).r)
                   else old(res[x, y])
  {
    for y := 0 to src.height
      invariant forall x', y' | 0 <= x' < res.Length0 && 0 <= y' < res.Length1 ::
        res[x', y'] == if x' < src.width && y' < y then old(res[x', y']).WithChannel(k, src.rgba8(x', y').r)
                       else old(res[x', y'])
    {
      for x := 0 to src.width
        invariant forall x', y' | 0 <= x' < res.Length0 && 0 <= y' < res.Length1 ::
          res[x', y'] == if x' < src.width && (y' < y || (y' == y && x' < x))
                         then old(res[x', y']).WithChannel(k, src.rgba8(x', y').r)
                         else old(res[x', y'])
      {
        res[x, y] := res[x, y].WithChannel(k, src.rgba8(x, y).r);
      }
    }
  }

  /** `if let Some(src) = … { <pack src's channel 0 into channel k> }`. */
  method PackIfPresent(res: array2<Rgba>, src: Option<SourceImage>, k: nat)
    requires k < 4
    requires src.Some? ==> FitsIn(src.value, res.Length0, res.Length1)
    modifies res
    ensures forall x, y | 0 <= x < res.Length0 && 0 <= y < res.Length1 ::
      res[x, y] == if Covers(src, x, y) then old(res[x, y]).WithChannel(k, src.value.rgba8(x, y).r)
                   else old(res[x, y])
  {
    if src.Some? {
      PackIntoChannel(res, src.value, k);
    }
  }

  // ---------------------------------------------------------------------------
  // The composition rules

  /** `create_generic`: a straight copy of one optional image. */
  method CreateGeneric(image: Option<SourceImage>, props: ImageProps, flags: Flags) returns (r: Option<Texture>)
    ensures r.Some? <==> image.Some?
    ensures r.Some? ==> IsGenericTexture(image.value, props, flags, r.value)
    ensures r.Some? ==> fresh(r.value.buffer)
  {
    if image.None? {
      return None;
    }
    var res := CopyFrom(image.value);
    var format := PickFormat(props, flags.archaicFormat, flags.highQuality);
    return Some(Texture(res, props, format));
  }

  /** `create_diffuse`: skipped when there is no diffuse image or the classifier
      rejects it; with terrain parallax and a height image, height goes into alpha. */
  method CreateDiffuse(images: InputImages, flags: Flags) returns (r: Option<Texture>)
    requires DiffuseFits(images, flags)
    ensures r.Some? <==> images.diffuse.Some? && DetermineImageProps(images.diffuse.value).Some?
    ensures r.Some? ==> IsDiffuseTexture(images, flags, r.value)
    ensures r.Some? ==> fresh(r.value.buffer)
  {
    if images.diffuse.None? {
      return None;
    }
    var img := images.diffuse.value;
    var classified := DetermineImageProps(img);
    if classified.None? {
      return None;
    }
    var props := classified.value;
    var res := CopyFrom(img);
    if flags.terrainParallax {
      if images.height.Some? {
        props := RGBFullAlpha;
        PackIntoChannel(res, images.height.value, 3);
      }
    }
    var format := PickFormat(props, flags.archaicFormat, flags.highQuality);
    return Some(Texture(res, props, format));
  }

  /** The common body of `create_normal` and `create_inner`. */
  method CreateAlphaPacked(prim: Option<SourceImage>, sec: Option<SourceImage>, flags: Flags) returns (r: Option<Texture>)
    requires PackedFits(prim, sec)
    ensures r.Some? <==> prim.Some?
    ensures r.Some? ==> IsAlphaPackedTexture(prim.value, sec, flags, r.value)
    ensures r.Some? ==> fresh(r.value.buffer)
  {
    if prim.None? {
      return None;
    }
    var img := prim.value;
    var props := if sec.Some? then RGBFullAlpha
                 else if HasAlpha(img.color) then RGBFullAlpha
                 else RGB;
    var res := CopyFrom(img);
    if sec.Some? {
      PackIntoChannel(res, sec.value, 3);
    }
    var format := PickFormat(props, flags.archaicFormat, true);
    return Some(Texture(res, props, format));
  }

  /** `create_normal`: normal map, specular in alpha. */
  method CreateNormal(images: InputImages, flags: Flags) returns (r: Option<Texture>)
    requires PackedFits(images.normal, images.specular)
    ensures r.Some? <==> images.normal.Some?
    ensures r.Some? ==> IsAlphaPackedTexture(images.normal.value, images.specular, flags, r.value)
    ensures r.Some? ==> fresh(r.value.buffer)
  {
    r := CreateAlphaPacked(images.normal, images.specular, flags);
  }

  /** `create_inner`: inner diffuse, inner depth in alpha. */
  method CreateInner(images: InputImages, flags: Flags) returns (r: Option<Texture>)
    requires PackedFits(images.innerDiffuse, images.innerDepth)
    ensures r.Some? <==> images.innerDiffuse.Some?
    ensures r.Some? ==> IsAlphaPackedTexture(images.innerDiffuse.value, images.innerDepth, flags, r.value)
    ensures r.Some? ==> fresh(r.value.buffer)
  {
    r := CreateAlphaPacked(images.innerDiffuse, images.innerDepth, flags);
  }

  /** `create_complex_parallax`: fill with (0, 5, 0, 255), then write each
      present role's channel 0 into its own channel. */
  method CreateComplexParallax(images: InputImages, flags: Flags) returns (r: Option<Texture>)
    requires ParallaxFits(images)
    ensures r.Some? <==> ParallaxSize(images).Some?
    ensures r.Some? ==> IsParallaxTexture(images, flags, r.value)
    ensures r.Some? ==> fresh(r.value.buffer)
  {
    var size := ParallaxSize(images);
    if size.None? {
      return None;
    }
    var (w, h) := size.value;
    var res := new Rgba[w, h];
    for y := 0 to h
      invariant forall x', y' | 0 <= x' < w && 0 <= y' < y :: res[x', y'] == Rgba(0, 5, 0, 255)
    {
      for x := 0 to w
        invariant forall x', y' | 0 <= x' < w && 0 <= y' < y :: res[x', y'] == Rgba(0, 5, 0, 255)
        invariant forall x' | 0 <= x' < x :: res[x', y] == Rgba(0, 5, 0, 255)
      {
        res[x, y] := Rgba(0, 5, 0, 255);
      }
    }
    PackIfPresent(res, images.envMask, 0);
    assert forall x, y | 0 <= x < w && 0 <= y < h ::
      res[x, y] == Rgba(ChannelOr(images.envMask, x, y, 0), 5, 0, 255);
    PackIfPresent(res, images.glossiness, 1);
    assert forall x, y | 0 <= x < w && 0 <= y < h ::
      res[x, y] == Rgba(ChannelOr(images.envMask, x, y, 0), ChannelOr(images.glossiness, x, y, 5), 0, 255);
    PackIfPresent(res, images.metallic, 2);
    assert forall x, y | 0 <= x < w && 0 <= y < h ::
      res[x, y] == Rgba(ChannelOr(images.envMask, x, y, 0), ChannelOr(images.glossiness, x, y, 5),
                        ChannelOr(images.metallic, x, y, 0), 255);
    PackIfPresent(res, images.height, 3);
    var format := PickFormat(RGBFullAlpha, flags.archaicFormat, flags.highQuality);
    return Some(Texture(res, RGBFullAlpha, format));
  }

  // ---------------------------------------------------------------------------
  // Properties of the composition rules

  /** Complex parallax without glossiness and metallic: G is the fill 5 and B
      the fill 0 at every pixel of the buffer; R is env_mask's channel 0 where
      env_mask covers the pixel (all of the buffer when env_mask is present)
      and A is height's channel 0 where height covers it, else the fill 255. */
  lemma ParallaxWithoutGlossinessOrMetallic(images: InputImages, flags: Flags, t: Texture)
    requires images.glossiness.None? && images.metallic.None?
    requires images.envMask.Some? || images.height.Some?
    requires IsParallaxTexture(images, flags, t)
    ensures forall x, y | 0 <= x < t.buffer.Length0 && 0 <= y < t.buffer.Length1 ::
      t.buffer[x, y].g == 5 && t.buffer[x, y].b == 0 &&
      t.buffer[x, y].r == ChannelOr(images.envMask, x, y, 0) &&
      t.buffer[x, y].a == ChannelOr(images.height, x, y, 255)
    ensures images.envMask.Some? ==>
      t.buffer.Length0 == images.envMask.value.width && t.buffer.Length1 == images.envMask.value.height &&
      forall x, y | 0 <= x < t.buffer.Length0 && 0 <= y < t.buffer.Length1 ::
        t.buffer[x, y].r == images.envMask.value.rgba8(x, y).r
  {
  }

  /** Normal and inner textures ignore the user's quality flag: in modern mode
      they are always BC7, in legacy mode BC3 or BC1. */
  lemma AlphaPackedFormat(prim: SourceImage, sec: Option<SourceImage>, flags: Flags, t: Texture)
    requires IsAlphaPackedTexture(prim, sec, flags, t)
    ensures !flags.archaicFormat ==> t.format == BC7Unorm
    ensures flags.archaicFormat ==> t.format == (if t.props == RGBFullAlpha then BC3Unorm else BC1Unorm)
  {
  }

  /** Packing leaves the colour channels alone everywhere and the alpha alone
      outside the packed image's extent. */
  lemma CopiedWithAlphaKeepsColour(buffer: array2<Rgba>, prim: SourceImage, alpha: Option<SourceImage>, x: nat, y: nat)
    requires CopiedWithAlpha(buffer, prim, alpha)
    requires x < prim.width && y < prim.height
    ensures buffer[x, y].r == prim.rgba8(x, y).r
    ensures buffer[x, y].g == prim.rgba8(x, y).g
    ensures buffer[x, y].b == prim.rgba8(x, y).b
    ensures buffer[x, y].a == ChannelOr(alpha, x, y, prim.rgba8(x, y).a)
  {
  }
}
