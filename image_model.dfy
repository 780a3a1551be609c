/** The vocabulary of the image crate that the composition engine relies on:
    8-bit samples, colour types, RGBA8 pixels and decoded source images. */
module ImageModel {

  /** An unsigned 8-bit sample (`u8`). */
  newtype u8 = x: int | 0 <= x < 256

  datatype Option<T> = None | Some(value: T)

  /** The colour type a decoder reports for an image. The crate's enum is
      non-exhaustive; `OtherColor` stands for every variant not listed. */
  datatype ColorType =
    | L8 | La8 | Rgb8 | Rgba8
    | L16 | La16 | Rgb16 | Rgba16
    | Rgb32F | Rgba32F
    | OtherColor

  /** `ColorType::has_alpha`. */
  predicate HasAlpha(c: ColorType) {
    c == La8 || c == Rgba8 || c == La16 || c == Rgba16 || c == Rgba32F
  }

  /** A pixel of an `RgbaImage`: four 8-bit channels, index 0..3 = R, G, B, A. */
  datatype Rgba = Rgba(r: u8, g: u8, b: u8, a: u8) {

    function Channel(k: nat): u8
      requires k < 4
    {
      match k
      case 0 => r
      case 1 => g
      case 2 => b
      case _ => a
    }

    /** The pixel after `pixel.0[k] = v`. */
    function WithChannel(k: nat, v: u8): (p: Rgba)
      requires k < 4
      ensures p.Channel(k) == v
      ensures forall j | 0 <= j < 4 && j != k :: p.Channel(j) == Channel(j)
    {
      match k
      case 0 => Rgba(v, g, b, a)
      case 1 => Rgba(r, v, b, a)
      case 2 => Rgba(r, g, v, a)
      case _ => Rgba(r, g, b, v)
    }
  }

  /** A pixel of an `RgbImage`. */
  datatype Rgb = Rgb(r: u8, g: u8, b: u8)

  /** A decoded input image (`DynamicImage`).
      `samples` is its raw buffer in its own sample type, every channel of
      every pixel in order (what `as_rgba8().iter()` / `as_rgba16().iter()`
      visit); `rgba8` is the crate's conversion of the pixel at (x, y) to
      RGBA8, which `get_pixel` and `copy_from` use. The conversion itself
      (channel replication, 16-bit down-scaling, float clamping) is left
      uninterpreted. */
  datatype SourceImage = SourceImage(
    color: ColorType,
    width: nat,
    height: nat,
    samples: seq<nat>,
    rgba8: (nat, nat) -> Rgba)

  /** Does the optional image exist and contain (x, y)? */
  predicate Covers(src: Option<SourceImage>, x: int, y: int) {
    src.Some? && 0 <= x < src.value.width && 0 <= y < src.value.height
  }

  /** Channel 0 of `src` at (x, y) where `src` covers that pixel, else `otherwise`. */
  function ChannelOr(src: Option<SourceImage>, x: int, y: int, otherwise: u8): u8 {
    if Covers(src, x, y) then src.value.rgba8(x, y).r else otherwise
  }

  /** Can `src` be written pixel by pixel into a w x h buffer without going out
      of bounds? An empty image writes no pixel, so it fits anywhere. */
  predicate FitsIn(src: SourceImage, w: nat, h: nat) {
    src.width == 0 || src.height == 0 || (src.width <= w && src.height <= h)
  }
}

/** The command-line flags the engine reads (`Args`). */
module Config {

  datatype Flags = Flags(
    name: string,
    highQuality: bool,
    archaicFormat: bool,
    terrainParallax: bool,
    complexParallax: bool)

  /** Output file name: the name prefix, the slot suffix and the extension. */
  function OutputFileName(name: string, suffix: string, ext: string): (f: string)
    ensures |f| == |name| + |suffix| + |ext|
    ensures f[..|name|] == name && f[|name| + |suffix|..] == ext
    ensures f[|name|..|name| + |suffix|] == suffix
  {
    name + suffix + ext
  }

  /** With a common prefix and extension, different suffixes never produce the
      same file, so no output of one run overwrites another. */
  lemma OutputFileNameInjective(name: string, s1: string, s2: string, ext: string)
    requires OutputFileName(name, s1, ext) == OutputFileName(name, s2, ext)
    ensures s1 == s2
  {
    var f := OutputFileName(name, s1, ext);
    assert |s1| == |s2|;
    assert s1 == f[|name|..|name| + |s1|];
  }
}
