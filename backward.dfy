/** The backward direction (`create_images`): split a decoded RGBA8 texture
    into an RGB image and, when its alpha is not uniformly opaque, a grayscale
    image of the alpha channel. */
module Backward {
  import opened ImageModel
  import opened Config

  /** The PNG images the backward direction writes. */
  datatype OutputImage =
    | Rgb8Image(rgb: array2<Rgb>)
    | Luma8Image(luma: array2<u8>)
  {
    function Buffer(): object {
      match this
      case Rgb8Image(rgb) => rgb
      case Luma8Image(luma) => luma
    }
  }

  /** `img.pixels().all(|p| p.0[3] == 255)`; vacuously true for an empty image. */
  predicate AllOpaque(img: array2<Rgba>)
    reads img
    ensures img.Length0 == 0 || img.Length1 == 0 ==> AllOpaque(img)
  {
    forall x, y | 0 <= x < img.Length0 && 0 <= y < img.Length1 :: img[x, y].a == 255
  }

  /** `rgb` is `img` without its alpha channel. */
  ghost predicate IsRgbPart(img: array2<Rgba>, rgb: array2<Rgb>)
    reads img, rgb
  {
    rgb.Length0 == img.Length0 && rgb.Length1 == img.Length1 &&
    forall x, y | 0 <= x < img.Length0 && 0 <= y < img.Length1 ::
      rgb[x, y] == Rgb(img[x, y].r, img[x, y].g, img[x, y].b)
  }

  /** `luma` is the alpha channel of `img`. */
  ghost predicate IsAlphaPart(img: array2<Rgba>, luma: array2<u8>)
    reads img, luma
  {
    luma.Length0 == img.Length0 && luma.Length1 == img.Length1 &&
    forall x, y | 0 <= x < img.Length0 && 0 <= y < img.Length1 :: luma[x, y] == img[x, y].a
  }

  /** The result of splitting `img` named `name`: first `(name, rgb)`, then
      `(name + "_alpha", alpha)` exactly when some alpha sample is not 255. */
  ghost predicate IsSplitOf(img: array2<Rgba>, name: string, res: seq<(string, OutputImage)>)
    reads img, set i | 0 <= i < |res| :: res[i].1.Buffer()
  {
    (|res| == 1 || |res| == 2) &&
    res[0].0 == name && res[0].1.Rgb8Image? &&
    IsRgbPart(img, res[0].1.rgb) &&
    (|res| == 2 <==> !AllOpaque(img)) &&
    (|res| == 2 ==>
       res[1].0 == name + "_alpha" && res[1].1.Luma8Image? &&
       IsAlphaPart(img, res[1].1.luma))
  }

  /** `into_rgb8` on an RGBA8 image: drop the alpha channel. */
  method IntoRgb8(img: array2<Rgba>) returns (rgb: array2<Rgb>)
    ensures fresh(rgb)
    ensures IsRgbPart(img, rgb)
  {
    rgb := new Rgb[img.Length0, img.Length1];
    for y := 0 to img.Length1
      invariant forall x', y' | 0 <= x' < img.Length0 && 0 <= y' < y ::
        rgb[x', y'] == Rgb(img[x', y'].r, img[x', y'].g, img[x', y'].b)
    {
      for x := 0 to img.Length0
        invariant forall x', y' | 0 <= x' < img.Length0 && 0 <= y' < y ::
          rgb[x', y'] == Rgb(img[x', y'].r, img[x', y'].g, img[x', y'].b)
        invariant forall x' | 0 <= x' < x :: rgb[x', y] == Rgb(img[x', y].r, img[x', y].g, img[x', y].b)
      {
        rgb[x, y] := Rgb(img[x, y].r, img[x, y].g, img[x, y].b);
      }
    }
  }

  /** `create_images` after the texture has been read and decoded. */
  method CreateImages(name: string, img: array2<Rgba>) returns (res: seq<(string, OutputImage)>)
    ensures IsSplitOf(img, name, res)
    ensures fresh(res[0].1.rgb)
    ensures |res| == 2 ==> fresh(res[1].1.luma)
  {
    var rgb := IntoRgb8(img);
    res := [(name, Rgb8Image(rgb))];
    if !AllOpaque(img) {
      var a := new u8[img.Length0, img.Length1];
      for y := 0 to img.Length1
        modifies a
        invariant forall x', y' | 0 <= x' < img.Length0 && 0 <= y' < y :: a[x', y'] == img[x', y'].a
      {
        for x := 0 to img.Length0
          modifies a
          invariant forall x', y' | 0 <= x' < img.Length0 && 0 <= y' < y :: a[x', y'] == img[x', y'].a
          invariant forall x' | 0 <= x' < x :: a[x', y] == img[x', y].a
        {
          a[x, y] := img[x, y].a;
        }
      }
      res := res + [(name + "_alpha", Luma8Image(a))];
    }
  }

  /** Each split image goes to its own `.png` file. */
  lemma BackwardFileNamesDistinct(img: array2<Rgba>, prefix: string, name: string, res: seq<(string, OutputImage)>)
    requires IsSplitOf(img, name, res) && |res| == 2
    ensures OutputFileName(prefix, res[0].0, ".png") != OutputFileName(prefix, res[1].0, ".png")
  {
    // the two names differ in length
    assert |res[1].0| == |res[0].0| + |"_alpha"|;
  }

  /** An all-opaque image (an empty one included) gives the RGB image alone. */
  lemma OpaqueGivesOneImage(img: array2<Rgba>, name: string, res: seq<(string, OutputImage)>)
    requires IsSplitOf(img, name, res)
    requires forall x, y | 0 <= x < img.Length0 && 0 <= y < img.Length1 :: img[x, y].a == 255
    ensures |res| == 1
  {
  }
}
