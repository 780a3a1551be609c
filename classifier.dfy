/** The slot classifier (`determine_image_props`). */
module Classifier {
  import opened ImageModel
  import opened FormatPolicy

  /** `u8::MAX` for 8-bit RGBA, `u16::MAX` for 16-bit RGBA. */
  function SampleMax(c: ColorType): (m: nat)
    ensures m == 0xFF || m == 0xFFFF
    ensures m == 0xFFFF <==> c == Rgba16
  {
    if c == Rgba16 then 65535 else 255
  }

  /** `*p == MIN || *p == MAX` for one sample. */
  predicate IsExtreme(s: nat, max: nat) {
    s == 0 || s == max
  }

  /** `iter().all(|p| *p == MIN || *p == MAX)`: a left-to-right scan of every
      sample, every channel included. */
  function AllExtreme(samples: seq<nat>, max: nat): (b: bool)
    ensures b <==> forall i | 0 <= i < |samples| :: IsExtreme(samples[i], max)
  {
    if samples == [] then true
    else IsExtreme(samples[0], max) && AllExtreme(samples[1..], max)
  }

  /** `determine_image_props`: the category of one image, from its colour type
      and, for 8/16-bit RGBA, from a scan of its whole sample buffer. */
  function DetermineImageProps(img: SourceImage): (r: Option<ImageProps>)
    ensures r == Some(Grayscale) <==> img.color in {L8, La8, L16, La16}
    ensures r == Some(RGB) <==> img.color in {Rgb8, Rgb16, Rgb32F}
    ensures r == Some(RGBCutoutAlpha) <==>
      (img.color == Rgba8 || img.color == Rgba16) &&
      forall i | 0 <= i < |img.samples| :: IsExtreme(img.samples[i], SampleMax(img.color))
    ensures r == Some(RGBFullAlpha) <==>
      img.color == Rgba32F ||
      ((img.color == Rgba8 || img.color == Rgba16) &&
       exists i | 0 <= i < |img.samples| :: !IsExtreme(img.samples[i], SampleMax(img.color)))
    ensures r.None? <==> img.color == OtherColor
    ensures r != Some(Uncompressed)
  {
    match img.color
    case L8 => Some(Grayscale)
    case La8 => Some(Grayscale)
    case Rgb8 => Some(RGB)
    case Rgba8 =>
      Some(if AllExtreme(img.samples, 255) then RGBCutoutAlpha else RGBFullAlpha)
    case L16 => Some(Grayscale)
    case La16 => Some(Grayscale)
    case Rgb16 => Some(RGB)
    case Rgba16 =>
      Some(if AllExtreme(img.samples, 65535) then RGBCutoutAlpha else RGBFullAlpha)
    case Rgb32F => Some(RGB)
    case Rgba32F => Some(RGBFullAlpha)
    case OtherColor => None
  }

  /** A semi-transparent alpha sample is not the only thing that makes an
      8-bit RGBA image "full alpha": any intermediate value in any channel does. */
  lemma IntermediateColourSampleMeansFullAlpha(img: SourceImage, i: nat)
    requires img.color == Rgba8
    requires i < |img.samples| && 0 < img.samples[i] < 255
    ensures DetermineImageProps(img) == Some(RGBFullAlpha)
  {
    assert !IsExtreme(img.samples[i], SampleMax(img.color));
  }
}
