/** Image categories and the compressed format chosen for each (`pick_format`). */
module FormatPolicy {

  /** `ImageProps`: the semantic category of an image. */
  datatype ImageProps = Grayscale | RGB | RGBFullAlpha | RGBCutoutAlpha | Uncompressed

  /** The DDS pixel formats the tool ever asks for. */
  datatype ImageFormat = BC1Unorm | BC3Unorm | BC4Unorm | BC7Unorm | R8G8B8A8Unorm

  /** `pick_format`: total over all 5 x 2 x 2 inputs. */
  function PickFormat(props: ImageProps, useOldFormat: bool, highQuality: bool): (f: ImageFormat)
    // legacy (Skyrim LE) mode only uses BC1, BC3 and raw RGBA8
    ensures useOldFormat ==> f == BC1Unorm || f == BC3Unorm || f == R8G8B8A8Unorm
    // uncompressed is exactly the category that yields raw RGBA8
    ensures f == R8G8B8A8Unorm <==> props == Uncompressed
    // BC3 only for full alpha in legacy mode, BC4 only for grayscale in modern mode
    ensures f == BC3Unorm <==> useOldFormat && props == RGBFullAlpha
    ensures f == BC4Unorm <==> !useOldFormat && props == Grayscale
    // modern mode: full alpha is always BC7; RGB and cutout are BC7 exactly when high quality
    ensures !useOldFormat && props == RGBFullAlpha ==> f == BC7Unorm
    ensures !useOldFormat && (props == RGB || props == RGBCutoutAlpha) ==>
              (f == BC7Unorm <==> highQuality) && (f == BC1Unorm <==> !highQuality)
  {
    if useOldFormat then
      match props
      case Grayscale => BC1Unorm
      case RGB => BC1Unorm
      case RGBFullAlpha => BC3Unorm
      case RGBCutoutAlpha => BC1Unorm
      case Uncompressed => R8G8B8A8Unorm
    else
      match props
      case Grayscale => BC4Unorm
      case RGB => if highQuality then BC7Unorm else BC1Unorm
      case RGBFullAlpha => BC7Unorm
      case RGBCutoutAlpha => if highQuality then BC7Unorm else BC1Unorm
      case Uncompressed => R8G8B8A8Unorm
  }

  /** The high-quality flag changes the outcome only for RGB and cutout-alpha
      images in modern mode. */
  lemma HighQualityMattersOnlyFor(props: ImageProps, useOldFormat: bool)
    ensures PickFormat(props, useOldFormat, true) != PickFormat(props, useOldFormat, false)
            <==> !useOldFormat && (props == RGB || props == RGBCutoutAlpha)
  {
  }

  /** One row of the format table: category, legacy flag, high-quality flag, format. */
  datatype FormatRow = FormatRow(props: ImageProps, legacy: bool, hq: bool, format: ImageFormat)

  /** The format table written out row by row, as an independent reference. */
  const FormatTable: seq<FormatRow> := [
    FormatRow(Grayscale, true, false, BC1Unorm), FormatRow(Grayscale, true, true, BC1Unorm),
    FormatRow(Grayscale, false, false, BC4Unorm), FormatRow(Grayscale, false, true, BC4Unorm),
    FormatRow(RGB, true, false, BC1Unorm), FormatRow(RGB, true, true, BC1Unorm),
    FormatRow(RGB, false, false, BC1Unorm), FormatRow(RGB, false, true, BC7Unorm),
    FormatRow(RGBFullAlpha, true, false, BC3Unorm), FormatRow(RGBFullAlpha, true, true, BC3Unorm),
    FormatRow(RGBFullAlpha, false, false, BC7Unorm), FormatRow(RGBFullAlpha, false, true, BC7Unorm),
    FormatRow(RGBCutoutAlpha, true, false, BC1Unorm), FormatRow(RGBCutoutAlpha, true, true, BC1Unorm),
    FormatRow(RGBCutoutAlpha, false, false, BC1Unorm), FormatRow(RGBCutoutAlpha, false, true, BC7Unorm),
    FormatRow(Uncompressed, true, false, R8G8B8A8Unorm), FormatRow(Uncompressed, true, true, R8G8B8A8Unorm),
    FormatRow(Uncompressed, false, false, R8G8B8A8Unorm), FormatRow(Uncompressed, false, true, R8G8B8A8Unorm)
  ]

  /** `PickFormat` agrees with every row of the table, and every input has a row. */
  lemma PickFormatMatchesTable(props: ImageProps, legacy: bool, hq: bool)
    ensures exists i | 0 <= i < |FormatTable| ::
      FormatTable[i].props == props && FormatTable[i].legacy == legacy && FormatTable[i].hq == hq
    ensures forall i | 0 <= i < |FormatTable| ::
      FormatTable[i].props == props && FormatTable[i].legacy == legacy && FormatTable[i].hq == hq
      ==> FormatTable[i].format == PickFormat(props, legacy, hq)
  {
    var i := (match props
              case Grayscale => 0
              case RGB => 4
              case RGBFullAlpha => 8
              case RGBCutoutAlpha => 12
              case Uncompressed => 16)
             + (if legacy then 0 else 2) + (if hq then 1 else 0);
    assert FormatTable[i].props == props && FormatTable[i].legacy == legacy && FormatTable[i].hq == hq;
  }
}
