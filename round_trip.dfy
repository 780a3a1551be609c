/** Forward then backward: the height packed into a terrain diffuse texture is
    what the backward split recovers as the `_alpha` image (before any block
    compression is applied). The split cannot tell which role the alpha came
    from; it only returns the channel. */
module RoundTrip {
  import opened ImageModel
  import opened Classifier
  import opened Config
  import opened Compositor
  import opened Backward

  lemma TerrainHeightSurvivesSplit(images: InputImages, flags: Flags, t: Texture,
                                   name: string, res: seq<(string, OutputImage)>)
    requires flags.terrainParallax
    requires images.diffuse.Some? && DetermineImageProps(images.diffuse.value).Some?
    requires images.height.Some?
    requires images.height.value.width == images.diffuse.value.width
    requires images.height.value.height == images.diffuse.value.height
    requires IsDiffuseTexture(images, flags, t)
    requires IsSplitOf(t.buffer, name, res)
    requires exists x, y | 0 <= x < images.height.value.width && 0 <= y < images.height.value.height ::
      images.height.value.rgba8(x, y).r != 255
    ensures |res| == 2 && res[1].0 == name + "_alpha" && res[1].1.Luma8Image?
    ensures res[1].1.luma.Length0 == images.height.value.width
    ensures res[1].1.luma.Length1 == images.height.value.height
    ensures forall x, y | 0 <= x < images.height.value.width && 0 <= y < images.height.value.height ::
      res[1].1.luma[x, y] == images.height.value.rgba8(x, y).r
  {
    var hgt := images.height.value;
    var x, y :| 0 <= x < hgt.width && 0 <= y < hgt.height && hgt.rgba8(x, y).r != 255;
    assert t.buffer[x, y].a == hgt.rgba8(x, y).r;
    assert !AllOpaque(t.buffer);
  }

  /** Without terrain parallax the diffuse alpha is the diffuse image's own
      alpha, so the split returns that instead. */
  lemma PlainDiffuseAlphaIsOwnAlpha(images: InputImages, flags: Flags, t: Texture,
                                    name: string, res: seq<(string, OutputImage)>)
    requires !flags.terrainParallax
    requires images.diffuse.Some? && DetermineImageProps(images.diffuse.value).Some?
    requires IsDiffuseTexture(images, flags, t)
    requires IsSplitOf(t.buffer, name, res)
    requires |res| == 2
    ensures forall x, y | 0 <= x < images.diffuse.value.width && 0 <= y < images.diffuse.value.height ::
      res[1].1.luma[x, y] == images.diffuse.value.rgba8(x, y).a
  {
  }
}
