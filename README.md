# Texture composition engine of dds_material_creator, in Dafny

This project models the decision logic of a tool that turns loose, single-purpose
images (diffuse, normal, specular, height, metallic, …) into Skyrim-style DDS
textures, and splits such a texture back into PNG images.

- **Forward direction** (`src/forward.rs`). The diffuse image is classified
  into a category (`Grayscale`, `RGB`, `RGBFullAlpha` or `RGBCutoutAlpha`);
  every other slot's category is decided by its own rule, without the
  classifier. A fixed table maps the
  category, the legacy-format flag and the high-quality flag to a compressed
  pixel format (`Uncompressed`, the fifth category, maps to R8G8B8A8 but no
  rule uses it). Each output slot (`""`, `_n`, `_g`, `_sk`, `_p`, `_e`, `_m`,
  `_i`, `_subsurface`, `_s`, `_b`) has a rule that allocates a fresh RGBA8
  buffer and fills it in place. Every rule except complex parallax starts from
  a copy of one image, and the diffuse, normal and inner rules may then
  write channel 0 of a second image into alpha. The complex-parallax rule fills the
  buffer with (0, 5, 0, 255) and then writes channel 0 of each present role
  among env_mask, glossiness, metallic and height into its own channel. The
  driver runs the rules in that fixed order and keeps what they produce.
- **Backward direction** (`src/backward.rs`). A decoded RGBA8 texture always
  gives an RGB image. It also gives a grayscale `_alpha` image of its alpha
  channel, but only when some alpha sample is not 255.

Files and modules:

| file | module | models |
|---|---|---|
| `image_model.dfy` | `ImageModel`, `Config` | image-crate vocabulary (`u8`, colour types, RGBA8 pixels, decoded images); the `Args` flags and output file names |
| `format_policy.dfy` | `FormatPolicy` | `ImageProps`, `pick_format` |
| `classifier.dfy` | `Classifier` | `determine_image_props` |
| `compositor.dfy` | `Compositor` | `InputImages`, `create_generic`, `create_diffuse`, `create_normal`, `create_inner`, `create_complex_parallax` |
| `catalog.dfy` | `Catalog` | the slot catalog and `create_textures` |
| `backward.dfy` | `Backward` | the RGB/alpha split of `create_images` |
| `round_trip.dfy` | `RoundTrip` | forward terrain packing followed by the backward split |

Representation:

- A decoded input image is a `SourceImage` with five parts:
  - its colour type;
  - its width and height;
  - its raw sample buffer (every channel of every pixel, in its own 8- or
    16-bit sample type), which the classifier scans;
  - a function `rgba8(x, y)`, the crate's conversion of a pixel to RGBA8,
    which `get_pixel` and `copy_from` use. It is left uninterpreted.
- A composed buffer is an `array2<Rgba>` indexed `[x, y]`. Each `create_*`
  method allocates it, fills it with nested `for y` / `for x` loops and
  returns it in a `Texture` with the chosen format. The `Texture` also keeps
  the category the format was chosen from.
- The backward output images are `array2<Rgb>` and `array2<u8>`. The gray
  one is filled by nested loops, as in the source.

Two facts about the code shape the model:

- The classifier's cutout test looks at every sample of every channel
  (`as_rgba8().iter()` visits sub-pixels), not only at alpha. An opaque
  RGBA8 image with any mid-tone colour is therefore `RGBFullAlpha`
  (`Classifier.IntermediateColourSampleMeansFullAlpha`).
- Images that combine into one texture must have the same resolution
  (the `Args` doc comment, src/main.rs:17). The code does not check this. A
  non-empty image that is larger in some dimension than the buffer it is
  packed into makes `get_pixel_mut` panic. An empty image writes nothing.
  The model therefore makes "every packed image is empty or fits in the
  buffer it is packed into" a precondition (`Compositor.DiffuseFits`,
  `PackedFits`, `ParallaxFits`, `Catalog.AllFit`). A packed image smaller
  than the buffer overwrites only its own extent, and the rest of the buffer
  keeps the copied value.

## Model

| member | source | states |
|---|---|---|
| `FormatPolicy.PickFormat` | src/forward.rs:61-90 | legacy mode yields only BC1, BC3 or R8G8B8A8; R8G8B8A8 exactly for `Uncompressed`; BC3 exactly for legacy full alpha; BC4 exactly for modern grayscale; modern full alpha is BC7; modern RGB and cutout are BC7 iff high quality, else BC1 |
| `FormatPolicy.HighQualityMattersOnlyFor` | src/forward.rs:70-88 | the high-quality flag changes the format iff the mode is modern and the category is RGB or cutout alpha |
| `FormatPolicy.PickFormatMatchesTable` | src/forward.rs:61-90 | every (category, legacy, high-quality) triple has a row in the written-out 20-row table, and every matching row gives `PickFormat`'s answer |
| `Classifier.SampleMax` | src/forward.rs:364-379 | the bound the cutout scan compares against (with `IsExtreme`, "equal to MIN or MAX") is `u8::MAX` except for 16-bit RGBA, where it is `u16::MAX` |
| `Classifier.AllExtreme` | src/forward.rs:360-364 | the left-to-right `all` scan is true iff every sample equals 0 or the maximum |
| `Classifier.DetermineImageProps` | src/forward.rs:354-393 | L8/La8/L16/La16 iff Grayscale; Rgb8/Rgb16/Rgb32F iff RGB; cutout iff Rgba8/Rgba16 and every sample of every channel is 0 or MAX; full alpha iff Rgba32F or Rgba8/Rgba16 with some other sample; None iff any other colour type; never Uncompressed |
| `Classifier.IntermediateColourSampleMeansFullAlpha` | src/forward.rs:359-369 | one intermediate sample in any channel of an Rgba8 image makes it full alpha |
| `Compositor.CopyFrom` | src/forward.rs:240-241 | the new buffer has the image's size and holds its RGBA8 conversion at every pixel |
| `Compositor.PackIntoChannel` | src/forward.rs:282-289 | inside the packed image's extent, channel k becomes that image's channel 0 and the other channels are unchanged; outside it, nothing changes; requires the image to fit |
| `Compositor.PackIfPresent` | src/forward.rs:195-226 | an optional image, when present, has its channel 0 written into channel k over its extent; every other pixel and channel is unchanged; an absent image changes nothing |
| `Compositor.CreateGeneric` | src/forward.rs:238-262 | a texture iff the image is present; it is a straight copy with the slot's fixed category and `pick_format(category, legacy, high_quality)`; the buffer is newly allocated |
| `Compositor.CreateDiffuse` | src/forward.rs:395-433 | None iff the diffuse image is absent or unclassifiable; with terrain parallax and height, the category is full alpha and alpha inside height's extent is height's channel 0; otherwise a plain copy with the classifier's category; the buffer is newly allocated |
| `Compositor.CreateAlphaPacked` | src/forward.rs:311-339 | copy of the primary image with the secondary's channel 0 in alpha over its extent; full alpha iff the secondary is present or the primary has alpha, else RGB; format chosen with high quality forced on; the buffer is newly allocated |
| `Compositor.CreateNormal` | src/forward.rs:309-352 | the normal texture exists iff the normal image does; specular channel 0 goes into alpha; category and forced high quality as in `CreateAlphaPacked`; the buffer is newly allocated |
| `Compositor.CreateInner` | src/forward.rs:264-307 | the inner texture exists iff inner_diffuse does; inner_depth channel 0 goes into alpha; category and forced high quality as in `CreateAlphaPacked`; the buffer is newly allocated |
| `Compositor.ParallaxSize` | src/forward.rs:171-188 | no size iff none of env_mask, glossiness, metallic and height is present; otherwise the size of the first present one in that order |
| `Compositor.CreateComplexParallax` | src/forward.rs:170-236 | None iff none of env_mask, glossiness, metallic and height is present; otherwise the size of the first present one; each pixel is (env_mask, glossiness, metallic, height) channel 0 where present and covering, else the fill (0, 5, 0, 255); category full alpha; the buffer is newly allocated |
| `Compositor.ParallaxWithoutGlossinessOrMetallic` | src/forward.rs:189-226 | without glossiness and metallic, every pixel of the produced buffer has G = 5 and B = 0; R is env_mask's channel 0 where env_mask covers the pixel (the whole buffer when env_mask is present), else 0; A is height's channel 0 where height covers it, else 255 |
| `Compositor.AlphaPackedFormat` | src/forward.rs:335-339 | normal and inner textures ignore the user's quality flag: BC7 in modern mode, BC3 or BC1 in legacy mode |
| `Compositor.CopiedWithAlphaKeepsColour` | src/forward.rs:327-334 | after packing, R, G and B equal the primary image's everywhere; alpha equals the secondary's channel 0 where it covers the pixel, and the primary's alpha elsewhere |
| `Catalog.Suffix` | src/forward.rs:131-165 | the diffuse slot alone has the empty suffix; every other suffix starts with an underscore |
| `Catalog.SuffixInjective` | src/forward.rs:130-166 | the eleven slot suffixes are pairwise distinct |
| `Catalog.CreateSlot` | src/forward.rs:130-166 | each slot's rule yields a texture iff the slot's primary role is present (for `_m`: complex-parallax composite if the flag is set, else env_mask via the generic rule); the texture's buffer is newly allocated |
| `Catalog.ProducedEntries` | src/forward.rs:127-168 | a produced list holds, entry by entry, the emitted slots' suffixes and the textures their rules made, in catalog order |
| `Catalog.PushSlot` | src/forward.rs:130-166 | one `if let Some(tex) = … { push((suffix, tex)) }` step keeps the produced list equal to the emitted slots so far; it keeps the earlier entries and adds at most one, whose buffer is new |
| `Catalog.CreateTextures` | src/forward.rs:127-168 | the result lists exactly the emitted slots in catalog order, each under its suffix and holding its rule's texture; every buffer is newly allocated and no two entries share one |
| `Catalog.EmittedUpToOrdered` | src/forward.rs:127-168 | the slots emitted by the first n steps appear in strictly increasing catalog position, all before position n |
| `Catalog.EmittedUpToMembers` | src/forward.rs:127-168 | a slot is emitted by the first n steps iff it comes before position n and its primary role is present |
| `Catalog.EmittedInCatalogOrder` | src/forward.rs:127-168 | over the whole catalog: strictly ordered (so at most one entry per suffix), and a slot appears iff its primary role is present |
| `Catalog.ForwardFileNamesDistinct` | src/forward.rs:457-459 | two textures of one run never get the same `.dds` file name |
| `Catalog.OnlySpecular` | src/forward.rs:161-163 | with only a specular image, exactly one slot, `_s`, is emitted |
| `Config.OutputFileName` | src/forward.rs:459 | the file name is the name prefix, then the suffix, then the extension |
| `Config.OutputFileNameInjective` | src/backward.rs:69 | with a common prefix and extension, equal file names mean equal suffixes |
| `Backward.AllOpaque` | src/backward.rs:48 | the "every alpha is 255" test holds for an image with no pixels |
| `Backward.IntoRgb8` | src/backward.rs:46 | the RGB image has the source's size, and its R, G, B equal the source's at every pixel |
| `Backward.CreateImages` | src/backward.rs:45-58 | one or two entries; the first is `(name, rgb)` with the source's RGB; the second exists iff some alpha is not 255, is named `name + "_alpha"`, and holds the alpha channel at every pixel; both images are newly allocated |
| `Backward.BackwardFileNamesDistinct` | src/backward.rs:68-69 | the RGB and alpha images are written to different `.png` files |
| `Backward.OpaqueGivesOneImage` | src/backward.rs:48 | an all-opaque image, an empty one included, gives exactly one entry |
| `RoundTrip.TerrainHeightSurvivesSplit` | src/forward.rs:407-415 | a terrain diffuse texture whose height has the diffuse's size and some value other than 255, when split backward (src/backward.rs:48-56), gives an `_alpha` image equal to the height's channel 0 |
| `RoundTrip.PlainDiffuseAlphaIsOwnAlpha` | src/backward.rs:48-56 | without terrain parallax, a split diffuse texture's `_alpha` image is the diffuse image's own alpha |

## Left out

- Directory scanning (`get_file_paths`, `get_dds_file_paths`) and the file-stem and extension filter are left out. They are filesystem I/O. A role is present when its image is `Some`.
- Image decoding (`load_input_image`) is left out. Decode failure appears only as an absent role.
- The file create and write loops of `run_forward` and `run_backward` are left out. Only the output file name (`name + suffix + ext`) is modelled; the output directory join is not.
- `src/main.rs` is not part of this model: argh parsing, the input/output directory options, the `backward` switch and the output-directory fallback. Only the flag record `Config.Flags` is kept.
- DDS encoding (`dds_from_image`), BC block compression, mipmap generation and `Dds::read` / `write` / `image_from_dds` are external. A `Texture` holds the buffer and the format passed to the encoder; the encoder's `.unwrap()` panics are not modelled.
- `Backward.CreateImages` starts from the decoded RGBA8 image. The early `vec![]` returns for an unreadable or undecodable texture (src/backward.rs:37-44) and the `.unwrap()` on opening the file are external I/O.
- The crate's pixel conversions (`copy_from`, `get_pixel`; channel replication for gray images, 16-bit down-scaling, float conversion) are the uninterpreted `rgba8` function. Nothing relates it to the raw sample buffer.
- The error branch of `copy_from` is not modelled. The target buffer always has the source's own size, so that branch cannot be taken.
- `println!` diagnostics are dropped, including the warning for terrain parallax without a height image and the report of an unsupported pixel format.
- Widths and heights are unbounded naturals rather than `u32`.
- `Catalog.CreateTextures` makes the same rule calls in the same order as `create_textures`. Its eleven written-out `if let … push` steps become one loop over `SlotOrder`. Each iteration is one `PushSlot` call, with `CreateSlot` selecting the slot's rule.
