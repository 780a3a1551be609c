/** The slot catalog and the forward driver (`create_textures`): which output
    slots exist, in which order they are emitted and which rule fills each. */
module Catalog {
  import opened ImageModel
  import opened FormatPolicy
  import opened Classifier
  import opened Config
  import opened Compositor

  /** The output slots, in emission order. */
  datatype Slot =
    | Diffuse | Normal | Glow | SkinTint | Parallax | Cubemap
    | EnvMask | Inner | Subsurface | Specular | Backlight

  const SlotCount: nat := 11

  const SlotOrder: seq<Slot> :=
    [Diffuse, Normal, Glow, SkinTint, Parallax, Cubemap, EnvMask, Inner, Subsurface, Specular, Backlight]

  /** The file-name suffix of each slot: empty for the diffuse slot, an
      underscore-led tag for every other. */
  function Suffix(s: Slot): (suf: string)
    ensures suf == "" <==> s == Diffuse
    ensures s != Diffuse ==> |suf| >= 2 && suf[0] == '_'
  {
    match s
    case Diffuse => ""
    case Normal => "_n"
    case Glow => "_g"
    case SkinTint => "_sk"
    case Parallax => "_p"
    case Cubemap => "_e"
    case EnvMask => "_m"
    case Inner => "_i"
    case Subsurface => "_subsurface"
    case Specular => "_s"
    case Backlight => "_b"
  }

  /** The position of a slot in `SlotOrder`. */
  function Rank(s: Slot): (k: nat)
    ensures k < SlotCount && SlotOrder[k] == s
  {
    match s
    case Diffuse => 0
    case Normal => 1
    case Glow => 2
    case SkinTint => 3
    case Parallax => 4
    case Cubemap => 5
    case EnvMask => 6
    case Inner => 7
    case Subsurface => 8
    case Specular => 9
    case Backlight => 10
  }

  /** Different slots write different files. */
  lemma SuffixInjective(s1: Slot, s2: Slot)
    requires Suffix(s1) == Suffix(s2)
    ensures s1 == s2
  {
    // distinct literals differ in length or in a character
    match s1
    case Diffuse =>
    case Normal => assert Suffix(s2)[1] == 'n';
    case Glow => assert Suffix(s2)[1] == 'g';
    case SkinTint => assert Suffix(s2)[1..] == "sk";
    case Parallax => assert Suffix(s2)[1] == 'p';
    case Cubemap => assert Suffix(s2)[1] == 'e';
    case EnvMask => assert Suffix(s2)[1] == 'm';
    case Inner => assert Suffix(s2)[1] == 'i';
    case Subsurface =>
    case Specular => assert Suffix(s2)[1] == 's';
    case Backlight => assert Suffix(s2)[1] == 'b';
  }

  /** Is the primary role of the slot present (so that its rule produces a texture)?
      The diffuse slot also needs a classifiable image; the `_m` slot in complex
      parallax mode needs any of env_mask, glossiness, metallic, height. */
  predicate Emits(s: Slot, images: InputImages, flags: Flags) {
    match s
    case Diffuse => images.diffuse.Some? && DetermineImageProps(images.diffuse.value).Some?
    case Normal => images.normal.Some?
    case Glow => images.glow.Some?
    case SkinTint => images.skinTint.Some?
    case Parallax => images.height.Some?
    case Cubemap => images.cubemap.Some?
    case EnvMask => if flags.complexParallax then ParallaxSize(images).Some? else images.envMask.Some?
    case Inner => images.innerDiffuse.Some?
    case Subsurface => images.subsurface.Some?
    case Specular => images.specular.Some?
    case Backlight => images.backlight.Some?
  }

  /** The slots among the first `n` of `SlotOrder` that are emitted, in order. */
  function EmittedUpTo(n: nat, images: InputImages, flags: Flags): seq<Slot>
    requires n <= SlotCount
  {
    if n == 0 then []
    else
      var s := SlotOrder[n - 1];
      EmittedUpTo(n - 1, images, flags) + (if Emits(s, images, flags) then [s] else [])
  }

  function Emitted(images: InputImages, flags: Flags): seq<Slot> {
    EmittedUpTo(SlotCount, images, flags)
  }

  /** The texture the slot's rule produces. */
  ghost predicate IsSlotTexture(s: Slot, images: InputImages, flags: Flags, t: Texture)
    requires Emits(s, images, flags)
    reads t.buffer
  {
    match s
    case Diffuse => IsDiffuseTexture(images, flags, t)
    case Normal => IsAlphaPackedTexture(images.normal.value, images.specular, flags, t)
    case Glow => IsGenericTexture(images.glow.value, RGB, flags, t)
    case SkinTint => IsGenericTexture(images.skinTint.value, RGB, flags, t)
    case Parallax => IsGenericTexture(images.height.value, Grayscale, flags, t)
    case Cubemap => IsGenericTexture(images.cubemap.value, Grayscale, flags, t)
    case EnvMask =>
      if flags.complexParallax then IsParallaxTexture(images, flags, t)
      else IsGenericTexture(images.envMask.value, Grayscale, flags, t)
    case Inner => IsAlphaPackedTexture(images.innerDiffuse.value, images.innerDepth, flags, t)
    case Subsurface => IsGenericTexture(images.subsurface.value, RGB, flags, t)
    case Specular => IsGenericTexture(images.specular.value, Grayscale, flags, t)
    case Backlight => IsGenericTexture(images.backlight.value, RGB, flags, t)
  }

  /** Every image packed into another slot's buffer fits inside it. */
  predicate AllFit(images: InputImages, flags: Flags) {
    DiffuseFits(images, flags) &&
    PackedFits(images.normal, images.specular) &&
    PackedFits(images.innerDiffuse, images.innerDepth) &&
    (flags.complexParallax ==> ParallaxFits(images))
  }

  /** The textures so far are the ones the rules of the first `n` slots
      produced: one entry per emitted slot, last slot last. */
  ghost predicate Produced(n: nat, images: InputImages, flags: Flags, textures: seq<(string, Texture)>)
    requires n <= SlotCount
    reads set i | 0 <= i < |textures| :: textures[i].1.buffer
  {
    if n == 0 then textures == []
    else
      var s := SlotOrder[n - 1];
      if Emits(s, images, flags) then
        |textures| > 0 &&
        textures[|textures| - 1].0 == Suffix(s) &&
        IsSlotTexture(s, images, flags, textures[|textures| - 1].1) &&
        Produced(n - 1, images, flags, textures[..|textures| - 1])
      else
        Produced(n - 1, images, flags, textures)
  }

  /** `Produced` entry by entry: the i-th texture belongs to the i-th emitted slot. */
  lemma {:induction false} ProducedEntries(n: nat, images: InputImages, flags: Flags, textures: seq<(string, Texture)>)
    requires n <= SlotCount
    requires Produced(n, images, flags, textures)
    ensures |textures| == |EmittedUpTo(n, images, flags)|
    ensures forall i | 0 <= i < |textures| ::
      textures[i].0 == Suffix(EmittedUpTo(n, images, flags)[i]) &&
      Emits(EmittedUpTo(n, images, flags)[i], images, flags) &&
      IsSlotTexture(EmittedUpTo(n, images, flags)[i], images, flags, textures[i].1)
  {
    if n > 0 {
      var s := SlotOrder[n - 1];
      if Emits(s, images, flags) {
        var prefix := textures[..|textures| - 1];
        ProducedEntries(n - 1, images, flags, prefix);
        assert EmittedUpTo(n, images, flags) == EmittedUpTo(n - 1, images, flags) + [s];
        assert forall i | 0 <= i < |prefix| :: textures[i] == prefix[i];
      } else {
        ProducedEntries(n - 1, images, flags, textures);
        assert EmittedUpTo(n, images, flags) == EmittedUpTo(n - 1, images, flags);
      }
    }
  }

  /** The rule of each slot, as `create_textures` invokes it. */
  method CreateSlot(s: Slot, images: InputImages, flags: Flags) returns (tex: Option<Texture>)
    requires AllFit(images, flags)
    ensures tex.Some? <==> Emits(s, images, flags)
    ensures tex.Some? ==> IsSlotTexture(s, images, flags, tex.value)
    ensures tex.Some? ==> fresh(tex.value.buffer)
  {
    match s
    case Diffuse => tex := CreateDiffuse(images, flags);
    case Normal => tex := CreateNormal(images, flags);
    case Glow => tex := CreateGeneric(images.glow, RGB, flags);
    case SkinTint => tex := CreateGeneric(images.skinTint, RGB, flags);
    case Parallax => tex := CreateGeneric(images.height, Grayscale, flags);
    case Cubemap => tex := CreateGeneric(images.cubemap, Grayscale, flags);
    case EnvMask =>
      if flags.complexParallax {
        tex := CreateComplexParallax(images, flags);
      } else {
        tex := CreateGeneric(images.envMask, Grayscale, flags);
      }
    case Inner => tex := CreateInner(images, flags);
    case Subsurface => tex := CreateGeneric(images.subsurface, RGB, flags);
    case Specular => tex := CreateGeneric(images.specular, Grayscale, flags);
    case Backlight => tex := CreateGeneric(images.backlight, RGB, flags);
  }

  /** `if let Some(tex) = <rule> { textures.push((suffix, tex)); }` for the
      slot at position `n` of the catalog. */
  method PushSlot(s: Slot, n: nat, images: InputImages, flags: Flags, textures: seq<(string, Texture)>)
    returns (result: seq<(string, Texture)>)
    requires n == Rank(s)
    requires AllFit(images, flags)
    requires Produced(n, images, flags, textures)
    ensures Produced(n + 1, images, flags, result)
    ensures |textures| <= |result| <= |textures| + 1
    ensures result[..|textures|] == textures
    ensures |result| == |textures| + 1 ==> fresh(result[|textures|].1.buffer)
  {
    var tex := CreateSlot(s, images, flags);
    // the rule only allocates: the textures pushed so far are untouched
    assert forall i | 0 <= i < |textures| :: unchanged(textures[i].1.buffer);
    if tex.Some? {
      result := textures + [(Suffix(s), tex.value)];
      assert result[..|result| - 1] == textures;
    } else {
      result := textures;
    }
  }

  /** `create_textures`: run every slot's rule in catalog order and keep the
      textures produced, each in a buffer of its own. The eleven `if let` steps of the source are the
      iterations of one loop over `SlotOrder`. */
  method CreateTextures(images: InputImages, flags: Flags) returns (textures: seq<(string, Texture)>)
    requires AllFit(images, flags)
    ensures |textures| == |Emitted(images, flags)|
    ensures forall i | 0 <= i < |textures| ::
      textures[i].0 == Suffix(Emitted(images, flags)[i]) &&
      Emits(Emitted(images, flags)[i], images, flags) &&
      IsSlotTexture(Emitted(images, flags)[i], images, flags, textures[i].1)
    ensures forall i | 0 <= i < |textures| :: fresh(textures[i].1.buffer)
    ensures forall i, j | 0 <= i < j < |textures| :: textures[i].1.buffer != textures[j].1.buffer
  {
    textures := [];
    for k := 0 to SlotCount
      invariant Produced(k, images, flags, textures)
      invariant forall i | 0 <= i < |textures| :: fresh(textures[i].1.buffer)
      invariant forall i, j | 0 <= i < j < |textures| :: textures[i].1.buffer != textures[j].1.buffer
    {
      textures := PushSlot(SlotOrder[k], k, images, flags, textures);
    }
    ProducedEntries(SlotCount, images, flags, textures);
  }

  // ---------------------------------------------------------------------------
  // Properties of the emitted slot list

  /** Emitted slots appear in strictly increasing catalog position (so at most
      once each), all before the cut. */
  lemma {:induction false} EmittedUpToOrdered(n: nat, images: InputImages, flags: Flags)
    requires n <= SlotCount
    ensures forall i, j | 0 <= i < j < |EmittedUpTo(n, images, flags)| ::
      Rank(EmittedUpTo(n, images, flags)[i]) < Rank(EmittedUpTo(n, images, flags)[j])
    ensures forall i | 0 <= i < |EmittedUpTo(n, images, flags)| :: Rank(EmittedUpTo(n, images, flags)[i]) < n
  {
    if n > 0 {
      EmittedUpToOrdered(n - 1, images, flags);
      assert Rank(SlotOrder[n - 1]) == n - 1;
    }
  }

  /** A slot is emitted before the cut exactly when it comes before the cut and
      its primary role is present. */
  lemma {:induction false} EmittedUpToMembers(n: nat, images: InputImages, flags: Flags)
    requires n <= SlotCount
    ensures forall s :: s in EmittedUpTo(n, images, flags) <==> Rank(s) < n && Emits(s, images, flags)
  {
    if n > 0 {
      EmittedUpToMembers(n - 1, images, flags);
      var prev, s := EmittedUpTo(n - 1, images, flags), SlotOrder[n - 1];
      assert EmittedUpTo(n, images, flags) == prev + (if Emits(s, images, flags) then [s] else []);
      forall t
        ensures t in EmittedUpTo(n, images, flags) <==> Rank(t) < n && Emits(t, images, flags)
      {
        // the slot at position n - 1 is s
        if Rank(t) == n - 1 {
          assert t == s;
        }
      }
    }
  }

  /** Over the whole catalog: strictly ordered, and a slot is emitted exactly
      when its primary role is present. */
  lemma EmittedInCatalogOrder(images: InputImages, flags: Flags)
    ensures forall i, j | 0 <= i < j < |Emitted(images, flags)| ::
      Rank(Emitted(images, flags)[i]) < Rank(Emitted(images, flags)[j])
    ensures forall s :: s in Emitted(images, flags) <==> Emits(s, images, flags)
  {
    EmittedUpToOrdered(SlotCount, images, flags);
    EmittedUpToMembers(SlotCount, images, flags);
  }

  /** No two textures of one run are written to the same `.dds` file. */
  lemma ForwardFileNamesDistinct(images: InputImages, flags: Flags, i: nat, j: nat)
    requires i < j < |Emitted(images, flags)|
    ensures OutputFileName(flags.name, Suffix(Emitted(images, flags)[i]), ".dds")
         != OutputFileName(flags.name, Suffix(Emitted(images, flags)[j]), ".dds")
  {
    EmittedInCatalogOrder(images, flags);
    var e := Emitted(images, flags);
    if OutputFileName(flags.name, Suffix(e[i]), ".dds") == OutputFileName(flags.name, Suffix(e[j]), ".dds") {
      OutputFileNameInjective(flags.name, Suffix(e[i]), Suffix(e[j]), ".dds");
      SuffixInjective(e[i], e[j]);
      assert false;
    }
  }

  /** Only a specular image: exactly one slot, `_s`. */
  lemma OnlySpecular(images: InputImages, flags: Flags)
    requires images == InputImages(None, None, images.specular, None, None, None, None,
                                   None, None, None, None, None, None, None)
    requires images.specular.Some?
    ensures Emitted(images, flags) == [Specular]
  {
    // unfold the catalog one slot at a time
    assert EmittedUpTo(1, images, flags) == [];
    assert EmittedUpTo(2, images, flags) == [];
    assert EmittedUpTo(3, images, flags) == [];
    assert EmittedUpTo(4, images, flags) == [];
    assert EmittedUpTo(5, images, flags) == [];
    assert EmittedUpTo(6, images, flags) == [];
    assert EmittedUpTo(7, images, flags) == [];
    assert EmittedUpTo(8, images, flags) == [];
    assert EmittedUpTo(9, images, flags) == [];
    assert EmittedUpTo(10, images, flags) == [Specular];
  }
}
