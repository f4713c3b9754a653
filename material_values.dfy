/** Material property values (engine/crates/impact_material/src/values.rs):
    which value variant a fixed or physical material is stored as, the
    property flags and instance feature type a variant carries, and the
    vertex attribute locations of the material features. Floating-point
    property values are carried as `real` and never computed with. */
module MaterialValues {
  import opened Wrappers

  /** `RGBColor`. */
  datatype RGBColor = RGBColor(r: real, g: real, b: real)

  /** `ParallaxMap`: the two values a parallax-mapped material copies. */
  datatype ParallaxMap = ParallaxMap(displacementScale: real, uvPerDistance: (real, real))

  /** The four scalar properties every physical variant stores. */
  datatype PhysicalScalars = PhysicalScalars(
    specularReflectance: real, roughness: real, metalness: real, emissiveLuminance: real)

  /** `FixedMaterialPropertyValues`. */
  datatype FixedValues = FixedColor(color: RGBColor) | NoFixedValues

  /** `PhysicalMaterialPropertyValues`. */
  datatype PhysicalValues =
    | UniformColor(scalars: PhysicalScalars, color: RGBColor)
    | TexturedColor(scalars: PhysicalScalars)
    | UniformColorParallaxMapped(scalars: PhysicalScalars, color: RGBColor, parallax: ParallaxMap)
    | TexturedColorParallaxMapped(scalars: PhysicalScalars, parallax: ParallaxMap)

  /** `MaterialPropertyValues`. */
  datatype MaterialPropertyValues = Fixed(fixed: FixedValues) | Physical(physical: PhysicalValues)

  /** `MaterialPropertyFlags`, a `u8` bit set. */
  type MaterialPropertyFlags = bv8

  const HAS_COLOR: MaterialPropertyFlags := 1
  const USES_PARALLAX_MAPPING: MaterialPropertyFlags := 2

  /** Whether the values hold a uniform color. */
  predicate HasUniformColor(v: MaterialPropertyValues)
  {
    match v
    case Fixed(f) => f.FixedColor?
    case Physical(p) => p.UniformColor? || p.UniformColorParallaxMapped?
  }

  /** Whether the values hold parallax mapping parameters. */
  predicate IsParallaxMapped(v: MaterialPropertyValues)
  {
    v.Physical? && (v.physical.UniformColorParallaxMapped? || v.physical.TexturedColorParallaxMapped?)
  }

  /** `FixedMaterialPropertyValues::from_properties`. */
  function FixedFromProperties(fixedColor: Option<RGBColor>): (v: FixedValues)
    ensures v.FixedColor? <==> fixedColor.Some?
    ensures v.FixedColor? ==> v.color == fixedColor.value
  {
    match fixedColor
    case Some(color) => FixedColor(color)
    case None => NoFixedValues
  }

  /** `PhysicalMaterialPropertyValues::from_properties`: the variant is
      chosen by whether a uniform color and a parallax map are given, and
      every given value is kept. The cast of the displacement scale to
      `f32` is not modelled. */
  function PhysicalFromProperties(uniformColor: Option<RGBColor>, scalars: PhysicalScalars,
                                  parallaxMap: Option<ParallaxMap>): (v: PhysicalValues)
    ensures HasUniformColor(Physical(v)) <==> uniformColor.Some?
    ensures IsParallaxMapped(Physical(v)) <==> parallaxMap.Some?
    ensures v.scalars == scalars
    ensures uniformColor.Some? ==> v.color == uniformColor.value
    ensures parallaxMap.Some? ==> v.parallax == parallaxMap.value
  {
    match (uniformColor, parallaxMap)
    case (Some(color), None) => UniformColor(scalars, color)
    case (None, None) => TexturedColor(scalars)
    case (Some(color), Some(parallax)) => UniformColorParallaxMapped(scalars, color, parallax)
    case (None, Some(parallax)) => TexturedColorParallaxMapped(scalars, parallax)
  }

  /** The properties a physical variant was built from. */
  function PhysicalProperties(v: PhysicalValues): (Option<RGBColor>, PhysicalScalars, Option<ParallaxMap>)
  {
    match v
    case UniformColor(s, c) => (Some(c), s, None)
    case TexturedColor(s) => (None, s, None)
    case UniformColorParallaxMapped(s, c, p) => (Some(c), s, Some(p))
    case TexturedColorParallaxMapped(s, p) => (None, s, Some(p))
  }

  /** Every physical variant is what `from_properties` makes of its own
      properties, and `from_properties` loses no input: the four variants
      cover exactly the four combinations of optional inputs. */
  lemma PhysicalFromPropertiesRoundTrip(v: PhysicalValues, uniformColor: Option<RGBColor>,
                                        scalars: PhysicalScalars, parallaxMap: Option<ParallaxMap>)
    ensures var (c, s, p) := PhysicalProperties(v); PhysicalFromProperties(c, s, p) == v
    ensures PhysicalProperties(PhysicalFromProperties(uniformColor, scalars, parallaxMap))
      == (uniformColor, scalars, parallaxMap)
  {
  }

  /** `MaterialPropertyValues::is_fixed`. */
  function IsFixed(v: MaterialPropertyValues): (b: bool)
    ensures b <==> !IsPhysical(v)
  {
    v.Fixed?
  }

  /** `MaterialPropertyValues::is_physical`. */
  function IsPhysical(v: MaterialPropertyValues): bool
  {
    v.Physical?
  }

  /** `flags`: the color flag marks a uniform (fixed or physical) color,
      the parallax flag marks parallax mapping, and no other bit is
      used. */
  function Flags(v: MaterialPropertyValues): (flags: MaterialPropertyFlags)
    ensures (flags & HAS_COLOR != 0) <==> HasUniformColor(v)
    ensures (flags & USES_PARALLAX_MAPPING != 0) <==> IsParallaxMapped(v)
    ensures flags & !(HAS_COLOR | USES_PARALLAX_MAPPING) == 0
  {
    match v
    case Fixed(FixedColor(_)) => HAS_COLOR
    case Fixed(NoFixedValues) => 0
    case Physical(UniformColor(_, _)) => HAS_COLOR
    case Physical(TexturedColor(_)) => 0
    case Physical(UniformColorParallaxMapped(_, _, _)) => HAS_COLOR | USES_PARALLAX_MAPPING
    case Physical(TexturedColorParallaxMapped(_, _)) => USES_PARALLAX_MAPPING
  }

  /** The flags of values built from properties report exactly which
      optional properties were given. */
  lemma FlagsReflectProperties(fixedColor: Option<RGBColor>, uniformColor: Option<RGBColor>,
                               scalars: PhysicalScalars, parallaxMap: Option<ParallaxMap>)
    ensures Flags(Fixed(FixedFromProperties(fixedColor))) == if fixedColor.Some? then HAS_COLOR else 0
    ensures var flags := Flags(Physical(PhysicalFromProperties(uniformColor, scalars, parallaxMap)));
      && ((flags & HAS_COLOR != 0) <==> uniformColor.Some?)
      && ((flags & USES_PARALLAX_MAPPING != 0) <==> parallaxMap.Some?)
  {
  }

  /** `InstanceFeatureTypeID`, a 64-bit hash. */
  type InstanceFeatureTypeID = nat

  /** `InstanceFeatureTypeID::not_applicable()`, taken to be the zeroed
      hash like the `not_applicable` feature ID of impact_model. */
  const NOT_APPLICABLE_TYPE_ID: InstanceFeatureTypeID := 0

  /** The `FEATURE_TYPE_ID` of each feature type. They are hashes of the
      type names, so only their being non-zero and distinct is assumed. */
  datatype FeatureTypeIDs = FeatureTypeIDs(
    fixedColor: InstanceFeatureTypeID,
    uniformColor: InstanceFeatureTypeID,
    texturedColor: InstanceFeatureTypeID,
    uniformColorParallaxMapped: InstanceFeatureTypeID,
    texturedColorParallaxMapped: InstanceFeatureTypeID)
  {
    function AsSeq(): seq<InstanceFeatureTypeID>
    {
      [fixedColor, uniformColor, texturedColor, uniformColorParallaxMapped, texturedColorParallaxMapped]
    }

    predicate Valid()
    {
      && (forall i :: 0 <= i < 5 ==> AsSeq()[i] != NOT_APPLICABLE_TYPE_ID)
      && (forall i, j :: 0 <= i < j < 5 ==> AsSeq()[i] != AsSeq()[j])
    }
  }

  /** `instance_feature_type_id`: the feature type of the variant, or the
      not-applicable ID for fixed values without a color. */
  function InstanceFeatureTypeId(v: MaterialPropertyValues, ids: FeatureTypeIDs): (id: InstanceFeatureTypeID)
    ensures ids.Valid() ==> (id == NOT_APPLICABLE_TYPE_ID <==> v == Fixed(NoFixedValues))
  {
    assert ids.AsSeq()[0] == ids.fixedColor && ids.AsSeq()[1] == ids.uniformColor;
    assert ids.AsSeq()[2] == ids.texturedColor && ids.AsSeq()[3] == ids.uniformColorParallaxMapped;
    assert ids.AsSeq()[4] == ids.texturedColorParallaxMapped;
    match v
    case Fixed(FixedColor(_)) => ids.fixedColor
    case Fixed(NoFixedValues) => NOT_APPLICABLE_TYPE_ID
    case Physical(UniformColor(_, _)) => ids.uniformColor
    case Physical(TexturedColor(_)) => ids.texturedColor
    case Physical(UniformColorParallaxMapped(_, _, _)) => ids.uniformColorParallaxMapped
    case Physical(TexturedColorParallaxMapped(_, _)) => ids.texturedColorParallaxMapped
  }

  /** Which of the six value shapes `v` has. */
  function VariantIdx(v: MaterialPropertyValues): nat
  {
    match v
    case Fixed(FixedColor(_)) => 0
    case Fixed(NoFixedValues) => 5
    case Physical(UniformColor(_, _)) => 1
    case Physical(TexturedColor(_)) => 2
    case Physical(UniformColorParallaxMapped(_, _, _)) => 3
    case Physical(TexturedColorParallaxMapped(_, _)) => 4
  }

  /** With distinct feature type IDs, the type ID tells the variant: two
      values share a type ID exactly when they have the same shape. */
  lemma TypeIdIdentifiesVariant(v: MaterialPropertyValues, w: MaterialPropertyValues, ids: FeatureTypeIDs)
    requires ids.Valid()
    ensures InstanceFeatureTypeId(v, ids) == InstanceFeatureTypeId(w, ids) <==> VariantIdx(v) == VariantIdx(w)
  {
    var s := ids.AsSeq();
    if VariantIdx(v) < 5 {
      assert InstanceFeatureTypeId(v, ids) == s[VariantIdx(v)];
    }
    if VariantIdx(w) < 5 {
      assert InstanceFeatureTypeId(w, ids) == s[VariantIdx(w)];
    }
  }

  /** `instance_feature_type_id_if_applicable`. */
  function InstanceFeatureTypeIdIfApplicable(v: MaterialPropertyValues, ids: FeatureTypeIDs)
    : (r: Option<InstanceFeatureTypeID>)
    ensures r.None? <==> InstanceFeatureTypeId(v, ids) == NOT_APPLICABLE_TYPE_ID
    ensures r.Some? ==> r.value == InstanceFeatureTypeId(v, ids)
    ensures ids.Valid() ==> (r.None? <==> v == Fixed(NoFixedValues))
  {
    var id := InstanceFeatureTypeId(v, ids);
    if id == NOT_APPLICABLE_TYPE_ID then None else Some(id)
  }

  /** `MaterialInstanceFeatureLocation`. */
  datatype MaterialInstanceFeatureLocation =
    | SpecularReflectance
    | Roughness
    | Metalness
    | EmissiveLuminance
    | Color
    | ParallaxDisplacementScale
    | ParallaxUVPerDistance

  /** The locations in declaration order. */
  const ALL_LOCATIONS: seq<MaterialInstanceFeatureLocation> := [
    SpecularReflectance, Roughness, Metalness, EmissiveLuminance, Color,
    ParallaxDisplacementScale, ParallaxUVPerDistance]

  /** The vertex attribute location of a material feature: the variants
      take consecutive locations from `materialStart` in declaration
      order. `MATERIAL_START` comes from impact_gpu, which is not part of
      this model, so it is a parameter. */
  function LocationValue(location: MaterialInstanceFeatureLocation, materialStart: nat): (value: nat)
    ensures materialStart <= value < materialStart + |ALL_LOCATIONS|
    ensures ALL_LOCATIONS[value - materialStart] == location
  {
    match location
    case SpecularReflectance => materialStart
    case Roughness => materialStart + 1
    case Metalness => materialStart + 2
    case EmissiveLuminance => materialStart + 3
    case Color => materialStart + 4
    case ParallaxDisplacementScale => materialStart + 5
    case ParallaxUVPerDistance => materialStart + 6
  }

  /** Distinct locations never share a vertex attribute location. */
  lemma LocationValuesAreDistinct(a: MaterialInstanceFeatureLocation, b: MaterialInstanceFeatureLocation,
                                  materialStart: nat)
    ensures LocationValue(a, materialStart) == LocationValue(b, materialStart) <==> a == b
  {
    var va, vb := LocationValue(a, materialStart), LocationValue(b, materialStart);
    assert ALL_LOCATIONS[va - materialStart] == a && ALL_LOCATIONS[vb - materialStart] == b;
  }

  /** The vertex attributes each feature type declares, in order. Fixed
      values without a color have no feature. */
  function FeatureAttributes(v: MaterialPropertyValues): seq<MaterialInstanceFeatureLocation>
  {
    match v
    case Fixed(FixedColor(_)) => [Color]
    case Fixed(NoFixedValues) => []
    case Physical(UniformColor(_, _)) =>
      [SpecularReflectance, Roughness, Metalness, EmissiveLuminance, Color]
    case Physical(TexturedColor(_)) =>
      [SpecularReflectance, Roughness, Metalness, EmissiveLuminance]
    case Physical(UniformColorParallaxMapped(_, _, _)) =>
      [SpecularReflectance, Roughness, Metalness, EmissiveLuminance, Color,
       ParallaxDisplacementScale, ParallaxUVPerDistance]
    case Physical(TexturedColorParallaxMapped(_, _)) =>
      [SpecularReflectance, Roughness, Metalness, EmissiveLuminance,
       ParallaxDisplacementScale, ParallaxUVPerDistance]
  }

  /** The attribute lists agree with the flags and the feature type: the
      color attribute is there exactly when the color flag is set, the
      parallax attributes exactly when the parallax flag is set, the
      physical scalars exactly for physical values, the list is empty
      exactly when no feature applies, and the locations increase. */
  lemma FeatureAttributesMatchFlags(v: MaterialPropertyValues, ids: FeatureTypeIDs, materialStart: nat)
    requires ids.Valid()
    ensures Color in FeatureAttributes(v) <==> Flags(v) & HAS_COLOR != 0
    ensures ParallaxDisplacementScale in FeatureAttributes(v) <==> Flags(v) & USES_PARALLAX_MAPPING != 0
    ensures ParallaxUVPerDistance in FeatureAttributes(v) <==> Flags(v) & USES_PARALLAX_MAPPING != 0
    ensures SpecularReflectance in FeatureAttributes(v) <==> IsPhysical(v)
    ensures |FeatureAttributes(v)| == 0 <==> InstanceFeatureTypeIdIfApplicable(v, ids).None?
    ensures forall i, j :: 0 <= i < j < |FeatureAttributes(v)| ==>
      LocationValue(FeatureAttributes(v)[i], materialStart) < LocationValue(FeatureAttributes(v)[j], materialStart)
  {
  }
}
