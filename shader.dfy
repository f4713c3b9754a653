/** Shader generation bookkeeping (src/rendering/shader.rs): the struct
    builders that lay out fields at running offsets and hand out vertex
    attribute locations, the interpretation of instance feature and
    material inputs into a material shader generator, and the input checks
    that precede code emission. The naga types, expressions and emitted
    code are represented by opaque handles. */
module ShaderGeneration {
  import opened Wrappers

  const U32_LIMIT: nat := 0x1_0000_0000

  /** `Handle<Type>` and `Handle<Expression>`. */
  type TypeHandle = nat
  type ExprHandle = nat

  /** naga's `Interpolation` and `Sampling`. */
  datatype Interpolation = Perspective | Linear | Flat
  datatype Sampling = Center | Centroid | Sample

  /** naga's `Binding`, restricted to the two kinds the builders use. */
  datatype Binding =
    | Location(location: nat, interpolation: Option<Interpolation>, sampling: Option<Sampling>)
    | BuiltinPosition

  /** naga's `StructMember`. */
  datatype StructMember = StructMember(name: string, ty: TypeHandle, binding: Option<Binding>, offset: nat)

  /** The struct `Type` `into_type` produces. */
  datatype StructType = StructType(name: string, members: seq<StructMember>, span: nat)

  /** Sum of field sizes. */
  function Sum(sizes: seq<nat>): nat
  {
    if |sizes| == 0 then 0 else Sum(sizes[..|sizes| - 1]) + sizes[|sizes| - 1]
  }

  /** Each member sits at the sum of the sizes of the members before it. */
  ghost predicate PackedLayout(members: seq<StructMember>, sizes: seq<nat>)
  {
    && |members| == |sizes|
    && forall i :: 0 <= i < |members| ==> members[i].offset == Sum(sizes[..i])
  }

  lemma SumPrefixStep(sizes: seq<nat>, i: nat)
    requires i < |sizes|
    ensures Sum(sizes[..i + 1]) == Sum(sizes[..i]) + sizes[i]
  {
    assert sizes[..i + 1][..i] == sizes[..i];
  }

  lemma {:induction false} SumPrefixMonotone(sizes: seq<nat>, i: nat, j: nat)
    requires i <= j <= |sizes|
    ensures Sum(sizes[..i]) <= Sum(sizes[..j])
    decreases j - i
  {
    if i < j {
      SumPrefixStep(sizes, i);
      SumPrefixMonotone(sizes, i + 1, j);
    }
  }

  /** In a packed layout fields do not overlap: each field ends at or
      before the start of every later field, and all fields end within the
      span (the sum of all sizes). */
  lemma {:induction false} PackedFieldsDoNotOverlap(members: seq<StructMember>, sizes: seq<nat>)
    requires PackedLayout(members, sizes)
    ensures forall i, j :: 0 <= i < j < |members| ==> members[i].offset + sizes[i] <= members[j].offset
    ensures forall i :: 0 <= i < |members| ==> members[i].offset + sizes[i] <= Sum(sizes)
  {
    forall i, j | 0 <= i < j < |members|
      ensures members[i].offset + sizes[i] <= members[j].offset
    {
      SumPrefixStep(sizes, i);
      SumPrefixMonotone(sizes, i + 1, j);
    }
    forall i | 0 <= i < |members|
      ensures members[i].offset + sizes[i] <= Sum(sizes)
    {
      SumPrefixStep(sizes, i);
      SumPrefixMonotone(sizes, i + 1, |sizes|);
      assert sizes[..|sizes|] == sizes;
    }
  }

  /** `StructBuilder`. The sizes passed to `add_field` are kept as ghost
      state so the layout can be stated. */
  class StructBuilder {
    const typeName: string
    var fields: seq<StructMember>
    var offset: nat
    ghost var sizes: seq<nat>

    ghost predicate Valid()
      reads this
    {
      && PackedLayout(fields, sizes)
      && offset == Sum(sizes)
      && offset < U32_LIMIT
    }

    /** `StructBuilder::new`. */
    constructor (typeName: string)
      ensures Valid()
      ensures this.typeName == typeName && fields == [] && sizes == []
    {
      this.typeName := typeName;
      fields := [];
      offset := 0;
      sizes := [];
    }

    /** `n_fields`: one per added field, each with its recorded size. */
    function NFields(): (n: nat)
      reads this
      requires Valid()
      ensures n == |fields| == |sizes|
    {
      |fields|
    }

    /** `add_field`: the new field goes at the running offset, which then
        grows by its size; the result is the field's index. The `u32`
        offset must not overflow. */
    method AddField(name: string, ty: TypeHandle, binding: Option<Binding>, size: nat) returns (idx: nat)
      requires Valid() && offset + size < U32_LIMIT
      modifies this
      ensures Valid()
      ensures idx == old(|fields|) && idx < |fields|
      ensures fields == old(fields) + [StructMember(name, ty, binding, old(offset))]
      ensures sizes == old(sizes) + [size]
      ensures offset == old(offset) + size
    {
      idx := |fields|;
      fields := fields + [StructMember(name, ty, binding, offset)];
      ghost var oldSizes := sizes;
      sizes := sizes + [size];
      offset := offset + size;
      assert sizes[..|sizes| - 1] == oldSizes;
      forall i | 0 <= i < |fields|
        ensures fields[i].offset == Sum(sizes[..i])
      {
        if i < |fields| - 1 {
          assert sizes[..i] == oldSizes[..i];
        } else {
          assert sizes[..i] == oldSizes;
        }
      }
    }

    /** `into_type`: the span is the sum of all the field sizes. */
    function IntoType(): (t: StructType)
      reads this
      requires Valid()
      ensures t.name == typeName && t.members == fields
      ensures t.span == Sum(sizes)
      ensures forall i :: 0 <= i < |t.members| ==> t.members[i].offset + sizes[i] <= t.span
    {
      PackedFieldsDoNotOverlap(fields, sizes);
      StructType(typeName, fields, offset)
    }
  }

  /** Number of members with a location binding. */
  function LocationCount(members: seq<StructMember>): nat
  {
    if |members| == 0 then 0
    else
      var last := if IsLocationBound(members[|members| - 1]) then 1 else 0;
      LocationCount(members[..|members| - 1]) + last
  }

  predicate IsLocationBound(member: StructMember)
  {
    member.binding.Some? && member.binding.value.Location?
  }

  /** Location-bound members are numbered from zero in the order they were
      added, skipping the members bound otherwise. */
  ghost predicate ConsecutiveLocations(members: seq<StructMember>)
  {
    forall i :: 0 <= i < |members| && IsLocationBound(members[i]) ==>
      members[i].binding.value.location == LocationCount(members[..i])
  }

  lemma LocationCountStep(members: seq<StructMember>, i: nat)
    requires i < |members|
    ensures LocationCount(members[..i + 1]) == LocationCount(members[..i]) + (if IsLocationBound(members[i]) then 1 else 0)
  {
    assert members[..i + 1][..i] == members[..i];
  }

  lemma {:induction false} LocationCountMonotone(members: seq<StructMember>, i: nat, j: nat)
    requires i <= j <= |members|
    ensures LocationCount(members[..i]) <= LocationCount(members[..j])
    decreases j - i
  {
    if i < j {
      LocationCountStep(members, i);
      LocationCountMonotone(members, i + 1, j);
    }
  }

  /** Consecutive numbering gives every location-bound member its own
      location, increasing with the member index, and all of them lie
      below the count of location-bound members. */
  lemma {:induction false} ConsecutiveLocationsAreDistinct(members: seq<StructMember>)
    requires ConsecutiveLocations(members)
    ensures forall i, j :: 0 <= i < j < |members| && IsLocationBound(members[i]) && IsLocationBound(members[j]) ==>
      members[i].binding.value.location < members[j].binding.value.location
    ensures forall i :: 0 <= i < |members| && IsLocationBound(members[i]) ==>
      members[i].binding.value.location < LocationCount(members)
  {
    forall i, j | 0 <= i < j < |members| && IsLocationBound(members[i]) && IsLocationBound(members[j])
      ensures members[i].binding.value.location < members[j].binding.value.location
    {
      LocationCountStep(members, i);
      LocationCountMonotone(members, i + 1, j);
    }
    forall i | 0 <= i < |members| && IsLocationBound(members[i])
      ensures members[i].binding.value.location < LocationCount(members)
    {
      LocationCountStep(members, i);
      LocationCountMonotone(members, i + 1, |members|);
      assert members[..|members|] == members;
    }
  }

  /** Appending a member keeps the numbering consecutive when a location
      member takes the current count. */
  lemma AppendKeepsConsecutive(members: seq<StructMember>, member: StructMember)
    requires ConsecutiveLocations(members)
    requires IsLocationBound(member) ==> member.binding.value.location == LocationCount(members)
    ensures ConsecutiveLocations(members + [member])
    ensures LocationCount(members + [member]) == LocationCount(members) + (if IsLocationBound(member) then 1 else 0)
  {
    var all := members + [member];
    assert all[..|all| - 1] == members;
    forall i | 0 <= i < |all| && IsLocationBound(all[i])
      ensures all[i].binding.value.location == LocationCount(all[..i])
    {
      if i < |members| {
        assert all[..i] == members[..i];
      } else {
        assert all[..i] == members;
      }
    }
  }

  /** `InputStructBuilder`: locations are chosen by the caller. */
  class InputStructBuilder {
    const builder: StructBuilder
    const inputArgName: string

    ghost predicate Valid()
      reads this, builder
    {
      builder.Valid()
    }

    /** `InputStructBuilder::new`. */
    constructor (typeName: string, inputArgName: string)
      ensures Valid() && fresh(builder)
      ensures builder.typeName == typeName && builder.fields == [] && this.inputArgName == inputArgName
    {
      builder := new StructBuilder(typeName);
      this.inputArgName := inputArgName;
    }

    /** `n_fields`: the fields of the underlying struct builder. */
    function NFields(): (n: nat)
      reads this, builder
      requires Valid()
      ensures n == |builder.fields| == |builder.sizes|
    {
      builder.NFields()
    }

    /** `add_field`: a field at the given location, without interpolation
        or sampling qualifiers. */
    method AddField(name: string, ty: TypeHandle, location: nat, size: nat) returns (idx: nat)
      requires Valid() && builder.offset + size < U32_LIMIT
      modifies builder
      ensures Valid()
      ensures idx == old(|builder.fields|)
      ensures builder.fields == old(builder.fields) +
        [StructMember(name, ty, Some(Location(location, None, None)), old(builder.offset))]
      ensures builder.offset == old(builder.offset) + size
    {
      idx := builder.AddField(name, ty, Some(Location(location, None, None)), size);
    }
  }

  /** `OutputStructBuilder`: a struct builder that numbers its location
      fields itself and remembers, per field, the expression to store in
      it. */
  class OutputStructBuilder {
    const builder: StructBuilder
    var inputExprHandles: seq<ExprHandle>
    var location: nat

    ghost predicate Valid()
      reads this, builder
    {
      && builder.Valid()
      && |inputExprHandles| == |builder.fields|
      && ConsecutiveLocations(builder.fields)
      && location == LocationCount(builder.fields)
      && location < U32_LIMIT
    }

    /** `OutputStructBuilder::new`: locations start at zero. */
    constructor (typeName: string)
      ensures Valid() && fresh(builder)
      ensures builder.typeName == typeName && builder.fields == [] && location == 0
      ensures inputExprHandles == []
    {
      builder := new StructBuilder(typeName);
      inputExprHandles := [];
      location := 0;
    }

    /** `get_field_expr`: the expression of the field, `None` past the
        last field. */
    function GetFieldExpr(fieldIdx: nat): (r: Option<ExprHandle>)
      reads this, builder
      requires Valid()
      ensures r.None? <==> fieldIdx >= |builder.fields|
      ensures r.Some? ==> r.value == inputExprHandles[fieldIdx]
    {
      if fieldIdx < |inputExprHandles| then Some(inputExprHandles[fieldIdx]) else None
    }

    /** `add_field`: the field gets the next location, which then
        advances by one. The `u32` offset and location must not
        overflow. */
    method AddField(name: string, ty: TypeHandle, interpolation: Option<Interpolation>,
                    sampling: Option<Sampling>, size: nat, inputExprHandle: ExprHandle) returns (idx: nat)
      requires Valid() && builder.offset + size < U32_LIMIT && location + 1 < U32_LIMIT
      modifies this, builder
      ensures Valid()
      ensures idx == old(|builder.fields|)
      ensures builder.fields == old(builder.fields) +
        [StructMember(name, ty, Some(Location(old(location), interpolation, sampling)), old(builder.offset))]
      ensures inputExprHandles == old(inputExprHandles) + [inputExprHandle]
      ensures location == old(location) + 1
      ensures builder.offset == old(builder.offset) + size
    {
      inputExprHandles := inputExprHandles + [inputExprHandle];
      var member := StructMember(name, ty, Some(Location(location, interpolation, sampling)), builder.offset);
      AppendKeepsConsecutive(builder.fields, member);
      idx := builder.AddField(name, ty, Some(Location(location, interpolation, sampling)), size);
      location := location + 1;
    }

    /** `add_field_with_perspective_interpolation`. */
    method AddFieldWithPerspectiveInterpolation(name: string, ty: TypeHandle, size: nat,
                                                inputExprHandle: ExprHandle) returns (idx: nat)
      requires Valid() && builder.offset + size < U32_LIMIT && location + 1 < U32_LIMIT
      modifies this, builder
      ensures Valid()
      ensures idx == old(|builder.fields|)
      ensures builder.fields == old(builder.fields) +
        [StructMember(name, ty, Some(Location(old(location), Some(Perspective), Some(Center))), old(builder.offset))]
      ensures inputExprHandles == old(inputExprHandles) + [inputExprHandle]
      ensures location == old(location) + 1
      ensures builder.offset == old(builder.offset) + size
    {
      idx := AddField(name, ty, Some(Perspective), Some(Center), size, inputExprHandle);
    }

    /** `add_builtin_position_field`: bound to the built-in position, so
        it takes no location and the location counter stays. */
    method AddBuiltinPositionField(name: string, ty: TypeHandle, size: nat, inputExprHandle: ExprHandle)
      returns (idx: nat)
      requires Valid() && builder.offset + size < U32_LIMIT
      modifies this, builder
      ensures Valid()
      ensures idx == old(|builder.fields|)
      ensures builder.fields == old(builder.fields) + [StructMember(name, ty, Some(BuiltinPosition), old(builder.offset))]
      ensures inputExprHandles == old(inputExprHandles) + [inputExprHandle]
      ensures location == old(location)
      ensures builder.offset == old(builder.offset) + size
    {
      inputExprHandles := inputExprHandles + [inputExprHandle];
      var member := StructMember(name, ty, Some(BuiltinPosition), builder.offset);
      AppendKeepsConsecutive(builder.fields, member);
      idx := builder.AddField(name, ty, Some(BuiltinPosition), size);
    }
  }

  /** `InstanceFeatureShaderInput`, with the descriptions as opaque
      values (the test-only variant is left out). */
  datatype InstanceFeatureShaderInput =
    | ModelViewTransform(transform: nat)
    | FixedColorMaterial(fixedColor: nat)
    | BlinnPhongMaterial(blinnPhong: nat)

  /** `MaterialShaderInput`, texture inputs as opaque values. */
  datatype MaterialShaderInput =
    | GlobalAmbientColor(ambient: nat)
    | VertexColor
    | Fixed(fixedTexture: Option<nat>)
    | BlinnPhong(blinnPhongTexture: Option<nat>)
    | LightSpaceDepth

  /** `MaterialShaderInput::requires_lights`. */
  function RequiresLights(material: MaterialShaderInput): (b: bool)
    ensures b <==> material.BlinnPhong? || material.LightSpaceDepth?
  {
    match material
    case GlobalAmbientColor(_) => false
    case VertexColor => false
    case Fixed(_) => false
    case BlinnPhong(_) => true
    case LightSpaceDepth => true
  }

  /** `MaterialShaderGenerator`, holding the inputs it was built from. */
  datatype MaterialShaderGenerator =
    | GlobalAmbientColorGenerator(ambient: nat)
    | FixedColorGenerator(fixedColor: nat)
    | FixedTextureGenerator(fixedTexture: nat)
    | BlinnPhongGenerator(blinnPhong: nat, blinnPhongTexture: Option<nat>)
    | VertexColorGenerator
    | LightSpaceDepthGenerator

  /** The slot an input kind fills. */
  function KindOf(input: InstanceFeatureShaderInput): nat
  {
    match input
    case ModelViewTransform(_) => 0
    case FixedColorMaterial(_) => 1
    case BlinnPhongMaterial(_) => 2
  }

  /** The source asserts that no kind of instance feature input occurs
      twice. */
  predicate NoRepeatedKinds(inputs: seq<InstanceFeatureShaderInput>)
  {
    forall i, j :: 0 <= i < j < |inputs| ==> KindOf(inputs[i]) != KindOf(inputs[j])
  }

  /** The last input of a kind among `inputs`. */
  function FindKind(inputs: seq<InstanceFeatureShaderInput>, kind: nat): (r: Option<InstanceFeatureShaderInput>)
    ensures r.Some? ==> r.value in inputs && KindOf(r.value) == kind
    ensures r.None? <==> forall i :: 0 <= i < |inputs| ==> KindOf(inputs[i]) != kind
  {
    if |inputs| == 0 then None
    else if KindOf(inputs[|inputs| - 1]) == kind then Some(inputs[|inputs| - 1])
    else FindKind(inputs[..|inputs| - 1], kind)
  }

  const NO_TRANSFORM_ERROR: string := "Tried to build shader with no instance model view transform input"
  const INVALID_MATERIAL_ERROR: string := "Tried to build shader with invalid material"

  /** The material generator chosen from the fixed color and Blinn-Phong
      feature inputs and the material input, or an error for any
      combination not listed. */
  function SelectMaterialGenerator(fixedColor: Option<InstanceFeatureShaderInput>,
                                   blinnPhong: Option<InstanceFeatureShaderInput>,
                                   material: Option<MaterialShaderInput>)
    : Result<Option<MaterialShaderGenerator>, string>
    requires fixedColor.Some? ==> fixedColor.value.FixedColorMaterial?
    requires blinnPhong.Some? ==> blinnPhong.value.BlinnPhongMaterial?
  {
    match (fixedColor, blinnPhong, material)
    case (None, None, None) => Ok(None)
    case (None, None, Some(GlobalAmbientColor(input))) => Ok(Some(GlobalAmbientColorGenerator(input)))
    case (Some(feature), None, Some(Fixed(None))) => Ok(Some(FixedColorGenerator(feature.fixedColor)))
    case (None, None, Some(Fixed(Some(texture)))) => Ok(Some(FixedTextureGenerator(texture)))
    case (None, Some(feature), Some(BlinnPhong(texture))) =>
      Ok(Some(BlinnPhongGenerator(feature.blinnPhong, texture)))
    case (None, None, Some(VertexColor)) => Ok(Some(VertexColorGenerator))
    case (None, None, Some(LightSpaceDepth)) => Ok(Some(LightSpaceDepthGenerator))
    case _ => Err(INVALID_MATERIAL_ERROR)
  }

  /** What `interpret_inputs` returns. */
  function InterpretInputsSpec(inputs: seq<InstanceFeatureShaderInput>, material: Option<MaterialShaderInput>)
    : Result<(InstanceFeatureShaderInput, Option<MaterialShaderGenerator>), string>
  {
    var transform := FindKind(inputs, 0);
    if transform.None? then Err(NO_TRANSFORM_ERROR)
    else
      match SelectMaterialGenerator(FindKind(inputs, 1), FindKind(inputs, 2), material)
      case Err(e) => Err(e)
      case Ok(generator) => Ok((transform.value, generator))
  }

  /** Whether the feature inputs are exactly what the material needs: a
      fixed color feature for an untextured fixed material, a Blinn-Phong
      feature for a Blinn-Phong material, and no feature otherwise. */
  predicate ConsistentMaterial(hasFixedColor: bool, hasBlinnPhong: bool, material: Option<MaterialShaderInput>)
  {
    && (hasFixedColor <==> material == Some(Fixed(None)))
    && (hasBlinnPhong <==> material.Some? && material.value.BlinnPhong?)
  }

  /** `interpret_inputs` succeeds exactly when there is a model-view
      transform input and the material feature inputs are consistent with
      the material; it then returns that transform and produces a
      generator exactly when a material is given. */
  lemma {:induction false} InterpretInputsAcceptsConsistentMaterials(
    inputs: seq<InstanceFeatureShaderInput>, material: Option<MaterialShaderInput>)
    ensures InterpretInputsSpec(inputs, material).Ok? <==>
      FindKind(inputs, 0).Some? && ConsistentMaterial(FindKind(inputs, 1).Some?, FindKind(inputs, 2).Some?, material)
    ensures InterpretInputsSpec(inputs, material).Ok? ==>
      InterpretInputsSpec(inputs, material).value.0.ModelViewTransform? &&
      (InterpretInputsSpec(inputs, material).value.1.Some? <==> material.Some?)
  {
    var f, b := FindKind(inputs, 1), FindKind(inputs, 2);
    if f.Some? { assert f.value.FixedColorMaterial?; }
    if b.Some? { assert b.value.BlinnPhongMaterial?; }
  }

  /** `interpret_inputs`: one pass over the feature inputs filling a slot
      per kind (the source asserts that no slot is filled twice), then
      the material selection. */
  method InterpretInputs(inputs: seq<InstanceFeatureShaderInput>, material: Option<MaterialShaderInput>)
    returns (r: Result<(InstanceFeatureShaderInput, Option<MaterialShaderGenerator>), string>)
    requires NoRepeatedKinds(inputs)
    ensures r == InterpretInputsSpec(inputs, material)
  {
    var transform: Option<InstanceFeatureShaderInput> := None;
    var fixedColor: Option<InstanceFeatureShaderInput> := None;
    var blinnPhong: Option<InstanceFeatureShaderInput> := None;
    for i := 0 to |inputs|
      invariant transform == FindKind(inputs[..i], 0)
      invariant fixedColor == FindKind(inputs[..i], 1)
      invariant blinnPhong == FindKind(inputs[..i], 2)
    {
      assert inputs[..i + 1][..i] == inputs[..i];
      match inputs[i]
      case ModelViewTransform(_) =>
        transform := Some(inputs[i]);
      case FixedColorMaterial(_) =>
        fixedColor := Some(inputs[i]);
      case BlinnPhongMaterial(_) =>
        blinnPhong := Some(inputs[i]);
    }
    assert inputs[..|inputs|] == inputs;
    if transform.None? {
      return Err(NO_TRANSFORM_ERROR);
    }
    var generator := SelectMaterialGenerator(fixedColor, blinnPhong, material);
    if generator.Err? {
      return Err(generator.error);
    }
    r := Ok((transform.value, generator.value));
  }

  /** `LightShaderInput`, by kind. */
  datatype LightKind = PointLight | DirectionalLight

  /** The projection the vertex code uses. */
  datatype Projection = CameraProjection | LightClipSpaceProjection

  const NO_MESH_ERROR: string := "Tried to build shader with no mesh input"
  const NO_PROJECTION_ERROR: string := "Tried to build shader with no camera or light input (missing projection)"
  const POINT_LIGHT_PROJECTION_ERROR: string := "Requested projection for point light in shader (unsupported)"

  /** The checks `generate_shader_module` makes before emitting code, in
      its order: a mesh input, the interpreted inputs, and a projection
      from the camera or else from a directional light. Point light code
      is written into the fragment function, which exists only with a
      material generator: a point light without one panics. */
  function ShaderModuleSetup(hasCamera: bool, hasMesh: bool, light: Option<LightKind>,
                             inputs: seq<InstanceFeatureShaderInput>, material: Option<MaterialShaderInput>)
    : (r: Result<(InstanceFeatureShaderInput, Option<MaterialShaderGenerator>, Projection), string>)
    requires hasMesh && InterpretInputsSpec(inputs, material).Ok? && light == Some(PointLight) ==>
      InterpretInputsSpec(inputs, material).value.1.Some?
    ensures r.Ok? ==> hasMesh && InterpretInputsSpec(inputs, material).Ok?
    ensures r.Ok? ==> (r.value.2 == CameraProjection <==> hasCamera)
    ensures r.Ok? && !hasCamera ==> light == Some(DirectionalLight)
    ensures !hasMesh ==> r == Err(NO_MESH_ERROR)
    ensures hasMesh && InterpretInputsSpec(inputs, material).Ok? && !hasCamera && light.None? ==>
      r == Err(NO_PROJECTION_ERROR)
    ensures hasMesh && InterpretInputsSpec(inputs, material).Ok? && !hasCamera && light == Some(PointLight) ==>
      r == Err(POINT_LIGHT_PROJECTION_ERROR)
  {
    if !hasMesh then Err(NO_MESH_ERROR)
    else
      match InterpretInputsSpec(inputs, material)
      case Err(e) => Err(e)
      case Ok((transform, generator)) =>
        if hasCamera then Ok((transform, generator, CameraProjection))
        else if light.None? then Err(NO_PROJECTION_ERROR)
        else
          match light.value
          case PointLight => Err(POINT_LIGHT_PROJECTION_ERROR)
          case DirectionalLight => Ok((transform, generator, LightClipSpaceProjection))
  }

  /** The materials that need lights are the ones whose generators shade
      with a light: a Blinn-Phong or light space depth material accepted by
      `interpret_inputs` yields the matching generator. */
  lemma RequiresLightsMatchesGenerator(inputs: seq<InstanceFeatureShaderInput>, material: MaterialShaderInput)
    requires InterpretInputsSpec(inputs, Some(material)).Ok?
    ensures var generator := InterpretInputsSpec(inputs, Some(material)).value.1;
      RequiresLights(material) <==> generator.Some? && (generator.value.BlinnPhongGenerator? || generator.value.LightSpaceDepthGenerator?)
  {
    var f, b := FindKind(inputs, 1), FindKind(inputs, 2);
    if f.Some? { assert f.value.FixedColorMaterial?; }
    if b.Some? { assert b.value.BlinnPhongMaterial?; }
  }
}
