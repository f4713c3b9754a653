/** Material handles and the material library (engine/src/material.rs):
    the IDs a handle stores for absent parts, the texture and sampler
    bindings of a texture group, the hash of a handle, and the library of
    material specifications and texture groups with its record and reset.
    The specifications and texture groups themselves (GPU resources, bind
    groups) are opaque type parameters, and the hash functions are
    parameters of which nothing is assumed. */
module Materials {
  import opened Wrappers
  import InstanceFeatures

  /** `MaterialID` and `MaterialPropertyTextureGroupID`: 64-bit string
      hashes. */
  type MaterialID = nat
  type TextureGroupID = nat

  /** `StringHash64::zeroed()`. */
  const ZEROED_HASH: nat := 0

  const U32_LIMIT: nat := 0x1_0000_0000

  /** `MaterialID::not_applicable`. */
  const NOT_APPLICABLE_MATERIAL_ID: MaterialID := ZEROED_HASH

  /** `MaterialPropertyTextureGroupID::empty`. */
  const EMPTY_TEXTURE_GROUP_ID: TextureGroupID := ZEROED_HASH

  /** `MaterialPropertyTextureGroup::get_texture_and_sampler_bindings`:
      texture `i` is bound at `2i` and its sampler right after it, the
      product being cast to `u32`. The cast keeps the binding even, so
      adding one for the sampler never overflows. */
  function TextureAndSamplerBindings(textureIdx: nat): (r: (nat, nat))
    ensures r.0 < U32_LIMIT && r.1 < U32_LIMIT
    ensures r.0 % 2 == 0 && r.1 == r.0 + 1
    ensures 2 * textureIdx < U32_LIMIT ==> r.0 == 2 * textureIdx && r.0 / 2 == textureIdx
  {
    var textureBinding := (2 * textureIdx) % U32_LIMIT;
    (textureBinding, textureBinding + 1)
  }

  /** As long as the bindings fit in 32 bits, different textures of a
      group never share a binding, whether texture or sampler. */
  lemma BindingsAreDistinct(i: nat, j: nat)
    requires 2 * i < U32_LIMIT && 2 * j < U32_LIMIT && i != j
    ensures var (ti, si) := TextureAndSamplerBindings(i);
      var (tj, sj) := TextureAndSamplerBindings(j);
      ti != tj && si != sj && ti != sj && si != tj
  {
  }

  /** `MaterialHandle`. */
  datatype MaterialHandle = MaterialHandle(
    materialId: MaterialID,
    featureId: InstanceFeatures.InstanceFeatureID,
    textureGroupId: TextureGroupID)
  {
    /** `is_not_applicable`. */
    predicate IsNotApplicable()
    {
      materialId == NOT_APPLICABLE_MATERIAL_ID
    }

    /** `material_property_feature_id`: `None` for the not-applicable
        feature ID. */
    function MaterialPropertyFeatureId(): (r: Option<InstanceFeatures.InstanceFeatureID>)
      ensures r.None? <==> InstanceFeatures.IsNotApplicable(featureId)
      ensures r.Some? ==> r.value == featureId
    {
      if InstanceFeatures.IsNotApplicable(featureId) then None else Some(featureId)
    }

    /** `material_property_texture_group_id`: `None` for the empty
        group. */
    function MaterialPropertyTextureGroupId(): (r: Option<TextureGroupID>)
      ensures r.None? <==> textureGroupId == EMPTY_TEXTURE_GROUP_ID
      ensures r.Some? ==> r.value == textureGroupId
    {
      if textureGroupId == EMPTY_TEXTURE_GROUP_ID then None else Some(textureGroupId)
    }

    /** `compute_hash`: the hash of the material ID, combined with the
        hash of the texture group ID when the group is not empty. The
        feature ID never enters it. */
    function ComputeHash(hashOf: nat -> nat, combine: (nat, nat) -> nat): (h: nat)
      ensures textureGroupId == EMPTY_TEXTURE_GROUP_ID ==> h == hashOf(materialId)
      ensures textureGroupId != EMPTY_TEXTURE_GROUP_ID ==>
        h == combine(hashOf(materialId), hashOf(textureGroupId))
    {
      var hash := hashOf(materialId);
      if textureGroupId != EMPTY_TEXTURE_GROUP_ID then combine(hash, hashOf(textureGroupId)) else hash
    }
  }

  /** `MaterialHandle::new`: absent parts are stored as the not-applicable
      feature ID and the empty texture group. */
  function NewHandle(materialId: MaterialID, featureId: Option<InstanceFeatures.InstanceFeatureID>,
                     textureGroupId: Option<TextureGroupID>): (h: MaterialHandle)
    ensures h.materialId == materialId
    ensures featureId.None? ==> InstanceFeatures.IsNotApplicable(h.featureId)
    ensures featureId.Some? ==> h.featureId == featureId.value
    ensures textureGroupId.None? ==> h.textureGroupId == EMPTY_TEXTURE_GROUP_ID
    ensures textureGroupId.Some? ==> h.textureGroupId == textureGroupId.value
  {
    MaterialHandle(materialId, UnwrapOr(featureId, InstanceFeatures.NotApplicable()),
                   UnwrapOr(textureGroupId, EMPTY_TEXTURE_GROUP_ID))
  }

  /** `MaterialHandle::not_applicable`. */
  function NotApplicableHandle(): (h: MaterialHandle)
    ensures h.IsNotApplicable()
    ensures h.MaterialPropertyFeatureId().None? && h.MaterialPropertyTextureGroupId().None?
  {
    MaterialHandle(NOT_APPLICABLE_MATERIAL_ID, InstanceFeatures.NotApplicable(), EMPTY_TEXTURE_GROUP_ID)
  }

  /** The accessors give back what the handle was created with, except
      that absent parts and parts equal to the sentinels both come back as
      `None`. */
  lemma NewHandleAccessorsRoundTrip(materialId: MaterialID,
                                    featureId: Option<InstanceFeatures.InstanceFeatureID>,
                                    textureGroupId: Option<TextureGroupID>)
    ensures var h := NewHandle(materialId, featureId, textureGroupId);
      && h.MaterialPropertyFeatureId() ==
           (if featureId.Some? && !InstanceFeatures.IsNotApplicable(featureId.value) then featureId else None)
      && h.MaterialPropertyTextureGroupId() ==
           (if textureGroupId.Some? && textureGroupId.value != EMPTY_TEXTURE_GROUP_ID then textureGroupId else None)
      && (h.IsNotApplicable() <==> materialId == NOT_APPLICABLE_MATERIAL_ID)
  {
  }

  /** Handles that agree on the material and both have no textures hash
      the same, whatever their feature IDs. */
  lemma HashIgnoresFeatureWithoutTextures(h1: MaterialHandle, h2: MaterialHandle,
                                          hashOf: nat -> nat, combine: (nat, nat) -> nat)
    requires h1.materialId == h2.materialId
    requires h1.MaterialPropertyTextureGroupId().None? && h2.MaterialPropertyTextureGroupId().None?
    ensures h1.ComputeHash(hashOf, combine) == h2.ComputeHash(hashOf, combine)
  {
  }

  /** `MaterialLibraryState`: the IDs present when it was recorded. */
  datatype MaterialLibraryState = MaterialLibraryState(
    materialIds: set<MaterialID>, textureGroupIds: set<TextureGroupID>)

  /** The entries of `m` whose keys are in `keys`: what `retain` keeps. */
  function Retained<K, V>(m: map<K, V>, keys: set<K>): (r: map<K, V>)
    ensures r.Keys == m.Keys * keys
    ensures forall k :: k in r ==> r[k] == m[k]
  {
    map k | k in m && k in keys :: m[k]
  }

  /** Retaining the keys of an earlier map undoes additions: when `m1`
      only added entries to `m0` and changed none of them, keeping the
      keys of `m0` gives `m0` back. */
  lemma RetainUndoesAdditions<K, V>(m0: map<K, V>, m1: map<K, V>)
    requires m0.Keys <= m1.Keys
    requires forall k :: k in m0 ==> m1[k] == m0[k]
    ensures Retained(m1, m0.Keys) == m0
  {
    var r := Retained(m1, m0.Keys);
    assert r.Keys == m0.Keys;
    assert forall k :: k in r ==> r[k] == m0[k];
  }

  /** `MaterialLibrary`: material specifications and texture groups by
      ID. */
  class MaterialLibrary<Spec, Group> {
    var materialSpecifications: map<MaterialID, Spec>
    var textureGroups: map<TextureGroupID, Group>

    /** `MaterialLibrary::new`. */
    constructor ()
      ensures materialSpecifications == map[] && textureGroups == map[]
    {
      materialSpecifications := map[];
      textureGroups := map[];
    }

    /** `record_state`: the IDs currently present. */
    function RecordState(): (state: MaterialLibraryState)
      reads this
      ensures forall id :: id in state.materialIds <==> id in materialSpecifications
      ensures forall id :: id in state.textureGroupIds <==> id in textureGroups
    {
      MaterialLibraryState(materialSpecifications.Keys, textureGroups.Keys)
    }

    /** `get_material_specification`. */
    function GetMaterialSpecification(materialId: MaterialID): (r: Option<Spec>)
      reads this
      ensures r.Some? <==> materialId in materialSpecifications
      ensures r.Some? ==> r.value == materialSpecifications[materialId]
    {
      if materialId in materialSpecifications then Some(materialSpecifications[materialId]) else None
    }

    /** `get_material_property_texture_group`. */
    function GetTextureGroup(groupId: TextureGroupID): (r: Option<Group>)
      reads this
      ensures r.Some? <==> groupId in textureGroups
      ensures r.Some? ==> r.value == textureGroups[groupId]
    {
      if groupId in textureGroups then Some(textureGroups[groupId]) else None
    }

    /** `add_material_specification`: inserts, overwriting any entry with
        the same ID. */
    method AddMaterialSpecification(materialId: MaterialID, spec: Spec)
      modifies this
      ensures materialSpecifications == old(materialSpecifications)[materialId := spec]
      ensures textureGroups == old(textureGroups)
    {
      materialSpecifications := materialSpecifications[materialId := spec];
    }

    /** `add_material_property_texture_group`: inserts, overwriting any
        entry with the same ID. */
    method AddTextureGroup(groupId: TextureGroupID, group: Group)
      modifies this
      ensures textureGroups == old(textureGroups)[groupId := group]
      ensures materialSpecifications == old(materialSpecifications)
    {
      textureGroups := textureGroups[groupId := group];
    }

    /** `material_specification_entry(id).or_insert_with(..)`, the way the
        setup code uses it: an existing specification is kept and
        returned, otherwise the given one is inserted. */
    method MaterialSpecificationOrInsert(materialId: MaterialID, spec: Spec) returns (r: Spec)
      modifies this
      ensures materialId in old(materialSpecifications) ==>
        materialSpecifications == old(materialSpecifications) && r == old(materialSpecifications)[materialId]
      ensures materialId !in old(materialSpecifications) ==>
        materialSpecifications == old(materialSpecifications)[materialId := spec] && r == spec
      ensures textureGroups == old(textureGroups)
    {
      if materialId !in materialSpecifications {
        materialSpecifications := materialSpecifications[materialId := spec];
      }
      r := materialSpecifications[materialId];
    }

    /** `reset_to_state`: keeps exactly the entries whose IDs the state
        holds. */
    method ResetToState(state: MaterialLibraryState)
      modifies this
      ensures materialSpecifications == Retained(old(materialSpecifications), state.materialIds)
      ensures textureGroups == Retained(old(textureGroups), state.textureGroupIds)
    {
      materialSpecifications := map id | id in materialSpecifications && id in state.materialIds
        :: materialSpecifications[id];
      textureGroups := map id | id in textureGroups && id in state.textureGroupIds :: textureGroups[id];
    }
  }

  /** Recording the state, adding a specification under a new ID and
      resetting restores the library exactly. */
  method RecordAddReset<Spec, Group>(library: MaterialLibrary<Spec, Group>, materialId: MaterialID,
                                     spec: Spec)
    requires materialId !in library.materialSpecifications
    modifies library
    ensures library.materialSpecifications == old(library.materialSpecifications)
    ensures library.textureGroups == old(library.textureGroups)
  {
    var state := library.RecordState();
    ghost var specs0, groups0 := library.materialSpecifications, library.textureGroups;
    library.AddMaterialSpecification(materialId, spec);
    RetainUndoesAdditions(specs0, library.materialSpecifications);
    RetainUndoesAdditions(groups0, library.textureGroups);
    assert state.materialIds == specs0.Keys && state.textureGroupIds == groups0.Keys;
    library.ResetToState(state);
  }
}
