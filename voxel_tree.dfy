/** Per-node bookkeeping of the sparse voxel tree (src/voxel/tree.rs): the
    exposed face areas of external nodes, the table saying from which view
    directions a node is hidden, the storage of auxiliary node data with its
    ID counter, and the choice of the voxel type that dominates a node. */
module VoxelTree {
  import opened Wrappers
  import opened Sequences
  import opened KeyIndexMapping
  import opened Octree

  /** Values of a `u32` lie below this bound. */
  const U32_LIMIT: nat := 0x1_0000_0000

  /** `ExternalNodeID`: the number of an external node. */
  type ExternalNodeID = nat

  /** `VoxelFace::X_FACES`, `Y_FACES` and `Z_FACES` (declared in
      src/voxel/mod.rs, which is not part of this model), indexed by whether
      the view direction's component is negative: a viewer looking along
      the negative axis sees the upper face. */
  function XFace(negative: bool): VoxelFace
  {
    if negative then UpperX else LowerX
  }

  function YFace(negative: bool): VoxelFace
  {
    if negative then UpperY else LowerY
  }

  function ZFace(negative: bool): VoxelFace
  {
    if negative then UpperZ else LowerZ
  }

  /** The face at each position of `exposed_face_areas`. */
  function FaceAt(idx: nat): (face: VoxelFace)
    requires idx < 6
    ensures FaceIdx(face) == idx
  {
    [LowerX, UpperX, LowerY, UpperY, LowerZ, UpperZ][idx]
  }

  /** The first node paired with `v` in a list of adjacent voxels. */
  function FindAdjacent(adjacent: seq<(VoxelIndices, ExternalNodeID)>, v: VoxelIndices): (r: Option<ExternalNodeID>)
    ensures r.None? <==> forall p | 0 <= p < |adjacent| :: adjacent[p].0 != v
    ensures r.Some? ==> exists p | 0 <= p < |adjacent| ::
                          adjacent[p] == (v, r.value) && forall q | 0 <= q < p :: adjacent[q].0 != v
  {
    if adjacent == [] then None
    else if adjacent[0].0 == v then Some(adjacent[0].1)
    else
      var r := FindAdjacent(adjacent[1..], v);
      if r.Some? then
        ghost var p :| 0 <= p < |adjacent[1..]| && adjacent[1..][p] == (v, r.value)
                        && forall q | 0 <= q < p :: adjacent[1..][q].0 != v;
        assert adjacent[p + 1] == (v, r.value);
        assert forall q | 0 <= q < p + 1 :: adjacent[q].0 != v by {
          forall q | 0 <= q < p + 1 ensures adjacent[q].0 != v {
            if q > 0 { assert adjacent[q] == adjacent[1..][q - 1]; }
          }
        }
        r
      else
        assert forall p | 0 <= p < |adjacent| :: adjacent[p].0 != v by {
          forall p | 0 <= p < |adjacent| ensures adjacent[p].0 != v {
            if p > 0 { assert adjacent[p] == adjacent[1..][p - 1]; }
          }
        }
        r
  }

  /** `ExternalNodeAuxiliaryData`: the position and scale of one external
      node, its adjacent voxels, and for each face how many unmerged voxel
      faces of it are still exposed. */
  class ExternalNodeAuxiliaryData {
    const voxelIndices: VoxelIndices
    const voxelScale: nat
    var adjacentVoxels: seq<(VoxelIndices, ExternalNodeID)>
    var exposedFaceAreas: seq<nat>
    /** The area of each face that adjacent voxels have covered so far. */
    ghost var obscuredFaceAreas: seq<nat>

    /** Each face is split between its exposed and its covered area, and
        the areas fit a `u32`. */
    ghost predicate Valid()
      reads this
    {
      && |exposedFaceAreas| == 6 && |obscuredFaceAreas| == 6
      && voxelScale * voxelScale < U32_LIMIT
      && forall f | 0 <= f < 6 :: exposedFaceAreas[f] + obscuredFaceAreas[f] == voxelScale * voxelScale
    }

    /** `new`: no adjacent voxels and every face fully exposed. The square of
        the scale is a `u32` power, which must not overflow. */
    constructor (voxelIndices: VoxelIndices, voxelScale: nat)
      requires voxelScale * voxelScale < U32_LIMIT
      ensures Valid()
      ensures this.voxelIndices == voxelIndices && this.voxelScale == voxelScale
      ensures adjacentVoxels == []
      ensures forall f | 0 <= f < 6 :: exposedFaceAreas[f] == voxelScale * voxelScale && obscuredFaceAreas[f] == 0
    {
      this.voxelIndices := voxelIndices;
      this.voxelScale := voxelScale;
      adjacentVoxels := [];
      var area := voxelScale * voxelScale;
      exposedFaceAreas := [area, area, area, area, area, area];
      obscuredFaceAreas := [0, 0, 0, 0, 0, 0];
    }

    /** `face_area`: the number of unmerged voxels covering one face. */
    function FaceArea(): nat
      reads this
    {
      voxelScale * voxelScale
    }

    /** `exposed_face_area`: never more than the face's area; what is missing
        is exactly what adjacent voxels cover. */
    function ExposedFaceArea(face: VoxelFace): (area: nat)
      reads this
      requires Valid()
      ensures area <= FaceArea()
      ensures area == FaceArea() - obscuredFaceAreas[FaceIdx(face)]
    {
      exposedFaceAreas[FaceIdx(face)]
    }

    /** `face_is_fully_obscured`: true exactly when adjacent voxels cover the
        whole face. */
    function FaceIsFullyObscured(face: VoxelFace): (b: bool)
      reads this
      requires Valid()
      ensures b <==> obscuredFaceAreas[FaceIdx(face)] == FaceArea()
    {
      ExposedFaceArea(face) == 0
    }

    /** `face_is_fully_exposed`: true exactly when nothing covers the face. */
    function FaceIsFullyExposed(face: VoxelFace): (b: bool)
      reads this
      requires Valid()
      ensures b <==> obscuredFaceAreas[FaceIdx(face)] == 0
    {
      ExposedFaceArea(face) == FaceArea()
    }

    /** `has_only_fully_obscured_faces`: the check over the six stored areas
        agrees with asking every face. */
    function HasOnlyFullyObscuredFaces(): (b: bool)
      reads this
      requires Valid()
      ensures b <==> forall face: VoxelFace :: FaceIsFullyObscured(face)
    {
      var b := forall f | 0 <= f < 6 :: exposedFaceAreas[f] == 0;
      assert b ==> forall face: VoxelFace :: FaceIsFullyObscured(face);
      assert (forall face: VoxelFace :: FaceIsFullyObscured(face)) ==> b by {
        if forall face: VoxelFace :: FaceIsFullyObscured(face) {
          forall f | 0 <= f < 6 ensures exposedFaceAreas[f] == 0 {
            assert FaceIsFullyObscured(FaceAt(f));
          }
        }
      }
      b
    }

    /** `has_only_fully_exposed_faces`: likewise for fully exposed faces. */
    function HasOnlyFullyExposedFaces(): (b: bool)
      reads this
      requires Valid()
      ensures b <==> forall face: VoxelFace :: FaceIsFullyExposed(face)
    {
      var area := FaceArea();
      var b := forall f | 0 <= f < 6 :: exposedFaceAreas[f] == area;
      assert b ==> forall face: VoxelFace :: FaceIsFullyExposed(face);
      assert (forall face: VoxelFace :: FaceIsFullyExposed(face)) ==> b by {
        if forall face: VoxelFace :: FaceIsFullyExposed(face) {
          forall f | 0 <= f < 6 ensures exposedFaceAreas[f] == area {
            assert FaceIsFullyExposed(FaceAt(f));
          }
        }
      }
      b
    }

    /** `adjacent_voxel`: the node recorded first for the voxel at `v`, or
        `None` when `v` is not recorded as adjacent. */
    function AdjacentVoxel(v: VoxelIndices): (r: Option<ExternalNodeID>)
      reads this
      ensures r.None? <==> forall p | 0 <= p < |adjacentVoxels| :: adjacentVoxels[p].0 != v
      ensures r.Some? ==> exists p | 0 <= p < |adjacentVoxels| ::
                            adjacentVoxels[p] == (v, r.value)
                            && forall q | 0 <= q < p :: adjacentVoxels[q].0 != v
    {
      FindAdjacent(adjacentVoxels, v)
    }

    /** `is_adjacent_to_voxel`: holds exactly when `adjacent_voxel` finds a
        node. */
    function IsAdjacentToVoxel(v: VoxelIndices): (b: bool)
      reads this
      ensures b <==> AdjacentVoxel(v).Some?
    {
      exists p | 0 <= p < |adjacentVoxels| :: adjacentVoxels[p].0 == v
    }

    /** `add_obscured_face_area`: moves `obscuredArea` of the face from
        exposed to covered; subtracting more than is exposed panics. */
    method AddObscuredFaceArea(face: VoxelFace, obscuredArea: nat)
      requires Valid() && obscuredArea <= exposedFaceAreas[FaceIdx(face)]
      modifies this
      ensures Valid()
      ensures exposedFaceAreas == old(exposedFaceAreas)[FaceIdx(face) := old(exposedFaceAreas)[FaceIdx(face)] - obscuredArea]
      ensures obscuredFaceAreas == old(obscuredFaceAreas)[FaceIdx(face) := old(obscuredFaceAreas)[FaceIdx(face)] + obscuredArea]
      ensures adjacentVoxels == old(adjacentVoxels)
    {
      var idx := FaceIdx(face);
      exposedFaceAreas := exposedFaceAreas[idx := exposedFaceAreas[idx] - obscuredArea];
      obscuredFaceAreas := obscuredFaceAreas[idx := obscuredFaceAreas[idx] + obscuredArea];
    }
  }

  /** `DirectionalObscurednessLookupTable`: for each sign of the x, y and z
      components of a view direction, whether the node or group of nodes is
      fully hidden from that direction. */
  class DirectionalObscurednessLookupTable {
    const isObscuredFromDirection: array3<bool>

    ghost predicate Valid()
      reads this
    {
      isObscuredFromDirection.Length0 == 2 && isObscuredFromDirection.Length1 == 2
      && isObscuredFromDirection.Length2 == 2
    }

    /** `fully_exposed`: visible from every direction. */
    constructor FullyExposed()
      ensures Valid() && fresh(isObscuredFromDirection)
      ensures forall x: bool, y: bool, z: bool :: !IsFullyObscuredFromDirection(x, y, z)
    {
      isObscuredFromDirection := new bool[2, 2, 2]((_, _, _) => false);
    }

    /** `fully_obscured`: hidden from every direction. */
    constructor FullyObscured()
      ensures Valid() && fresh(isObscuredFromDirection)
      ensures forall x: bool, y: bool, z: bool :: IsFullyObscuredFromDirection(x, y, z)
    {
      isObscuredFromDirection := new bool[2, 2, 2]((_, _, _) => true);
    }

    /** `for_external_node`: hidden from a direction exactly when the three
        faces of the node turned towards the viewer are fully obscured. */
    constructor ForExternalNode(aux: ExternalNodeAuxiliaryData)
      requires aux.Valid()
      ensures Valid() && fresh(isObscuredFromDirection)
      ensures forall x: bool, y: bool, z: bool :: IsFullyObscuredFromDirection(x, y, z)
                <==> aux.FaceIsFullyObscured(XFace(x)) && aux.FaceIsFullyObscured(YFace(y))
                     && aux.FaceIsFullyObscured(ZFace(z))
    {
      var ox := [aux.FaceIsFullyObscured(XFace(false)), aux.FaceIsFullyObscured(XFace(true))];
      var oy := [aux.FaceIsFullyObscured(YFace(false)), aux.FaceIsFullyObscured(YFace(true))];
      var oz := [aux.FaceIsFullyObscured(ZFace(false)), aux.FaceIsFullyObscured(ZFace(true))];
      isObscuredFromDirection := new bool[2, 2, 2]((i, j, k) =>
        0 <= i < 2 && 0 <= j < 2 && 0 <= k < 2 && ox[i] && oy[j] && oz[k]);
    }

    /** `is_fully_obscured_from_direction`: the entry selected by which
        components of the view direction are negative (the sign of a float
        component becomes a flag here). */
    function IsFullyObscuredFromDirection(xNegative: bool, yNegative: bool, zNegative: bool): bool
      reads this, isObscuredFromDirection
      requires Valid()
    {
      isObscuredFromDirection[BitOf(xNegative), BitOf(yNegative), BitOf(zNegative)]
    }

    /** `merge_with`: hidden from a direction afterwards exactly when both
        tables were hidden from it; the other table is unchanged. */
    method MergeWith(other: DirectionalObscurednessLookupTable)
      requires Valid() && other.Valid()
      requires other.isObscuredFromDirection != isObscuredFromDirection
      modifies isObscuredFromDirection
      ensures forall x: bool, y: bool, z: bool :: IsFullyObscuredFromDirection(x, y, z)
                == (old(IsFullyObscuredFromDirection(x, y, z)) && other.IsFullyObscuredFromDirection(x, y, z))
    {
      var t := isObscuredFromDirection;
      var o := other.isObscuredFromDirection;
      for i := 0 to 2
        invariant forall a, b, c | 0 <= a < 2 && 0 <= b < 2 && 0 <= c < 2 ::
                    t[a, b, c] == if a < i then old(t[a, b, c]) && o[a, b, c] else old(t[a, b, c])
      {
        for j := 0 to 2
          invariant forall a, b, c | 0 <= a < 2 && 0 <= b < 2 && 0 <= c < 2 ::
                      t[a, b, c] == if a < i || (a == i && b < j) then old(t[a, b, c]) && o[a, b, c] else old(t[a, b, c])
        {
          for k := 0 to 2
            invariant forall a, b, c | 0 <= a < 2 && 0 <= b < 2 && 0 <= c < 2 ::
                        t[a, b, c] == if a < i || (a == i && (b < j || (b == j && c < k)))
                                      then old(t[a, b, c]) && o[a, b, c] else old(t[a, b, c])
          {
            t[i, j, k] := t[i, j, k] && o[i, j, k];
          }
        }
      }
    }
  }

  /** The table of an external node hides it from every direction exactly
      when all six of its faces are fully obscured, which is when the node
      counts as unexposed (`ExternalNode::update_exposedness`). */
  lemma HiddenFromAllDirectionsIffOnlyObscuredFaces(aux: ExternalNodeAuxiliaryData,
                                                   table: DirectionalObscurednessLookupTable)
    requires aux.Valid() && table.Valid()
    requires forall x: bool, y: bool, z: bool :: table.IsFullyObscuredFromDirection(x, y, z)
               <==> aux.FaceIsFullyObscured(XFace(x)) && aux.FaceIsFullyObscured(YFace(y))
                    && aux.FaceIsFullyObscured(ZFace(z))
    ensures (forall x: bool, y: bool, z: bool :: table.IsFullyObscuredFromDirection(x, y, z))
            <==> aux.HasOnlyFullyObscuredFaces()
  {
    if forall x: bool, y: bool, z: bool :: table.IsFullyObscuredFromDirection(x, y, z) {
      assert table.IsFullyObscuredFromDirection(false, false, false);
      assert table.IsFullyObscuredFromDirection(true, true, true);
      forall face: VoxelFace ensures aux.FaceIsFullyObscured(face) {
        match face
        case LowerX => assert XFace(false) == face;
        case UpperX => assert XFace(true) == face;
        case LowerY => assert YFace(false) == face;
        case UpperY => assert YFace(true) == face;
        case LowerZ => assert ZFace(false) == face;
        case UpperZ => assert ZFace(true) == face;
      }
    }
  }

  /** `ExternalNodeAuxiliaryStorage`: auxiliary data of external nodes, kept
      densely and found by node ID through a key-index mapper, and the
      counter that issues node IDs. */
  class ExternalNodeAuxiliaryStorage {
    var data: seq<ExternalNodeAuxiliaryData>
    const indexMap: KeyIndexMapper<ExternalNodeID>
    var idCount: nat

    ghost predicate Valid()
      reads this, indexMap
    {
      indexMap.Valid() && |data| == |indexMap.keys|
    }

    /** Every stored ID was issued by the counter. */
    ghost predicate IdsIssued()
      reads this, indexMap
    {
      forall id | id in indexMap.indices :: id < idCount
    }

    /** The data stored under each node ID. */
    ghost function Contents(): map<ExternalNodeID, ExternalNodeAuxiliaryData>
      reads this, indexMap
      requires Valid()
    {
      map id | id in indexMap.indices :: data[indexMap.indices[id]]
    }

    /** `new`. */
    constructor ()
      ensures Valid() && IdsIssued() && fresh(indexMap)
      ensures data == [] && Contents() == map[] && idCount == 0
    {
      data := [];
      indexMap := new KeyIndexMapper();
      idCount := 0;
    }

    /** `n_nodes`: the length of the data vector is the number of IDs. */
    function NNodes(): (n: nat)
      reads this, indexMap
      requires Valid()
      ensures n == |Contents()|
    {
      assert Contents().Keys == indexMap.indices.Keys;
      assert indexMap.Len() == |data|;
      |data|
    }

    /** `has_data_for_node`. */
    function HasDataForNode(id: ExternalNodeID): (b: bool)
      reads this, indexMap
      requires Valid()
      ensures b <==> id in Contents()
    {
      indexMap.ContainsKey(id)
    }

    /** `data` and `data_mut`: the data of a node; a missing node panics. */
    function Data(id: ExternalNodeID): (d: ExternalNodeAuxiliaryData)
      reads this, indexMap
      requires Valid() && id in indexMap.indices
      ensures d == Contents()[id]
    {
      data[indexMap.Idx(id)]
    }

    /** `data_at_idx` and `data_at_idx_mut`: the data at a dense position. */
    function DataAtIdx(idx: nat): (d: ExternalNodeAuxiliaryData)
      reads this, indexMap
      requires Valid() && idx < |data|
      ensures d == Contents()[indexMap.keys[idx]]
    {
      data[idx]
    }

    /** `add_data`: appends the data; an ID already present panics in the
        mapper. */
    method AddData(id: ExternalNodeID, node: ExternalNodeAuxiliaryData)
      requires Valid() && id !in indexMap.indices
      modifies this, indexMap
      ensures Valid()
      ensures data == old(data) + [node]
      ensures Contents() == old(Contents())[id := node]
      ensures idCount == old(idCount)
    {
      indexMap.PushKey(id);
      data := data + [node];
    }

    /** `remove_data`: swap-removes the data; every other node keeps its
        data. A missing ID panics in the mapper. */
    method RemoveData(id: ExternalNodeID)
      requires Valid() && id in indexMap.indices
      modifies this, indexMap
      ensures Valid()
      ensures data == SwapRemove(old(data), old(indexMap.indices[id]))
      ensures Contents() == old(Contents()) - {id}
      ensures idCount == old(idCount)
    {
      ghost var oldKeys := indexMap.keys;
      ghost var oldIndices := indexMap.indices;
      var idx := indexMap.SwapRemoveKey(id);
      SwapRemoveKeepsLookups(oldIndices, oldKeys, data, indexMap.indices, indexMap.keys, idx);
      LookupsAfterRemoval(oldIndices, data, indexMap.indices, SwapRemove(data, idx), id);
      data := SwapRemove(data, idx);
    }

    /** `create_new_external_node_id`: issues the counter's value and
        advances it, so no ID is issued twice. */
    method CreateNewExternalNodeId() returns (id: ExternalNodeID)
      requires Valid()
      modifies this
      ensures id == old(idCount) && idCount == old(idCount) + 1
      ensures data == old(data)
      ensures IdsIssued() <== old(IdsIssued())
      ensures old(IdsIssued()) ==> id !in indexMap.indices
    {
      id := idCount;
      idCount := idCount + 1;
    }

    /** `ExternalNode::create_aux_storage_entry` (src/voxel/tree.rs): fresh
        data for a node at `voxelIndices` with `voxelScale`, stored under a
        newly issued ID, which therefore never collides with a stored one. */
    method CreateAuxStorageEntry(voxelIndices: VoxelIndices, voxelScale: nat) returns (id: ExternalNodeID)
      requires Valid() && IdsIssued() && voxelScale * voxelScale < U32_LIMIT
      modifies this, indexMap
      ensures Valid() && IdsIssued()
      ensures id == old(idCount) && id !in old(Contents())
      ensures Contents().Keys == old(Contents()).Keys + {id}
      ensures forall other | other in old(Contents()) :: Contents()[other] == old(Contents())[other]
      ensures fresh(Contents()[id]) && Contents()[id].Valid()
      ensures Contents()[id].voxelIndices == voxelIndices && Contents()[id].voxelScale == voxelScale
    {
      var aux := new ExternalNodeAuxiliaryData(voxelIndices, voxelScale);
      id := CreateNewExternalNodeId();
      AddData(id, aux);
      assert indexMap.indices.Keys == Contents().Keys;
    }
  }

  /** Occurrences of voxel type `t` among the external children. */
  function ExternalCount(types: seq<nat>, t: nat): nat
  {
    if types == [] then 0
    else ExternalCount(types[..|types| - 1], t) + (if types[|types| - 1] == t then 1 else 0)
  }

  /** Internal children whose dominating voxel type is `t`. */
  function InternalCount(types: seq<Option<nat>>, t: nat): nat
  {
    if types == [] then 0
    else InternalCount(types[..|types| - 1], t) + (if types[|types| - 1] == Some(t) then 1 else 0)
  }

  /** Internal children that have a dominating voxel type at all. */
  function TypedCount(types: seq<Option<nat>>): nat
  {
    if types == [] then 0
    else TypedCount(types[..|types| - 1]) + (if types[|types| - 1].Some? then 1 else 0)
  }

  /** The votes for voxel type `t` among all children. */
  function TypeCount(external: seq<nat>, internal: seq<Option<nat>>, t: nat): nat
  {
    ExternalCount(external, t) + InternalCount(internal, t)
  }

  /** No internal child has a type exactly when none is counted. */
  lemma {:induction false} TypedCountZero(types: seq<Option<nat>>)
    ensures TypedCount(types) == 0 <==> forall p | 0 <= p < |types| :: types[p].None?
    decreases |types|
  {
    if types != [] {
      var init := types[..|types| - 1];
      TypedCountZero(init);
      assert forall p | 0 <= p < |init| :: init[p] == types[p];
    }
  }

  /** `determine_dominating_voxel_type_with_count`: tallies the voxel types
      of the external children and the dominating types of the internal
      children, and picks the most frequent type, the last of them on a tie
      (as `max_by_key` does). There is no dominating type exactly when no
      child has a type; the count is then 0. Voxel types are numbered below
      `nTypes` (`N_VOXEL_TYPES`, at least one). */
  method DetermineDominatingVoxelTypeWithCount(nTypes: nat, external: seq<nat>, internal: seq<Option<nat>>)
    returns (dominating: Option<nat>, count: nat)
    requires nTypes >= 1
    requires forall p | 0 <= p < |external| :: external[p] < nTypes
    requires forall p | 0 <= p < |internal| :: internal[p].Some? ==> internal[p].value < nTypes
    ensures dominating.None? <==> external == [] && forall p | 0 <= p < |internal| :: internal[p].None?
    ensures forall t | 0 <= t < nTypes :: TypeCount(external, internal, t) <= count
    ensures dominating.None? ==> count == 0
    ensures dominating.Some? ==> && dominating.value < nTypes
                                 && TypeCount(external, internal, dominating.value) == count
                                 && forall t | dominating.value < t < nTypes :: TypeCount(external, internal, t) < count
  {
    var counts := new nat[nTypes](_ => 0);
    var total := |external|;
    for p := 0 to |external|
      invariant forall t | 0 <= t < nTypes :: counts[t] == ExternalCount(external[..p], t)
    {
      assert external[..p + 1][..p] == external[..p];
      counts[external[p]] := counts[external[p]] + 1;
    }
    assert external[..|external|] == external;
    for p := 0 to |internal|
      invariant forall t | 0 <= t < nTypes :: counts[t] == TypeCount(external, internal[..p], t)
      invariant total == |external| + TypedCount(internal[..p])
    {
      assert internal[..p + 1][..p] == internal[..p];
      if internal[p].Some? {
        counts[internal[p].value] := counts[internal[p].value] + 1;
        total := total + 1;
      }
    }
    assert internal[..|internal|] == internal;
    var best := 0;
    for t := 1 to nTypes
      invariant best < t
      invariant forall u | 0 <= u < t :: counts[u] <= counts[best]
      invariant forall u | best < u < t :: counts[u] < counts[best]
    {
      if counts[t] >= counts[best] {
        best := t;
      }
    }
    count := counts[best];
    TypedCountZero(internal);
    if total > 0 {
      dominating := Some(best);
    } else {
      dominating := None;
      assert forall t | 0 <= t < nTypes :: TypeCount(external, internal, t) == 0 by {
        forall t | 0 <= t < nTypes ensures TypeCount(external, internal, t) == 0 {
          NoVotesWithoutTypedChildren(external, internal, t);
        }
      }
    }
  }

  /** Without typed children no voxel type has a vote. */
  lemma {:induction false} NoVotesWithoutTypedChildren(external: seq<nat>, internal: seq<Option<nat>>, t: nat)
    requires external == [] && TypedCount(internal) == 0
    ensures TypeCount(external, internal, t) == 0
    decreases |internal|
  {
    if internal != [] {
      NoVotesWithoutTypedChildren(external, internal[..|internal| - 1], t);
    }
  }
}
