/** The older voxel tree (src/geometry/voxel.rs): flat node storages that
    issue node IDs from a counter, the recursive build that collapses a
    level of eight identical external children into one external node, and
    the external node's face-exposure queries. */
module LegacyVoxelTree {
  import opened Wrappers
  import opened Sequences
  import opened KeyIndexMapping
  import opened Octree
  import VoxelTree

  /** `VoxelTreeNodeStorage`: nodes of one kind kept densely, found by node
      ID through a key-index mapper, with the counter that issues the IDs. */
  class VoxelTreeNodeStorage<C> {
    var nodes: seq<C>
    const indexMap: KeyIndexMapper<nat>
    var nodeIdCount: nat

    /** Every stored ID was issued by the counter, since `add_node` is the
        only way in. */
    ghost predicate Valid()
      reads this, indexMap
    {
      && indexMap.Valid() && |nodes| == |indexMap.keys|
      && forall id | id in indexMap.indices :: id < nodeIdCount
    }

    /** The node stored under each ID. */
    ghost function Contents(): map<nat, C>
      reads this, indexMap
      requires Valid()
    {
      map id | id in indexMap.indices :: nodes[indexMap.indices[id]]
    }

    /** `new`. */
    constructor ()
      ensures Valid() && fresh(indexMap)
      ensures nodes == [] && Contents() == map[] && nodeIdCount == 0
    {
      nodes := [];
      indexMap := new KeyIndexMapper();
      nodeIdCount := 0;
    }

    /** `n_nodes`: the length of the node vector is the number of IDs. */
    function NNodes(): (n: nat)
      reads this, indexMap
      requires Valid()
      ensures n == |Contents()|
    {
      assert Contents().Keys == indexMap.indices.Keys;
      assert indexMap.Len() == |nodes|;
      |nodes|
    }

    /** `has_node`. */
    function HasNode(id: nat): (b: bool)
      reads this, indexMap
      requires Valid()
      ensures b <==> id in Contents()
    {
      indexMap.ContainsKey(id)
    }

    /** `node` and `node_mut`: a missing ID panics. */
    function Node(id: nat): (c: C)
      reads this, indexMap
      requires Valid() && id in indexMap.indices
      ensures c == Contents()[id]
    {
      nodes[indexMap.Idx(id)]
    }

    /** `node_at_idx` and `node_at_idx_mut`. */
    function NodeAtIdx(idx: nat): (c: C)
      reads this, indexMap
      requires Valid() && idx < |nodes|
      ensures c == Contents()[indexMap.keys[idx]]
    {
      nodes[idx]
    }

    /** `create_new_node_id`: the counter's value, after which the counter
        moves on, so the ID is above every stored one. */
    method CreateNewNodeId() returns (id: nat)
      requires Valid()
      modifies this
      ensures Valid()
      ensures id == old(nodeIdCount) && nodeIdCount == old(nodeIdCount) + 1
      ensures id !in Contents() && nodes == old(nodes)
    {
      id := nodeIdCount;
      nodeIdCount := nodeIdCount + 1;
    }

    /** `add_node`: stores the node under a newly issued ID, which therefore
        never collides with a stored one. */
    method AddNode(node: C) returns (id: nat)
      requires Valid()
      modifies this, indexMap
      ensures Valid()
      ensures id == old(nodeIdCount) && nodeIdCount == old(nodeIdCount) + 1
      ensures id !in old(Contents())
      ensures nodes == old(nodes) + [node]
      ensures Contents() == old(Contents())[id := node]
    {
      id := CreateNewNodeId();
      indexMap.PushKey(id);
      nodes := nodes + [node];
    }

    /** `remove_node`: swap-removes the node; every other node keeps its
        ID. A missing ID panics in the mapper. */
    method RemoveNode(id: nat)
      requires Valid() && id in indexMap.indices
      modifies this, indexMap
      ensures Valid()
      ensures nodes == SwapRemove(old(nodes), old(indexMap.indices[id]))
      ensures Contents() == old(Contents()) - {id}
      ensures nodeIdCount == old(nodeIdCount)
    {
      ghost var oldKeys := indexMap.keys;
      ghost var oldIndices := indexMap.indices;
      var idx := indexMap.SwapRemoveKey(id);
      SwapRemoveKeepsLookups(oldIndices, oldKeys, nodes, indexMap.indices, indexMap.keys, idx);
      LookupsAfterRemoval(oldIndices, nodes, indexMap.indices, SwapRemove(nodes, idx), id);
      nodes := SwapRemove(nodes, idx);
    }
  }

  /** `VoxelTreeExternalNode`: a voxel of a given type. Its indices, scale,
      adjacent voxels and per-face exposed areas behave exactly as the newer
      tree's auxiliary node data, which `faces` holds. */
  class VoxelTreeExternalNode {
    const voxelType: nat
    const faces: VoxelTree.ExternalNodeAuxiliaryData

    /** `new`: every face fully exposed; the squared scale is a `u32`. */
    constructor (voxelType: nat, voxelIndices: VoxelIndices, voxelScale: nat)
      requires voxelScale * voxelScale < VoxelTree.U32_LIMIT
      ensures this.voxelType == voxelType && fresh(faces) && faces.Valid()
      ensures faces.voxelIndices == voxelIndices && faces.voxelScale == voxelScale
      ensures faces.adjacentVoxels == []
      ensures forall face: VoxelFace :: faces.FaceIsFullyExposed(face)
    {
      this.voxelType := voxelType;
      faces := new VoxelTree.ExternalNodeAuxiliaryData(voxelIndices, voxelScale);
    }

    /** `has_fully_obscured_face`: some face is fully obscured. */
    function HasFullyObscuredFace(): (b: bool)
      reads this, faces
      requires faces.Valid()
      ensures b <==> exists face: VoxelFace :: faces.FaceIsFullyObscured(face)
    {
      var e := faces.exposedFaceAreas;
      var b := exists f | 0 <= f < 6 :: e[f] == 0;
      assert b ==> exists face: VoxelFace :: faces.FaceIsFullyObscured(face) by {
        if b {
          var f :| 0 <= f < 6 && e[f] == 0;
          assert faces.FaceIsFullyObscured(VoxelTree.FaceAt(f));
        }
      }
      b
    }
  }

  /** A node with only fully obscured faces has a fully obscured face, and
      a node of positive scale whose faces are all fully exposed has none. */
  lemma ObscuredFaceQueriesAgree(node: VoxelTreeExternalNode)
    requires node.faces.Valid()
    ensures node.faces.HasOnlyFullyObscuredFaces() ==> node.HasFullyObscuredFace()
    ensures node.faces.voxelScale > 0 && node.faces.HasOnlyFullyExposedFaces() ==> !node.HasFullyObscuredFace()
  {
    if node.faces.HasOnlyFullyObscuredFaces() {
      assert node.faces.FaceIsFullyObscured(LowerX);
    }
    if node.faces.voxelScale > 0 && node.faces.HasOnlyFullyExposedFaces() {
      assert node.faces.FaceArea() > 0;
      forall face: VoxelFace ensures !node.faces.FaceIsFullyObscured(face) {
        assert node.faces.FaceIsFullyExposed(face);
      }
    }
  }

  /** `VoxelTreeBuildNode`: the result of building a region. An internal node
      holds its eight children (the source stores them and keeps an ID); an
      external node is a voxel, or a merged block of identical voxels,
      covering the region at `indices`. */
  datatype BuildNode =
    | Internal(children: seq<Option<BuildNode>>)
    | External(indices: VoxelTreeIndices, voxelType: nat)

  /** A child that is an external node of voxel type `t`. */
  predicate IsExternalOfType(child: Option<BuildNode>, t: nat)
  {
    child.Some? && child.value.External? && child.value.voxelType == t
  }

  /** The type of the first child when it is external. */
  function FirstType(children: seq<Option<BuildNode>>): nat
  {
    if |children| > 0 && children[0].Some? && children[0].value.External? then children[0].value.voxelType else 0
  }

  /** What a level of the build becomes. */
  datatype LevelOutcome = NoChildren | Collapse(voxelType: nat) | KeepInternal

  /** The merge rule: a level with no children is absent; a level whose
      children are all external nodes of one type collapses into an external
      node of that type; any other level stays an internal node. */
  function Outcome(children: seq<Option<BuildNode>>): LevelOutcome
  {
    if forall q | 0 <= q < |children| :: children[q].None? then NoChildren
    else if forall q | 0 <= q < |children| :: IsExternalOfType(children[q], FirstType(children)) then Collapse(FirstType(children))
    else KeepInternal
  }

  /** `check_child`: updates the three flags of the build with one child. A
      child is counted once present; the common type survives only while
      every child is external and of the type seen first. */
  method CheckChild(child: Option<BuildNode>, hasChildren: bool, hasCommonChildVoxelType: bool,
                    commonChildVoxelType: Option<nat>)
    returns (hasChildren': bool, hasCommonChildVoxelType': bool, commonChildVoxelType': Option<nat>)
    ensures hasChildren' == (hasChildren || child.Some?)
    ensures hasCommonChildVoxelType' <==> hasCommonChildVoxelType && child.Some? && child.value.External?
                                          && (commonChildVoxelType.None? || commonChildVoxelType.value == child.value.voxelType)
    ensures hasCommonChildVoxelType' ==> commonChildVoxelType' == Some(child.value.voxelType)
    ensures commonChildVoxelType.Some? ==> commonChildVoxelType' == commonChildVoxelType
  {
    hasChildren', hasCommonChildVoxelType', commonChildVoxelType' := hasChildren, hasCommonChildVoxelType, commonChildVoxelType;
    match child
    case None =>
      hasCommonChildVoxelType' := false;
    case Some(node) =>
      if node.External? && hasCommonChildVoxelType {
        hasChildren' := true;
        if commonChildVoxelType.Some? {
          hasCommonChildVoxelType' := node.voxelType == commonChildVoxelType.value;
        } else {
          commonChildVoxelType' := Some(node.voxelType);
        }
      } else {
        hasChildren' := true;
        hasCommonChildVoxelType' := false;
      }
  }

  /** The decision `build` takes for the children of one level: the flags
      folded over the children by `check_child` give the merge rule. */
  method ClassifyChildren(children: seq<Option<BuildNode>>) returns (outcome: LevelOutcome)
    ensures outcome == Outcome(children)
  {
    var hasChildren, hasCommon, common := false, true, None;
    for p := 0 to |children|
      invariant hasChildren <==> exists q | 0 <= q < p :: children[q].Some?
      invariant hasCommon ==> (p == 0 <==> common.None?)
      invariant hasCommon && p > 0 ==> common == Some(FirstType(children))
                                       && forall q | 0 <= q < p :: IsExternalOfType(children[q], FirstType(children))
      invariant !hasCommon ==> p > 0 && exists q | 0 <= q < p :: !IsExternalOfType(children[q], FirstType(children))
    {
      var hadCommon := hasCommon;
      hasChildren, hasCommon, common := CheckChild(children[p], hasChildren, hasCommon, common);
      if hadCommon && !hasCommon {
        assert !IsExternalOfType(children[p], FirstType(children));
      }
    }
    if hasChildren {
      if common.Some? && hasCommon {
        outcome := Collapse(common.value);
      } else {
        outcome := KeepInternal;
      }
    } else {
      outcome := NoChildren;
    }
  }

  /** `VoxelTreeBuildNode::build` on the node at `n`, with the generator's
      `voxel_at_indices` as `gen`: at the bottom the generated voxel, above
      it the merge rule applied to the eight children built recursively. */
  function Build(gen: (nat, nat, nat) -> Option<nat>, n: VoxelTreeIndices): (r: Option<BuildNode>)
    requires n.Valid()
    ensures r.Some? && r.value.External? ==> r.value.indices == n
    decreases n.treeHeight - n.depth
  {
    if n.depth == n.treeHeight then
      match gen(n.i, n.j, n.k)
      case None => None
      case Some(t) => Some(External(n, t))
    else
      var next := ForNextDepth(n);
      var children := seq(8, o requires 0 <= o < 8 => Build(gen, next[o]));
      match Outcome(children)
      case NoChildren => None
      case Collapse(t) => Some(External(n, t))
      case KeepInternal => Some(Internal(children))
  }

  /** The generator has no voxel anywhere in the region of `n`. */
  ghost predicate RegionEmpty(gen: (nat, nat, nat) -> Option<nat>, n: VoxelTreeIndices)
    requires n.Valid()
    decreases n.treeHeight - n.depth
  {
    if n.depth == n.treeHeight then gen(n.i, n.j, n.k).None?
    else forall o | 0 <= o < 8 :: RegionEmpty(gen, ForNextDepth(n)[o])
  }

  /** Every voxel in the region of `n` exists and has type `t`. */
  ghost predicate RegionUniform(gen: (nat, nat, nat) -> Option<nat>, n: VoxelTreeIndices, t: nat)
    requires n.Valid()
    decreases n.treeHeight - n.depth
  {
    if n.depth == n.treeHeight then gen(n.i, n.j, n.k) == Some(t)
    else forall o | 0 <= o < 8 :: RegionUniform(gen, ForNextDepth(n)[o], t)
  }

  /** Building yields nothing exactly when the region holds no voxel. */
  lemma {:induction false} BuildIsNoneIffRegionEmpty(gen: (nat, nat, nat) -> Option<nat>, n: VoxelTreeIndices)
    requires n.Valid()
    ensures Build(gen, n).None? <==> RegionEmpty(gen, n)
    decreases n.treeHeight - n.depth
  {
    if n.depth < n.treeHeight {
      var next := ForNextDepth(n);
      var children := seq(8, o requires 0 <= o < 8 => Build(gen, next[o]));
      forall o | 0 <= o < 8 ensures children[o].None? <==> RegionEmpty(gen, next[o]) {
        BuildIsNoneIffRegionEmpty(gen, next[o]);
      }
      assert Build(gen, n).None? <==> Outcome(children) == NoChildren;
    }
  }

  /** Building yields a single external node of type `t` for the whole
      region exactly when every voxel of the region exists and has type `t`:
      uniform blocks are merged at every level. */
  lemma {:induction false} BuildCollapsesIffRegionUniform(gen: (nat, nat, nat) -> Option<nat>, n: VoxelTreeIndices, t: nat)
    requires n.Valid()
    ensures Build(gen, n) == Some(External(n, t)) <==> RegionUniform(gen, n, t)
    decreases n.treeHeight - n.depth
  {
    if n.depth < n.treeHeight {
      var next := ForNextDepth(n);
      var children := seq(8, o requires 0 <= o < 8 => Build(gen, next[o]));
      forall o | 0 <= o < 8
        ensures children[o] == Some(External(next[o], t)) <==> RegionUniform(gen, next[o], t)
      {
        BuildCollapsesIffRegionUniform(gen, next[o], t);
      }
      if RegionUniform(gen, n, t) {
        assert FirstType(children) == t;
        assert forall q | 0 <= q < 8 :: IsExternalOfType(children[q], t);
      }
      if Build(gen, n) == Some(External(n, t)) {
        assert Outcome(children) == Collapse(t);
        forall o | 0 <= o < 8 ensures RegionUniform(gen, next[o], t) {
          assert IsExternalOfType(children[o], t);
        }
      }
    }
  }
}
