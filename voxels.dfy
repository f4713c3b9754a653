/** Model of the voxel vocabulary of the `impact_voxel` crate: the state flags
    of a voxel with their adjacency table and surface placement, the encoded
    signed distance, the voxel value itself, and the manager that hands out
    voxel object IDs. */
module Voxels {
  import opened Wrappers

  /** The three axes of the voxel grid and the two sides of a face. */
  datatype Dimension = X | Y | Z
  datatype Side = Lower | Upper

  function DimIdx(d: Dimension): (i: nat)
    ensures i < 3
  {
    match d
    case X => 0
    case Y => 1
    case Z => 2
  }

  function SideIdx(s: Side): (i: nat)
    ensures i < 2
  {
    if s == Lower then 0 else 1
  }

  type Byte = bv8

  /** Whether bit `i` of `b` is set. */
  predicate BitSet(b: Byte, i: nat)
    requires i < 8
  {
    (b >> i) & 1 == 1
  }

  // ---------------------------------------------------------------------
  // VoxelFlags

  const IS_EMPTY: Byte := 0x01
  const HAS_ADJACENT_X_DN: Byte := 0x04
  const HAS_ADJACENT_Y_DN: Byte := 0x08
  const HAS_ADJACENT_Z_DN: Byte := 0x10
  const HAS_ADJACENT_X_UP: Byte := 0x20
  const HAS_ADJACENT_Y_UP: Byte := 0x40
  const HAS_ADJACENT_Z_UP: Byte := 0x80

  /** The six adjacency flags, in the order of the table of
      `adjacency_for_face`: index `2 * dim + side`. */
  const ADJACENCY_TABLE: seq<Byte> :=
    [HAS_ADJACENT_X_DN, HAS_ADJACENT_X_UP,
     HAS_ADJACENT_Y_DN, HAS_ADJACENT_Y_UP,
     HAS_ADJACENT_Z_DN, HAS_ADJACENT_Z_UP]

  /** `adjacency_for_face`: the flag for the neighbour across the face. It is
      a single one of bits 2 to 7, never the emptiness bit, and different
      faces get different bits. */
  function AdjacencyForFace(dim: Dimension, side: Side): (f: Byte)
    ensures f == ADJACENCY_TABLE[2 * DimIdx(dim) + SideIdx(side)]
    ensures f & IS_EMPTY == 0 && f & 0x02 == 0
    ensures f != 0 && f & (f - 1) == 0
    ensures forall d: Dimension, s: Side :: AdjacencyForFaceTable(d, s) == f <==> d == dim && s == side
  {
    AdjacencyForFaceTable(dim, side)
  }

  function AdjacencyForFaceTable(dim: Dimension, side: Side): Byte {
    match (dim, side)
    case (X, Lower) => HAS_ADJACENT_X_DN
    case (X, Upper) => HAS_ADJACENT_X_UP
    case (Y, Lower) => HAS_ADJACENT_Y_DN
    case (Y, Upper) => HAS_ADJACENT_Y_UP
    case (Z, Lower) => HAS_ADJACENT_Z_DN
    case (Z, Upper) => HAS_ADJACENT_Z_UP
  }

  /** `full_adjacency`: it holds the flag of every face, and nothing else: in
      particular not `IS_EMPTY`. */
  function FullAdjacency(): (f: Byte)
    ensures forall d: Dimension, s: Side :: f & AdjacencyForFace(d, s) == AdjacencyForFace(d, s)
    ensures forall i: nat | i < 8 :: BitSet(f, i) <==> 2 <= i
    ensures f & IS_EMPTY == 0
  {
    HAS_ADJACENT_X_DN | HAS_ADJACENT_X_UP | HAS_ADJACENT_Y_DN
    | HAS_ADJACENT_Y_UP | HAS_ADJACENT_Z_DN | HAS_ADJACENT_Z_UP
  }

  /** The number of set bits of `b` among bits `lo .. hi`. */
  function OnesIn(b: Byte, lo: nat, hi: nat): (n: nat)
    requires lo <= hi <= 8
    decreases hi - lo
  {
    if lo == hi then 0 else (if BitSet(b, lo) then 1 else 0) + OnesIn(b, lo + 1, hi)
  }

  /** At most `hi - lo` bits of a range are set, and all of them exactly when
      the count reaches that bound. */
  lemma {:induction false} OnesInBound(b: Byte, lo: nat, hi: nat)
    requires lo <= hi <= 8
    ensures OnesIn(b, lo, hi) <= hi - lo
    ensures OnesIn(b, lo, hi) == hi - lo <==> forall i: nat | lo <= i < hi :: BitSet(b, i)
    decreases hi - lo
  {
    if lo < hi {
      OnesInBound(b, lo + 1, hi);
      if OnesIn(b, lo, hi) == hi - lo {
        assert BitSet(b, lo) && OnesIn(b, lo + 1, hi) == hi - lo - 1;
      }
    }
  }

  /** Two values that agree on bits `lo .. hi` have as many ones there. */
  lemma {:induction false} OnesInAgree(a: Byte, b: Byte, lo: nat, hi: nat)
    requires lo <= hi <= 8
    requires forall i: nat | lo <= i < hi :: BitSet(a, i) == BitSet(b, i)
    ensures OnesIn(a, lo, hi) == OnesIn(b, lo, hi)
    decreases hi - lo
  {
    if lo < hi {
      OnesInAgree(a, b, lo + 1, hi);
    }
  }

  datatype SurfacePlacement = Face | Edge | Corner
  datatype VoxelPlacement = Interior | Surface(placement: SurfacePlacement)

  /** Masking with `0b1111_1100` clears bits 0 and 1 and keeps the others;
      bits 2 to 7 are all set exactly when the mask is contained. */
  lemma AdjacencyMaskBits(flags: Byte)
    ensures !BitSet(flags & 0xFC, 0) && !BitSet(flags & 0xFC, 1)
    ensures forall i: nat | 2 <= i < 8 :: BitSet(flags & 0xFC, i) == BitSet(flags, i)
    ensures (forall i: nat | 2 <= i < 8 :: BitSet(flags, i)) <==> flags & 0xFC == 0xFC
  {
    var m := flags & 0xFC;
    assert BitSet(m, 2) == BitSet(flags, 2) && BitSet(m, 3) == BitSet(flags, 3);
    assert BitSet(m, 4) == BitSet(flags, 4) && BitSet(m, 5) == BitSet(flags, 5);
    assert BitSet(m, 6) == BitSet(flags, 6) && BitSet(m, 7) == BitSet(flags, 7);
    assert (BitSet(flags, 2) && BitSet(flags, 3) && BitSet(flags, 4)
            && BitSet(flags, 5) && BitSet(flags, 6) && BitSet(flags, 7)) <==> m == 0xFC;
  }

  /** `count_ones` of the adjacency bits (bits 2 to 7). */
  function BlockedFaceCount(flags: Byte): (n: nat)
    ensures n <= 6
    ensures n == 6 <==> flags & FullAdjacency() == FullAdjacency()
  {
    AdjacencyOnes(flags);
    assert FullAdjacency() == 0xFC;
    OnesIn(flags & 0xFC, 0, 8)
  }

  /** The masked flags count exactly the adjacency bits, and all six are set
      exactly when the full adjacency mask is contained. */
  lemma AdjacencyOnes(flags: Byte)
    ensures OnesIn(flags & 0xFC, 0, 8) == OnesIn(flags, 2, 8) <= 6
    ensures OnesIn(flags, 2, 8) == 6 <==> flags & 0xFC == 0xFC
  {
    var masked := flags & 0xFC;
    AdjacencyMaskBits(flags);
    assert OnesIn(masked, 0, 8) == OnesIn(masked, 1, 8) == OnesIn(masked, 2, 8);
    OnesInAgree(masked, flags, 2, 8);
    OnesInBound(flags, 2, 8);
  }

  /** `VoxelFlags::placement`: six blocked faces is the interior, five a face,
      four an edge and at most three a corner. */
  function FlagsPlacement(flags: Byte): (p: VoxelPlacement)
    ensures p == Interior <==> flags & FullAdjacency() == FullAdjacency()
    ensures p == Surface(Face) <==> BlockedFaceCount(flags) == 5
    ensures p == Surface(Edge) <==> BlockedFaceCount(flags) == 4
    ensures p == Surface(Corner) <==> BlockedFaceCount(flags) <= 3
  {
    var placements := [Surface(Corner), Surface(Corner), Surface(Corner), Surface(Corner),
                       Surface(Edge), Surface(Face), Interior];
    placements[BlockedFaceCount(flags)]
  }

  // ---------------------------------------------------------------------
  // VoxelSignedDistance

  newtype I8 = x: int | -128 <= x < 128

  /** The signed distance in its `i8` encoding; the conversion from and to
      `f32` is not modelled. */
  datatype SignedDistance = SignedDistance(encoded: I8)

  /** `maximally_outside`: the largest encoding, `i8::MAX`, which is not
      negative. */
  function MaximallyOutsideDistance(): (d: SignedDistance)
    ensures !IsNegative(d) && d.encoded as int == 127
  {
    SignedDistance(127)
  }

  /** `maximally_inside`: the smallest encoding, `i8::MIN`, which is
      negative. */
  function MaximallyInsideDistance(): (d: SignedDistance)
    ensures IsNegative(d) && d.encoded as int == -128
  {
    SignedDistance(-128)
  }

  predicate IsNegative(d: SignedDistance) {
    d.encoded < 0
  }

  /** Whether the distance is one of the two extreme encodings. */
  predicate IsMaximallyInsideOrOutside(d: SignedDistance) {
    d == MaximallyInsideDistance() || d == MaximallyOutsideDistance()
  }

  // ---------------------------------------------------------------------
  // Voxel

  /** The voxel type index (a `u8`); `DUMMY_VOXEL_TYPE` is what empty voxels
      carry. */
  type VoxelType = nat
  const DUMMY_VOXEL_TYPE: VoxelType := 0

  datatype Voxel = Voxel(voxelType: VoxelType, signedDistance: SignedDistance, flags: Byte)

  predicate IsEmpty(v: Voxel) {
    v.flags & IS_EMPTY == IS_EMPTY
  }

  /** `Voxel::non_empty`: no flags, so in particular not empty. */
  function NonEmpty(t: VoxelType, d: SignedDistance): (v: Voxel)
    ensures !IsEmpty(v) && v.voxelType == t && v.signedDistance == d
    ensures FlagsPlacement(v.flags) == Surface(Corner)
  {
    Voxel(t, d, 0)
  }

  /** `Voxel::empty`: only the emptiness flag, of the dummy type. */
  function Empty(d: SignedDistance): (v: Voxel)
    ensures IsEmpty(v) && v.voxelType == DUMMY_VOXEL_TYPE && v.signedDistance == d
    ensures v.flags & FullAdjacency() == 0
  {
    Voxel(DUMMY_VOXEL_TYPE, d, IS_EMPTY)
  }

  /** `Voxel::maximally_inside`: non-empty with a negative distance. */
  function MaximallyInside(t: VoxelType): (v: Voxel)
    ensures !IsEmpty(v) && v.voxelType == t
    ensures v.signedDistance.encoded == -128 && IsNegative(v.signedDistance)
  {
    NonEmpty(t, MaximallyInsideDistance())
  }

  /** `Voxel::maximally_outside`: empty with the largest distance. */
  function MaximallyOutside(): (v: Voxel)
    ensures IsEmpty(v) && v.signedDistance.encoded == 127 && !IsNegative(v.signedDistance)
  {
    Empty(MaximallyOutsideDistance())
  }

  predicate MatchesTypeAndFlags(v: Voxel, other: Voxel) {
    v.voxelType == other.voxelType && v.flags == other.flags
  }

  /** `Voxel::placement`: absent exactly for empty voxels. */
  function Placement(v: Voxel): (p: Option<VoxelPlacement>)
    ensures p.None? <==> IsEmpty(v)
    ensures p.Some? ==> p.value == FlagsPlacement(v.flags)
  {
    if IsEmpty(v) then None else Some(FlagsPlacement(v.flags))
  }

  /** `add_flags`: the given flags are set afterwards and every other bit,
      the type and the distance are as before. */
  function AddFlags(v: Voxel, f: Byte): (r: Voxel)
    ensures r.flags & f == f && r.flags & !f == v.flags & !f
    ensures r.voxelType == v.voxelType && r.signedDistance == v.signedDistance
  {
    v.(flags := v.flags | f)
  }

  /** `remove_flags`: the given flags are clear afterwards and every other
      bit is as before. */
  function RemoveFlags(v: Voxel, f: Byte): (r: Voxel)
    ensures r.flags & f == 0 && r.flags & !f == v.flags & !f
    ensures r.voxelType == v.voxelType && r.signedDistance == v.signedDistance
  {
    v.(flags := v.flags & !f)
  }

  /** `update_flags`: the flags are replaced. */
  function UpdateFlags(v: Voxel, f: Byte): (r: Voxel)
    ensures r.flags == f && r.voxelType == v.voxelType && r.signedDistance == v.signedDistance
  {
    v.(flags := f)
  }

  /** Adding then removing the same flags is removing them, and if none of
      them was set, it gives back the voxel: `remove_flags` undoes
      `add_flags`. */
  lemma RemoveUndoesAdd(v: Voxel, f: Byte)
    ensures RemoveFlags(AddFlags(v, f), f) == RemoveFlags(v, f)
    ensures v.flags & f == 0 ==> RemoveFlags(AddFlags(v, f), f) == v
  {
    var r := RemoveFlags(AddFlags(v, f), f);
    SetThenClear(v.flags, f);
    assert r.flags == RemoveFlags(v, f).flags;
    if v.flags & f == 0 {
      ClearUnset(v.flags, f);
      assert r.flags == v.flags;
    }
  }

  /** Removing then adding the same flags is adding them. */
  lemma AddUndoesRemove(v: Voxel, f: Byte)
    ensures AddFlags(RemoveFlags(v, f), f) == AddFlags(v, f)
  {
    ClearThenSet(v.flags, f);
    assert AddFlags(RemoveFlags(v, f), f).flags == AddFlags(v, f).flags;
  }

  lemma SetThenClear(a: Byte, f: Byte)
    ensures (a | f) & !f == a & !f
  {
  }

  lemma ClearThenSet(a: Byte, f: Byte)
    ensures (a & !f) | f == a | f
  {
  }

  lemma ClearUnset(a: Byte, f: Byte)
    ensures a & f == 0 ==> a & !f == a
  {
  }

  /** Marking a voxel empty through `add_flags` makes it empty and takes
      away its placement. */
  lemma AddEmptyFlagRemovesPlacement(v: Voxel)
    ensures IsEmpty(AddFlags(v, IS_EMPTY)) && Placement(AddFlags(v, IS_EMPTY)).None?
  {
  }

  // ---------------------------------------------------------------------
  // VoxelObjectManager

  const U32_MAX: nat := 0xFFFF_FFFF

  type VoxelObjectID = nat

  /** The manager of voxel objects, generic over the object and physics
      context it stores (meshed objects and inertia are not modelled). */
  class VoxelObjectManager<O, P> {
    var voxelObjects: map<VoxelObjectID, O>
    var physicsContexts: map<VoxelObjectID, P>
    var idCounter: nat

    /** Every handed-out ID is below the counter, which starts at 1. */
    ghost predicate Valid()
      reads this
    {
      1 <= idCounter <= U32_MAX
      && forall id | id in voxelObjects :: 1 <= id < idCounter
    }

    /** `new`: no objects, no contexts, and the first ID will be 1. */
    constructor ()
      ensures Valid() && voxelObjects == map[] && physicsContexts == map[] && idCounter == 1
    {
      voxelObjects := map[];
      physicsContexts := map[];
      idCounter := 1;
    }

    /** `voxel_object_count`. */
    function VoxelObjectCount(): (n: nat)
      reads this
      ensures n == |voxelObjects.Keys|
    {
      |voxelObjects|
    }

    /** `get_voxel_object`. */
    function GetVoxelObject(id: VoxelObjectID): (r: Option<O>)
      reads this
      ensures r.Some? <==> id in voxelObjects
      ensures r.Some? ==> r.value == voxelObjects[id]
    {
      if id in voxelObjects then Some(voxelObjects[id]) else None
    }

    /** `get_physics_context`. */
    function GetPhysicsContext(id: VoxelObjectID): (r: Option<P>)
      reads this
      ensures r.Some? <==> id in physicsContexts
      ensures r.Some? ==> r.value == physicsContexts[id]
    {
      if id in physicsContexts then Some(physicsContexts[id]) else None
    }

    /** `get_voxel_object_with_physics_context_mut`: both or nothing. */
    function GetVoxelObjectWithPhysicsContext(id: VoxelObjectID): (r: Option<(O, P)>)
      reads this
      ensures r.Some? <==> id in voxelObjects && id in physicsContexts
      ensures r.Some? ==> r.value == (voxelObjects[id], physicsContexts[id])
    {
      match GetVoxelObject(id)
      case None => None
      case Some(o) =>
        match GetPhysicsContext(id)
        case None => None
        case Some(p) => Some((o, p))
    }

    /** `has_voxel_object`. */
    function HasVoxelObject(id: VoxelObjectID): (b: bool)
      reads this
      ensures b <==> GetVoxelObject(id).Some?
    {
      id in voxelObjects
    }

    /** `create_new_voxel_object_id`: returns the counter and advances it;
      the checked addition panics at `u32::MAX`. */
    method CreateNewVoxelObjectId() returns (id: VoxelObjectID)
      requires Valid() && idCounter < U32_MAX
      modifies this
      ensures Valid()
      ensures id == old(idCounter) && idCounter == id + 1 && id !in voxelObjects
      ensures voxelObjects == old(voxelObjects) && physicsContexts == old(physicsContexts)
    {
      id := idCounter;
      idCounter := idCounter + 1;
    }

    /** `add_voxel_object`: stores the object under a fresh ID, larger than
        every earlier one. */
    method AddVoxelObject(o: O) returns (id: VoxelObjectID)
      requires Valid() && idCounter < U32_MAX
      modifies this
      ensures Valid()
      ensures id !in old(voxelObjects) && forall other | other in old(voxelObjects) :: other < id
      ensures voxelObjects == old(voxelObjects)[id := o] && physicsContexts == old(physicsContexts)
      ensures idCounter == old(idCounter) + 1
    {
      id := CreateNewVoxelObjectId();
      voxelObjects := voxelObjects[id := o];
    }

    /** `add_physics_context_for_voxel_object`. */
    method AddPhysicsContextForVoxelObject(id: VoxelObjectID, p: P)
      requires Valid()
      modifies this
      ensures Valid()
      ensures physicsContexts == old(physicsContexts)[id := p]
      ensures voxelObjects == old(voxelObjects) && idCounter == old(idCounter)
    {
      physicsContexts := physicsContexts[id := p];
    }

    /** `remove_voxel_object`: removes the object and its physics context. */
    method RemoveVoxelObject(id: VoxelObjectID)
      requires Valid()
      modifies this
      ensures Valid()
      ensures voxelObjects == old(voxelObjects) - {id} && physicsContexts == old(physicsContexts) - {id}
      ensures !HasVoxelObject(id) && GetPhysicsContext(id).None?
      ensures idCounter == old(idCounter)
    {
      voxelObjects := voxelObjects - {id};
      physicsContexts := physicsContexts - {id};
    }

    /** `remove_all_voxel_objects`: clears the objects only; the physics
        contexts and the counter stay. */
    method RemoveAllVoxelObjects()
      requires Valid()
      modifies this
      ensures Valid()
      ensures voxelObjects == map[] && VoxelObjectCount() == 0
      ensures physicsContexts == old(physicsContexts) && idCounter == old(idCounter)
    {
      voxelObjects := map[];
    }
  }
}
