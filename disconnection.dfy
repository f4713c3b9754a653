/** Model of the bookkeeping of split detection in
    `impact_voxel/src/chunks/disconnection.rs`: the packed global region
    labels and adjacent region connections, the stepping to an adjacent
    chunk, the union-find over the voxels of a chunk, and the per-region
    slots of a chunk's adjacent region connections. */
module Disconnection {
  import opened Arith
  import opened Voxels
  import opened VoxelChunks

  /** `CHUNK_MAX_REGIONS`: 2 to the power `(3 * LOG2_CHUNK_SIZE - 1) - 3`. */
  const LOG2_MAX_REGIONS_PER_CHUNK: nat := (3 * LOG2_CHUNK_SIZE - 1) - 3
  const CHUNK_MAX_REGIONS: nat := 256
  /** The connection slots a chunk holds, shared out among its boundary
      regions. */
  const CHUNK_MAX_ADJACENT_REGION_CONNECTIONS: nat := CHUNK_MAX_REGIONS
  const U16_LIMIT: nat := 0x1_0000

  // ---------------------------------------------------------------------
  // GlobalRegionLabel

  const GLOBAL_REGION_IDX_N_BITS: bv32 := 8
  const GLOBAL_CHUNK_IDX_MASK: bv32 := 0xFF_FFFF
  const GLOBAL_REGION_IDX_MASK: bv32 := 0xFF

  /** A chunk index in the upper 24 bits and a local region index in the
      lower 8 bits of a `u32`. */
  datatype GlobalRegionLabel = GlobalRegionLabel(bits: bv32)
  {
    /** `chunk_idx`. */
    function ChunkIdx(): (c: bv32)
      ensures c <= GLOBAL_CHUNK_IDX_MASK
    {
      (bits >> GLOBAL_REGION_IDX_N_BITS) & GLOBAL_CHUNK_IDX_MASK
    }

    /** `region_idx`. */
    function RegionIdx(): (r: bv32)
      ensures r <= GLOBAL_REGION_IDX_MASK
    {
      bits & GLOBAL_REGION_IDX_MASK
    }
  }

  /** `GlobalRegionLabel::new`, which panics when either index is too
      large for its field. */
  function NewGlobalRegionLabel(chunkIdx: bv32, regionIdx: bv32): (l: GlobalRegionLabel)
    requires chunkIdx <= GLOBAL_CHUNK_IDX_MASK && regionIdx <= GLOBAL_REGION_IDX_MASK
    ensures l.ChunkIdx() == chunkIdx && l.RegionIdx() == regionIdx
  {
    GlobalRegionLabel(((chunkIdx & GLOBAL_CHUNK_IDX_MASK) << GLOBAL_REGION_IDX_N_BITS)
                      | (regionIdx & GLOBAL_REGION_IDX_MASK))
  }

  /** The chunk index is recovered from a label. */
  lemma GlobalLabelChunkIdxRoundTrip(chunkIdx: bv32, regionIdx: bv32)
    requires chunkIdx <= GLOBAL_CHUNK_IDX_MASK && regionIdx <= GLOBAL_REGION_IDX_MASK
    ensures NewGlobalRegionLabel(chunkIdx, regionIdx).ChunkIdx() == chunkIdx
  {
  }

  /** The region index is recovered from a label. */
  lemma GlobalLabelRegionIdxRoundTrip(chunkIdx: bv32, regionIdx: bv32)
    requires chunkIdx <= GLOBAL_CHUNK_IDX_MASK && regionIdx <= GLOBAL_REGION_IDX_MASK
    ensures NewGlobalRegionLabel(chunkIdx, regionIdx).RegionIdx() == regionIdx
  {
  }

  /** Labels identify local regions globally: two labels are equal exactly
      when their chunk and region indices are. */
  lemma GlobalLabelsIdentifyRegions(c1: bv32, r1: bv32, c2: bv32, r2: bv32)
    requires c1 <= GLOBAL_CHUNK_IDX_MASK && r1 <= GLOBAL_REGION_IDX_MASK
    requires c2 <= GLOBAL_CHUNK_IDX_MASK && r2 <= GLOBAL_REGION_IDX_MASK
    ensures NewGlobalRegionLabel(c1, r1) == NewGlobalRegionLabel(c2, r2) <==> c1 == c2 && r1 == r2
  {
    GlobalLabelChunkIdxRoundTrip(c1, r1);
    GlobalLabelChunkIdxRoundTrip(c2, r2);
    GlobalLabelRegionIdxRoundTrip(c1, r1);
    GlobalLabelRegionIdxRoundTrip(c2, r2);
  }

  // ---------------------------------------------------------------------
  // AdjacentRegionConnection

  const CONNECTION_REGION_IDX_MASK: bv16 := 0xFFF
  const CONNECTION_REGION_IDX_SHIFT: bv16 := 4

  /** A `u16` with the index of the connected region in the upper 12 bits
      and the crossed chunk face in the lower 4: one bit for each dimension
      and the lowest for the upper side. */
  datatype AdjacentRegionConnection = AdjacentRegionConnection(bits: bv16)
  {
    /** The face bits name exactly one dimension, as every constructed
        connection's do. */
    predicate HasValidFace() {
      var d := bits & 0xE;
      d == 0x8 || d == 0x4 || d == 0x2
    }

    /** `decode_face`, which is unreachable for other face bits. */
    function DecodeFace(): (face: (Dimension, Side))
      requires HasValidFace()
      ensures EncodeFace(face.0, face.1) == bits & 0xF
    {
      var d := bits & 0xE;
      var dim := if d == 0x8 then X else if d == 0x4 then Y else Z;
      var side := if bits & 0x1 == 0 then Lower else Upper;
      (dim, side)
    }

    /** `region_idx`. */
    function RegionIdx(): (r: bv16)
      ensures r <= CONNECTION_REGION_IDX_MASK
    {
      (bits >> CONNECTION_REGION_IDX_SHIFT) & CONNECTION_REGION_IDX_MASK
    }

    /** `compute_relative_linear_chunk_idx`: the linear index of the chunk
        across the connection's face, one stride down for the lower side
        (the source asserts a non-zero index there, and the subtraction must
        not wrap) and one stride up for the upper side. */
    function ComputeRelativeLinearChunkIdx(strides: Indices3, chunkIdx: nat): (r: nat)
      requires HasValidFace()
      requires DecodeFace().1 == Lower ==> chunkIdx != 0 && chunkIdx >= Coord(strides, DecodeFace().0)
      ensures var (dim, side) := DecodeFace();
              && (side == Lower ==> r + Coord(strides, dim) == chunkIdx)
              && (side == Upper ==> r >= Coord(strides, dim) && r - Coord(strides, dim) == chunkIdx)
    {
      var (dim, side) := DecodeFace();
      var stride := Coord(strides, dim);
      match side
      case Lower => chunkIdx - stride
      case Upper => chunkIdx + stride
    }
  }

  /** `encode_face`. */
  function EncodeFace(dim: Dimension, side: Side): (f: bv16)
    ensures f <= 0xF
  {
    var encodedDim: bv16 := match dim
      case X => 0x8
      case Y => 0x4
      case Z => 0x2;
    var encodedSide: bv16 := if side == Lower then 0x0 else 0x1;
    encodedDim | encodedSide
  }

  /** `AdjacentRegionConnection::new`, which panics for a region index that
      does not fit in 12 bits. */
  function NewAdjacentRegionConnection(regionIdx: bv16, dim: Dimension, side: Side): (conn: AdjacentRegionConnection)
    requires regionIdx <= CONNECTION_REGION_IDX_MASK
    ensures conn.RegionIdx() == regionIdx
    ensures conn.bits & 0xF == EncodeFace(dim, side)
  {
    AdjacentRegionConnection(((regionIdx & CONNECTION_REGION_IDX_MASK) << CONNECTION_REGION_IDX_SHIFT)
                             | EncodeFace(dim, side))
  }

  /** The face is recovered from a connection. */
  lemma ConnectionFaceRoundTrip(regionIdx: bv16, dim: Dimension, side: Side)
    requires regionIdx <= CONNECTION_REGION_IDX_MASK
    ensures NewAdjacentRegionConnection(regionIdx, dim, side).HasValidFace()
    ensures NewAdjacentRegionConnection(regionIdx, dim, side).DecodeFace() == (dim, side)
  {
    var high := (regionIdx & CONNECTION_REGION_IDX_MASK) << CONNECTION_REGION_IDX_SHIFT;
    var f := EncodeFace(dim, side);
    assert (high | f) & 0xE == f & 0xE;
    assert (high | f) & 0x1 == f & 0x1;
  }

  /** The region index is recovered from a connection. */
  lemma ConnectionRegionIdxRoundTrip(regionIdx: bv16, dim: Dimension, side: Side)
    requires regionIdx <= CONNECTION_REGION_IDX_MASK
    ensures NewAdjacentRegionConnection(regionIdx, dim, side).RegionIdx() == regionIdx
  {
  }

  /** The indices of the chunk next to `c` across the face on `side` of
      dimension `dim`. */
  function Neighbor(c: Indices3, dim: Dimension, side: Side): Indices3
    requires side == Lower ==> Coord(c, dim) > 0
  {
    var delta := if side == Lower then -1 else 1;
    match dim
    case X => (c.0 + delta, c.1, c.2)
    case Y => (c.0, c.1 + delta, c.2)
    case Z => (c.0, c.1, c.2 + delta)
  }

  /** Stepping up by the stride of a dimension moves to the next chunk of the
      grid along that dimension. */
  lemma UpperNeighborLinearIdx(counts: Indices3, c: Indices3, dim: Dimension)
    requires InGrid(counts, c) && Coord(c, dim) + 1 < Coord(counts, dim)
    ensures InGrid(counts, Neighbor(c, dim, Upper))
    ensures LinearChunkIdx(counts, Neighbor(c, dim, Upper))
            == LinearChunkIdx(counts, c) + Coord(ChunkIdxStrides(counts), dim)
  {
    var s := ChunkIdxStrides(counts);
    var n := Neighbor(c, dim, Upper);
    assert LinearChunkIdx(counts, c) == c.0 * s.0 + c.1 * s.1 + c.2;
    assert LinearChunkIdx(counts, n) == n.0 * s.0 + n.1 * s.1 + n.2;
    match dim {
      case X => MulStep(c.0, s.0);
      case Y => MulStep(c.1, s.1);
      case Z =>
    }
  }

  /** Stepping by the stride of a dimension moves to the adjacent chunk of
      the grid; stepping down never passes below index zero. */
  lemma NeighborLinearIdx(counts: Indices3, c: Indices3, dim: Dimension, side: Side)
    requires InGrid(counts, c)
    requires if side == Lower then Coord(c, dim) > 0 else Coord(c, dim) + 1 < Coord(counts, dim)
    ensures InGrid(counts, Neighbor(c, dim, side))
    ensures var idx := LinearChunkIdx(counts, c);
            var stride := Coord(ChunkIdxStrides(counts), dim);
            && (side == Lower ==> idx != 0 && idx >= stride
                                  && LinearChunkIdx(counts, Neighbor(c, dim, side)) == idx - stride)
            && (side == Upper ==> LinearChunkIdx(counts, Neighbor(c, dim, side)) == idx + stride)
  {
    if side == Upper {
      UpperNeighborLinearIdx(counts, c, dim);
    } else {
      var n := Neighbor(c, dim, Lower);
      assert Neighbor(n, dim, Upper) == c;
      UpperNeighborLinearIdx(counts, n, dim);
      MulMono(1, counts.2, counts.1);
    }
  }

  /** When the chunk across the connection's face is in the grid, the
      relative linear index is that chunk's linear index. */
  lemma RelativeChunkIdxIsNeighbor(conn: AdjacentRegionConnection, counts: Indices3, c: Indices3)
    requires conn.HasValidFace() && InGrid(counts, c)
    requires var (dim, side) := conn.DecodeFace();
             if side == Lower then Coord(c, dim) > 0 else Coord(c, dim) + 1 < Coord(counts, dim)
    ensures var (dim, side) := conn.DecodeFace();
            var idx := LinearChunkIdx(counts, c);
            && (side == Lower ==> idx != 0 && idx >= Coord(ChunkIdxStrides(counts), dim))
            && InGrid(counts, Neighbor(c, dim, side))
            && conn.ComputeRelativeLinearChunkIdx(ChunkIdxStrides(counts), idx)
               == LinearChunkIdx(counts, Neighbor(c, dim, side))
  {
    var (dim, side) := conn.DecodeFace();
    NeighborLinearIdx(counts, c, dim, side);
  }

  // ---------------------------------------------------------------------
  // Slots of adjacent region connections

  /** `max_adjacent_region_connections_per_region`: the chunk's connection
      slots shared evenly among its boundary regions. */
  function MaxAdjacentRegionConnectionsPerRegion(boundaryRegionCount: nat): (m: nat)
    ensures var n := SharingRegions(boundaryRegionCount);
            m * n <= CHUNK_MAX_ADJACENT_REGION_CONNECTIONS < (m + 1) * n
  {
    DivBounds(CHUNK_MAX_ADJACENT_REGION_CONNECTIONS, SharingRegions(boundaryRegionCount));
    CHUNK_MAX_ADJACENT_REGION_CONNECTIONS / SharingRegions(boundaryRegionCount)
  }

  /** The number of regions the slots are shared among: at least one. */
  function SharingRegions(boundaryRegionCount: nat): (n: nat)
    ensures n >= 1 && (boundaryRegionCount >= 1 ==> n == boundaryRegionCount)
  {
    if boundaryRegionCount >= 1 then boundaryRegionCount else 1
  }

  /** The allotments of the boundary regions, the `k`-th starting at `k`
      times the per-region maximum, stay inside the chunk's slots; each
      region gets at least one slot when there are at most 256 of them. */
  lemma AllotmentsFit(boundaryRegionCount: nat, k: nat)
    requires k < boundaryRegionCount
    ensures var m := MaxAdjacentRegionConnectionsPerRegion(boundaryRegionCount);
            && (k + 1) * m <= CHUNK_MAX_ADJACENT_REGION_CONNECTIONS
            && (boundaryRegionCount <= CHUNK_MAX_REGIONS ==> m >= 1)
  {
    var m := MaxAdjacentRegionConnectionsPerRegion(boundaryRegionCount);
    var n := boundaryRegionCount;
    assert n * m <= CHUNK_MAX_ADJACENT_REGION_CONNECTIONS;
    MulMono(k + 1, n, m);
  }

  /** `LocalRegion`: a local region's parent label and its range of slots
      in its chunk's adjacent region connections. */
  class LocalRegion {
    var parentLabel: GlobalRegionLabel
    var startIdx: nat
    var count: nat

    /** `LocalRegion::zeroed`. */
    constructor Zeroed()
      ensures parentLabel == GlobalRegionLabel(0) && startIdx == 0 && count == 0
    {
      parentLabel := GlobalRegionLabel(0);
      startIdx := 0;
      count := 0;
    }

    /** `range_of_adjacent_region_connections`. */
    function RangeOfAdjacentRegionConnections(): (r: (nat, nat))
      reads this
      ensures r.0 <= r.1 && r.1 - r.0 == count
    {
      (startIdx, startIdx + count)
    }

    /** `push_adjacent_region_connection_idx`: below the maximum the next
        free slot is taken; at the maximum the last slot is handed out again
        (the `u16` subtraction needs a slot to exist). A region whose count
        stays within its allotment is only ever handed slots of that
        allotment. */
    method PushAdjacentRegionConnectionIdx(maxConnections: nat) returns (idx: nat)
      requires count < maxConnections || count > 0
      requires maxConnections < U16_LIMIT
      modifies this
      ensures old(count) < maxConnections ==> idx == startIdx + old(count) && count == old(count) + 1
      ensures old(count) >= maxConnections ==> idx == startIdx + old(count) - 1 && count == old(count)
      ensures startIdx == old(startIdx) && parentLabel == old(parentLabel)
      ensures old(count) <= maxConnections ==> count <= maxConnections && startIdx <= idx < startIdx + maxConnections
    {
      if count < maxConnections {
        idx := startIdx + count;
        count := count + 1;
      } else {
        idx := startIdx + (count - 1);
      }
    }
  }

  /** The slot `push_adjacent_region_connection_idx` hands out. */
  function SlotHandedOut(startIdx: nat, count: nat, maxConnections: nat): nat
    requires count < maxConnections || count > 0
  {
    if count < maxConnections then startIdx + count else startIdx + count - 1
  }

  /** `add_adjacent_connection_for_region`: the connection is written to the
      slot the region hands out. */
  method AddAdjacentConnectionForRegion(region: LocalRegion, connections: array<AdjacentRegionConnection>,
                                        maxConnections: nat, adjacentRegionIdx: bv16, dim: Dimension, side: Side)
    requires region.count < maxConnections || region.count > 0
    requires maxConnections < U16_LIMIT && adjacentRegionIdx <= CONNECTION_REGION_IDX_MASK
    requires SlotHandedOut(region.startIdx, region.count, maxConnections) < connections.Length
    modifies region, connections
    ensures region.startIdx == old(region.startIdx)
    ensures region.count == if old(region.count) < maxConnections then old(region.count) + 1 else old(region.count)
    ensures connections[..] == old(connections[..])[SlotHandedOut(old(region.startIdx), old(region.count), maxConnections)
                                                     := NewAdjacentRegionConnection(adjacentRegionIdx, dim, side)]
  {
    var idx := region.PushAdjacentRegionConnectionIdx(maxConnections);
    connections[idx] := NewAdjacentRegionConnection(adjacentRegionIdx, dim, side);
  }

  // ---------------------------------------------------------------------
  // Union-find over the voxels of a chunk

  /** The parent array is a forest: every entry is an index into it, and a
      ghost rank strictly decreases from a non-root entry to its parent,
      so every walk towards a root ends. */
  ghost predicate Forest(parents: seq<nat>, rank: seq<nat>) {
    && |rank| == |parents|
    && (forall i :: 0 <= i < |parents| ==> parents[i] < |parents|)
    && (forall i :: 0 <= i < |parents| && parents[i] != i ==> rank[parents[i]] < rank[i])
  }

  /** The root of the tree holding voxel `i`: the entry reached by following
      parents until an entry is its own parent. */
  ghost function Root(parents: seq<nat>, rank: seq<nat>, i: nat): (r: nat)
    requires Forest(parents, rank) && i < |parents|
    ensures r < |parents| && parents[r] == r
    ensures r == i || rank[r] < rank[i]
    decreases rank[i]
  {
    if parents[i] == i then i else Root(parents, rank, parents[i])
  }

  /** Two forests over the same ranks assign every voxel the same root. */
  ghost predicate SameRoots(p: seq<nat>, q: seq<nat>, rank: seq<nat>)
    requires Forest(p, rank) && Forest(q, rank)
  {
    forall j :: 0 <= j < |p| ==> Root(q, rank, j) == Root(p, rank, j)
  }

  /** Making a voxel's root its direct parent keeps a forest with the same
      ranks, and changes the root of no voxel. */
  lemma CompressPreservesRoots(p: seq<nat>, rank: seq<nat>, i: nat)
    requires Forest(p, rank) && i < |p|
    ensures Forest(p[i := Root(p, rank, i)], rank)
    ensures SameRoots(p, p[i := Root(p, rank, i)], rank)
  {
    var q := p[i := Root(p, rank, i)];
    forall j | 0 <= j < |p|
      ensures Root(q, rank, j) == Root(p, rank, j)
    {
      CompressedRoot(p, rank, i, j);
    }
  }

  lemma {:induction false} CompressedRoot(p: seq<nat>, rank: seq<nat>, i: nat, j: nat)
    requires Forest(p, rank) && i < |p| && j < |p|
    ensures Forest(p[i := Root(p, rank, i)], rank)
    ensures Root(p[i := Root(p, rank, i)], rank, j) == Root(p, rank, j)
    decreases rank[j]
  {
    var q := p[i := Root(p, rank, i)];
    if j == i || p[j] == j {
    } else {
      CompressedRoot(p, rank, i, p[j]);
    }
  }

  /** `find_root_for_voxel`: the root of the voxel's tree, compressing the
      walked path so that every voxel on it gets the root as its parent. No
      voxel's root changes, and an entry either keeps its parent or gets its
      root. */
  method FindRootForVoxel(parents: array<nat>, ghost rank: seq<nat>, idx: nat) returns (root: nat)
    requires Forest(parents[..], rank) && idx < parents.Length
    modifies parents
    ensures root == Root(old(parents[..]), rank, idx)
    ensures parents[idx] == root
    ensures Forest(parents[..], rank) && SameRoots(old(parents[..]), parents[..], rank)
    ensures forall j :: 0 <= j < parents.Length ==>
              parents[j] == old(parents[j]) || parents[j] == Root(old(parents[..]), rank, j)
    decreases rank[idx]
  {
    var parentIdx := parents[idx];
    if parentIdx == idx {
      return parentIdx;
    }
    ghost var before := parents[..];
    root := FindRootForVoxel(parents, rank, parentIdx);
    ghost var mid := parents[..];
    assert Root(mid, rank, idx) == root;
    CompressPreservesRoots(mid, rank, idx);
    parents[idx] := root;
    assert parents[..] == mid[idx := root];
  }

  /** The root each voxel has once the trees of voxels `i1` and `i2` are
      merged under the root of `i1`. */
  ghost function UnitedRoot(p: seq<nat>, rank: seq<nat>, i1: nat, i2: nat, j: nat): nat
    requires Forest(p, rank) && i1 < |p| && i2 < |p| && j < |p|
  {
    if Root(p, rank, j) == Root(p, rank, i2) then Root(p, rank, i1) else Root(p, rank, j)
  }

  /** After the merge two voxels share a root exactly when they shared one
      before, or each shared one with `i1` or with `i2`. */
  lemma UnitedRootsConnect(p: seq<nat>, rank: seq<nat>, i1: nat, i2: nat, j: nat, k: nat)
    requires Forest(p, rank) && i1 < |p| && i2 < |p| && j < |p| && k < |p|
    ensures UnitedRoot(p, rank, i1, i2, j) == UnitedRoot(p, rank, i1, i2, k)
            <==> (|| Root(p, rank, j) == Root(p, rank, k)
                  || (Root(p, rank, j) in {Root(p, rank, i1), Root(p, rank, i2)}
                      && Root(p, rank, k) in {Root(p, rank, i1), Root(p, rank, i2)}))
  {
  }

  /** The ranks after hanging the tree of root `r2` under root `r1`: the
      moved tree's ranks are raised above `r1`'s. */
  ghost function MergedRank(p: seq<nat>, rank: seq<nat>, r1: nat, r2: nat): (nr: seq<nat>)
    requires Forest(p, rank) && r1 < |p|
    ensures |nr| == |rank|
  {
    seq(|p|, j requires 0 <= j < |p| =>
      if Root(p, rank, j) == r2 then rank[j] + rank[r1] + 1 else rank[j])
  }

  /** Hanging root `r2` under a different root `r1` keeps a forest, and every
      voxel of `r2`'s tree gets root `r1`. */
  lemma MergeRoots(p: seq<nat>, rank: seq<nat>, r1: nat, r2: nat)
    requires Forest(p, rank) && r1 < |p| && r2 < |p| && r1 != r2 && p[r1] == r1 && p[r2] == r2
    ensures Forest(p[r2 := r1], MergedRank(p, rank, r1, r2))
    ensures forall j :: 0 <= j < |p| ==>
              Root(p[r2 := r1], MergedRank(p, rank, r1, r2), j)
              == if Root(p, rank, j) == r2 then r1 else Root(p, rank, j)
  {
    var q := p[r2 := r1];
    var nr := MergedRank(p, rank, r1, r2);
    forall i | 0 <= i < |q| && q[i] != i
      ensures nr[q[i]] < nr[i]
    {
      if i != r2 {
        assert Root(p, rank, i) == Root(p, rank, p[i]);
      }
    }
    forall j | 0 <= j < |p|
      ensures Root(q, nr, j) == if Root(p, rank, j) == r2 then r1 else Root(p, rank, j)
    {
      MergedRoot(p, rank, r1, r2, j);
    }
  }

  lemma {:induction false} MergedRoot(p: seq<nat>, rank: seq<nat>, r1: nat, r2: nat, j: nat)
    requires Forest(p, rank) && r1 < |p| && r2 < |p| && r1 != r2 && p[r1] == r1 && p[r2] == r2
    requires Forest(p[r2 := r1], MergedRank(p, rank, r1, r2)) && j < |p|
    ensures Root(p[r2 := r1], MergedRank(p, rank, r1, r2), j)
            == if Root(p, rank, j) == r2 then r1 else Root(p, rank, j)
    decreases rank[j]
  {
    var q := p[r2 := r1];
    var nr := MergedRank(p, rank, r1, r2);
    if j == r2 {
      assert Root(q, nr, r1) == r1;
    } else if p[j] != j {
      MergedRoot(p, rank, r1, r2, p[j]);
    }
  }

  /** `give_voxels_same_root`: the trees of the two voxels are merged by
      making the root of the first the parent of the root of the second.
      The result is a forest under new ghost ranks in which every voxel has
      its `UnitedRoot`. */
  method GiveVoxelsSameRoot(parents: array<nat>, ghost rank: seq<nat>, idx1: nat, idx2: nat)
    returns (ghost newRank: seq<nat>)
    requires Forest(parents[..], rank) && idx1 < parents.Length && idx2 < parents.Length
    modifies parents
    ensures Forest(parents[..], newRank)
    ensures forall j :: 0 <= j < parents.Length ==>
              Root(parents[..], newRank, j) == UnitedRoot(old(parents[..]), rank, idx1, idx2, j)
  {
    var root1 := FindRootForVoxel(parents, rank, idx1);
    ghost var mid := parents[..];
    var root2 := FindRootForVoxel(parents, rank, idx2);
    ghost var compressed := parents[..];
    assert root1 == Root(compressed, rank, idx1) && root2 == Root(compressed, rank, idx2);
    newRank := rank;
    if root1 != root2 {
      MergeRoots(compressed, rank, root1, root2);
      newRank := MergedRank(compressed, rank, root1, root2);
      parents[root2] := root1;
      assert parents[..] == compressed[root2 := root1];
    }
  }

  // ---------------------------------------------------------------------
  // Removing a region's connections across one face

  /** Whether a connection crosses the given face. */
  predicate OnFace(conn: AdjacentRegionConnection, dim: Dimension, side: Side) {
    conn.HasValidFace() && conn.DecodeFace() == (dim, side)
  }

  /** The test for crossing the given face, as a value. */
  function FaceTest(dim: Dimension, side: Side): AdjacentRegionConnection -> bool {
    conn => OnFace(conn, dim, side)
  }

  /** Whether every connection has valid face bits. */
  ghost predicate AllValidFaces(s: seq<AdjacentRegionConnection>) {
    forall k :: 0 <= k < |s| ==> s[k].HasValidFace()
  }

  /** The entries of `s` that `drop` does not hold for, in order. */
  function Without(s: seq<AdjacentRegionConnection>, drop: AdjacentRegionConnection -> bool): (r: seq<AdjacentRegionConnection>)
    ensures |r| <= |s|
    ensures forall k :: 0 <= k < |r| ==> !drop(r[k])
  {
    if s == [] then []
    else if drop(s[0]) then Without(s[1..], drop)
    else [s[0]] + Without(s[1..], drop)
  }

  /** The connections that do not cross the given face, in order. */
  function KeepOthers(s: seq<AdjacentRegionConnection>, dim: Dimension, side: Side): seq<AdjacentRegionConnection> {
    Without(s, FaceTest(dim, side))
  }

  /** `Without` keeps every copy of an entry `drop` does not hold for and
      drops every copy of one it holds for. */
  lemma {:induction false} WithoutMultiplicity(s: seq<AdjacentRegionConnection>, drop: AdjacentRegionConnection -> bool, c: AdjacentRegionConnection)
    ensures multiset(Without(s, drop))[c] == if drop(c) then 0 else multiset(s)[c]
  {
    if s != [] {
      WithoutMultiplicity(s[1..], drop, c);
      assert s == [s[0]] + s[1..];
      assert multiset(s) == multiset([s[0]]) + multiset(s[1..]);
      if !drop(s[0]) {
        assert multiset(Without(s, drop)) == multiset([s[0]]) + multiset(Without(s[1..], drop));
      }
    }
  }

  /** Rearranging the entries rearranges those kept. */
  lemma WithoutOfPermutation(s: seq<AdjacentRegionConnection>, t: seq<AdjacentRegionConnection>, drop: AdjacentRegionConnection -> bool)
    requires multiset(s) == multiset(t)
    ensures multiset(Without(s, drop)) == multiset(Without(t, drop))
  {
    var ms, mt := multiset(Without(s, drop)), multiset(Without(t, drop));
    forall c | true
      ensures ms[c] == mt[c]
    {
      WithoutMultiplicity(s, drop, c);
      WithoutMultiplicity(t, drop, c);
    }
  }

  /** Entries all dropped leave nothing. */
  lemma {:induction false} WithoutAllDropped(y: seq<AdjacentRegionConnection>, drop: AdjacentRegionConnection -> bool)
    requires forall k :: 0 <= k < |y| ==> drop(y[k])
    ensures Without(y, drop) == []
  {
    if y != [] {
      WithoutAllDropped(y[1..], drop);
    }
  }

  /** Entries kept followed by entries dropped leave exactly the first
      part. */
  lemma {:induction false} WithoutOfPartition(x: seq<AdjacentRegionConnection>, y: seq<AdjacentRegionConnection>, drop: AdjacentRegionConnection -> bool)
    requires forall k :: 0 <= k < |x| ==> !drop(x[k])
    requires forall k :: 0 <= k < |y| ==> drop(y[k])
    ensures Without(x + y, drop) == x
  {
    if x == [] {
      assert x + y == y;
      WithoutAllDropped(y, drop);
    } else {
      WithoutOfPartition(x[1..], y, drop);
      assert (x + y)[1..] == x[1..] + y;
    }
  }

  /** `after` rearranges `window` with its first `kept` entries ones `drop`
      does not hold for and the rest ones it holds for. */
  ghost predicate Arranged<T>(after: seq<T>, window: seq<T>, kept: nat, drop: T -> bool) {
    && multiset(after) == multiset(window) && kept <= |after|
    && (forall k :: 0 <= k < kept ==> !drop(after[k]))
    && (forall k :: kept <= k < |after| ==> drop(after[k]))
  }

  /** The first part of such a rearrangement rearranges what `Without`
      keeps of the window. */
  lemma ArrangedKeepsOthers(after: seq<AdjacentRegionConnection>, window: seq<AdjacentRegionConnection>, kept: nat, drop: AdjacentRegionConnection -> bool)
    requires Arranged(after, window, kept, drop)
    ensures multiset(after[..kept]) == multiset(Without(window, drop))
    ensures kept == |Without(window, drop)|
  {
    assert after == after[..kept] + after[kept..];
    WithoutOfPartition(after[..kept], after[kept..], drop);
    WithoutOfPermutation(after, window, drop);
  }

  /** `s` with its entries at `i` and `j` exchanged. */
  function Swap<T>(s: seq<T>, i: nat, j: nat): (r: seq<T>)
    requires i < |s| && j < |s|
    ensures |r| == |s| && multiset(r) == multiset(s)
    ensures r[i] == s[j] && r[j] == s[i]
    ensures forall k :: 0 <= k < |s| && k != i && k != j ==> r[k] == s[k]
  {
    s[i := s[j]][j := s[i]]
  }

  /** `after` rearranges `window`; `drop` holds for none of its entries
      before `idx` and for all of them from `kept` on. */
  ghost predicate Partitioning<T>(after: seq<T>, window: seq<T>, idx: nat, kept: nat, drop: T -> bool) {
    && idx <= kept <= |after|
    && multiset(after) == multiset(window)
    && (forall k :: 0 <= k < idx ==> !drop(after[k]))
    && (forall k :: kept <= k < |after| ==> drop(after[k]))
  }

  /** The loop starts with nothing partitioned and, once `idx` meets
      `kept`, has arranged the window. */
  lemma PartitioningBounds<T>(after: seq<T>, window: seq<T>, idx: nat, kept: nat, drop: T -> bool)
    ensures after == window && idx == 0 && kept == |window| ==> Partitioning(after, window, idx, kept, drop)
    ensures Partitioning(after, window, idx, kept, drop) && idx == kept ==> Arranged(after, window, kept, drop)
  {
  }

  /** An entry to drop, swapped to just before the entries to drop, joins
      them. */
  lemma PartitioningSwap<T>(after: seq<T>, window: seq<T>, idx: nat, kept: nat, drop: T -> bool)
    requires Partitioning(after, window, idx, kept, drop) && idx < kept && drop(after[idx])
    ensures Partitioning(Swap(after, idx, kept - 1), window, idx, kept - 1, drop)
  {
  }

  /** An entry to keep joins the ones before it. */
  lemma PartitioningSkip<T>(after: seq<T>, window: seq<T>, idx: nat, kept: nat, drop: T -> bool)
    requires Partitioning(after, window, idx, kept, drop) && idx < kept && !drop(after[idx])
    ensures Partitioning(after, window, idx + 1, kept, drop)
  {
  }

  /** A rearrangement of connections with valid faces has valid faces. */
  lemma RearrangedValidFace(after: seq<AdjacentRegionConnection>, window: seq<AdjacentRegionConnection>, idx: nat)
    requires multiset(after) == multiset(window) && AllValidFaces(window) && idx < |after|
    ensures after[idx].HasValidFace()
  {
    assert after[idx] in multiset(window);
  }

  /** `slice.swap` on the window of `a` that starts at `start`, seen as the
      middle part of the whole array. */
  method SwapInWindow(a: array<AdjacentRegionConnection>, ghost pre: seq<AdjacentRegionConnection>,
                      ghost w: seq<AdjacentRegionConnection>, ghost suf: seq<AdjacentRegionConnection>,
                      start: nat, i: nat, j: nat)
    requires a[..] == pre + w + suf && start == |pre| && i < |w| && j < |w|
    modifies a
    ensures a[..] == pre + Swap(w, i, j) + suf
  {
    assert a[start + i] == w[i] && a[start + j] == w[j];
    a[start + i], a[start + j] := a[start + j], a[start + i];
  }

  /** The three parts of a concatenation are its slices. */
  lemma ConcatParts<T>(pre: seq<T>, w: seq<T>, suf: seq<T>)
    ensures (pre + w + suf)[..|pre|] == pre
    ensures (pre + w + suf)[|pre|..|pre| + |w|] == w
    ensures (pre + w + suf)[|pre| + |w|..] == suf
  {
  }

  /** One pass of the loop of `remove_adjacent_connections_for_region`: a
      connection on the face at `idx` is swapped with the last of the
      remaining `kept`, which shrinks; any other is stepped over. */
  method SwapOutStep(connections: array<AdjacentRegionConnection>, ghost pre: seq<AdjacentRegionConnection>,
                     ghost w: seq<AdjacentRegionConnection>, ghost suf: seq<AdjacentRegionConnection>,
                     ghost window: seq<AdjacentRegionConnection>, start: nat, idx: nat, kept: nat,
                     dim: Dimension, side: Side)
    returns (idx': nat, kept': nat, ghost w': seq<AdjacentRegionConnection>)
    requires connections[..] == pre + w + suf && start == |pre| && AllValidFaces(window)
    requires Partitioning(w, window, idx, kept, FaceTest(dim, side)) && idx < kept
    modifies connections
    ensures connections[..] == pre + w' + suf && |w'| == |w|
    ensures Partitioning(w', window, idx', kept', FaceTest(dim, side))
    ensures kept' - idx' < kept - idx
  {
    RearrangedValidFace(w, window, idx);
    assert connections[start + idx] == w[idx];
    if connections[start + idx].DecodeFace() == (dim, side) {
      PartitioningSwap(w, window, idx, kept, FaceTest(dim, side));
      idx', kept' := idx, kept - 1;
      SwapInWindow(connections, pre, w, suf, start, idx, kept');
      w' := Swap(w, idx, kept');
    } else {
      PartitioningSkip(w, window, idx, kept, FaceTest(dim, side));
      idx', kept', w' := idx + 1, kept, w;
    }
  }

  /** The loop of `remove_adjacent_connections_for_region` over the window
      `[start, start + count)`. The window ends up a rearrangement of
      itself, with the `kept` connections off the face first and those on
      it after. */
  method SwapOutFaceConnections(connections: array<AdjacentRegionConnection>, start: nat, count: nat,
                                dim: Dimension, side: Side) returns (kept: nat)
    requires start + count <= connections.Length
    requires AllValidFaces(connections[start..start + count])
    modifies connections
    ensures connections[..start] == old(connections[..start])
    ensures connections[start + count..] == old(connections[start + count..])
    ensures Arranged(connections[start..start + count], old(connections[start..start + count]), kept, FaceTest(dim, side))
  {
    ghost var pre, window, suf := connections[..start], connections[start..start + count], connections[start + count..];
    ghost var w := window;
    assert connections[..] == pre + w + suf;
    var idx: nat := 0;
    kept := count;
    PartitioningBounds(w, window, idx, kept, FaceTest(dim, side));
    while idx < kept
      invariant connections[..] == pre + w + suf && |w| == count
      invariant Partitioning(w, window, idx, kept, FaceTest(dim, side))
      decreases kept - idx
    {
      idx, kept, w := SwapOutStep(connections, pre, w, suf, window, start, idx, kept, dim, side);
    }
    PartitioningBounds(w, window, idx, kept, FaceTest(dim, side));
    ConcatParts(pre, w, suf);
  }

  /** `remove_adjacent_connections_for_region`: the region's connections
      across the given face are dropped from its range of slots. The old
      range ends up a rearrangement of itself with the region's new count of
      connections off the face first and those on it after, so that the
      region keeps exactly the old connections off the face
      (`ArrangedKeepsOthers`); the slots outside the old range are
      untouched. */
  method RemoveAdjacentConnectionsForRegion(region: LocalRegion, connections: array<AdjacentRegionConnection>,
                                            dim: Dimension, side: Side)
    requires region.startIdx + region.count <= connections.Length
    requires AllValidFaces(connections[region.startIdx..region.startIdx + region.count])
    modifies region, connections
    ensures region.startIdx == old(region.startIdx) && region.parentLabel == old(region.parentLabel)
    ensures Arranged(connections[region.startIdx..region.startIdx + old(region.count)],
                     old(connections[region.startIdx..region.startIdx + region.count]), region.count, FaceTest(dim, side))
    ensures region.count == |KeepOthers(old(connections[region.startIdx..region.startIdx + region.count]), dim, side)|
    ensures connections[..region.startIdx] == old(connections[..region.startIdx])
    ensures connections[region.startIdx + old(region.count)..] == old(connections[region.startIdx + region.count..])
  {
    var start, count := region.startIdx, region.count;
    ghost var window := connections[start..start + count];
    var kept := SwapOutFaceConnections(connections, start, count, dim, side);
    ghost var arranged := connections[..];
    ArrangedKeepsOthers(arranged[start..start + count], window, kept, FaceTest(dim, side));
    region.count := kept;
    assert connections[..] == arranged;
  }
}
