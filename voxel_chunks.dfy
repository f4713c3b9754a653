/** Model of the chunk level of `impact_voxel`'s chunked voxel objects: the
    shift-and-mask index arithmetic between object voxels, chunks and voxels
    within a chunk, the per-face voxel distribution of a chunk, the chunk
    flags, and the classification of a freshly generated chunk as empty,
    uniform or non-uniform. Shifts by `n` are multiplications and Euclidean
    divisions by `2^n`, and a mask of the low `n` bits is the remainder by
    `2^n`, as they are for unsigned integers. */
module VoxelChunks {
  import opened Arith
  import opened Voxels

  const LOG2_CHUNK_SIZE: nat := 4
  const CHUNK_SIZE: nat := 16
  const CHUNK_SIZE_SQUARED: nat := 256
  const CHUNK_VOXEL_COUNT: nat := 4096
  const U32_LIMIT: nat := 0x1_0000_0000

  /** Three indices along x, y and z (`[usize; 3]`). */
  type Indices3 = (nat, nat, nat)

  function Coord(v: Indices3, dim: Dimension): nat {
    match dim
    case X => v.0
    case Y => v.1
    case Z => v.2
  }

  predicate BelowChunkSize(v: Indices3) {
    v.0 < CHUNK_SIZE && v.1 < CHUNK_SIZE && v.2 < CHUNK_SIZE
  }

  // ---------------------------------------------------------------------
  // Voxel indices within a chunk

  /** `chunk_voxel_indices_from_linear_idx`: `[idx >> 8, (idx >> 4) & 15,
      idx & 15]`. */
  function ChunkVoxelIndicesFromLinearIdx(idx: nat): (v: Indices3)
    ensures idx < CHUNK_VOXEL_COUNT ==> BelowChunkSize(v)
  {
    (idx / CHUNK_SIZE_SQUARED, (idx / CHUNK_SIZE) % CHUNK_SIZE, idx % CHUNK_SIZE)
  }

  /** `linear_voxel_idx_within_chunk`: `(i << 8) + (j << 4) + k`, a position
      in the chunk's 4096 voxels from which the three indices are recovered. */
  function LinearVoxelIdxWithinChunk(v: Indices3): (idx: nat)
    requires BelowChunkSize(v)
    ensures idx < CHUNK_VOXEL_COUNT
    ensures ChunkVoxelIndicesFromLinearIdx(idx) == v
  {
    var idx := v.0 * CHUNK_SIZE_SQUARED + v.1 * CHUNK_SIZE + v.2;
    DivModUnique(idx, CHUNK_SIZE, v.0 * CHUNK_SIZE + v.1, v.2);
    DivModUnique(v.0 * CHUNK_SIZE + v.1, CHUNK_SIZE, v.0, v.1);
    DivModUnique(idx, CHUNK_SIZE_SQUARED, v.0, v.1 * CHUNK_SIZE + v.2);
    idx
  }

  /** Every linear index of a chunk is the image of its own three indices. */
  lemma ChunkVoxelIndicesRoundTrip(idx: nat)
    requires idx < CHUNK_VOXEL_COUNT
    ensures LinearVoxelIdxWithinChunk(ChunkVoxelIndicesFromLinearIdx(idx)) == idx
  {
    var q, k := idx / CHUNK_SIZE, idx % CHUNK_SIZE;
    DivModUnique(idx, CHUNK_SIZE_SQUARED, q / CHUNK_SIZE, (q % CHUNK_SIZE) * CHUNK_SIZE + k);
  }

  /** `chunk_start_voxel_idx`: `offset << 12`, the first voxel of the
      non-uniform chunk with that data offset. */
  function ChunkStartVoxelIdx(dataOffset: nat): (start: nat)
    requires dataOffset < U32_LIMIT
    ensures start % CHUNK_VOXEL_COUNT == 0
    ensures ChunkDataOffsetFromStartVoxelIdx(start) == dataOffset
  {
    DivModUnique(dataOffset * CHUNK_VOXEL_COUNT, CHUNK_VOXEL_COUNT, dataOffset, 0);
    dataOffset * CHUNK_VOXEL_COUNT
  }

  /** `chunk_data_offset_from_start_voxel_idx`: `(start >> 12) as u32`, the
      cast keeping the low 32 bits. */
  function ChunkDataOffsetFromStartVoxelIdx(start: nat): (dataOffset: nat)
    ensures dataOffset < U32_LIMIT
  {
    (start / CHUNK_VOXEL_COUNT) % U32_LIMIT
  }

  /** Conversely, a chunk-aligned start below `2^44` is the start of the
      offset computed from it. */
  lemma ChunkStartRoundTrip(start: nat)
    requires start % CHUNK_VOXEL_COUNT == 0 && start < CHUNK_VOXEL_COUNT * U32_LIMIT
    ensures ChunkStartVoxelIdx(ChunkDataOffsetFromStartVoxelIdx(start)) == start
  {
    var q := start / CHUNK_VOXEL_COUNT;
    if q >= U32_LIMIT {
      MulMono(U32_LIMIT, q, CHUNK_VOXEL_COUNT);
    }
    DivModUnique(q, U32_LIMIT, 0, q);
  }

  // ---------------------------------------------------------------------
  // Object voxel indices

  /** `chunk_indices_from_object_voxel_indices`: the upper bits, `i >> 4`. */
  function ChunkIndicesFromObjectVoxelIndices(v: Indices3): (c: Indices3) {
    (v.0 / CHUNK_SIZE, v.1 / CHUNK_SIZE, v.2 / CHUNK_SIZE)
  }

  /** `voxel_indices_within_chunk_from_object_voxel_indices`: the lower bits,
      `i & 15`. Together with the chunk indices they decompose every object
      voxel index as `16 * chunk + local`. */
  function VoxelIndicesWithinChunkFromObjectVoxelIndices(v: Indices3): (l: Indices3)
    ensures BelowChunkSize(l)
    ensures var c := ChunkIndicesFromObjectVoxelIndices(v);
            v.0 == CHUNK_SIZE * c.0 + l.0 && v.1 == CHUNK_SIZE * c.1 + l.1 && v.2 == CHUNK_SIZE * c.2 + l.2
  {
    (v.0 % CHUNK_SIZE, v.1 % CHUNK_SIZE, v.2 % CHUNK_SIZE)
  }

  /** The decomposition is unique: the object voxel `16 * c + l` lies in
      chunk `c` at local position `l`. */
  lemma ObjectVoxelIndicesSplit(c: Indices3, l: Indices3)
    requires BelowChunkSize(l)
    ensures var v := (CHUNK_SIZE * c.0 + l.0, CHUNK_SIZE * c.1 + l.1, CHUNK_SIZE * c.2 + l.2);
            ChunkIndicesFromObjectVoxelIndices(v) == c && VoxelIndicesWithinChunkFromObjectVoxelIndices(v) == l
  {
    DivModUnique(CHUNK_SIZE * c.0 + l.0, CHUNK_SIZE, c.0, l.0);
    DivModUnique(CHUNK_SIZE * c.1 + l.1, CHUNK_SIZE, c.1, l.1);
    DivModUnique(CHUNK_SIZE * c.2 + l.2, CHUNK_SIZE, c.2, l.2);
  }

  /** `linear_voxel_idx_within_chunk_from_object_voxel_indices`. */
  function LinearVoxelIdxWithinChunkFromObjectVoxelIndices(v: Indices3): (idx: nat)
    ensures idx < CHUNK_VOXEL_COUNT
    ensures ChunkVoxelIndicesFromLinearIdx(idx) == VoxelIndicesWithinChunkFromObjectVoxelIndices(v)
  {
    LinearVoxelIdxWithinChunk(VoxelIndicesWithinChunkFromObjectVoxelIndices(v))
  }

  // ---------------------------------------------------------------------
  // The chunk grid

  /** Number of chunks along each axis: `size.div_ceil(16)`, the fewest
      chunks that cover the grid. */
  function ChunkCounts(gridShape: Indices3): (c: Indices3)
    ensures CHUNK_SIZE * c.0 >= gridShape.0 && CHUNK_SIZE * c.1 >= gridShape.1 && CHUNK_SIZE * c.2 >= gridShape.2
    ensures c.0 == 0 || CHUNK_SIZE * (c.0 - 1) < gridShape.0
    ensures c.1 == 0 || CHUNK_SIZE * (c.1 - 1) < gridShape.1
    ensures c.2 == 0 || CHUNK_SIZE * (c.2 - 1) < gridShape.2
  {
    (DivCeil(gridShape.0), DivCeil(gridShape.1), DivCeil(gridShape.2))
  }

  function DivCeil(n: nat): (c: nat)
    ensures CHUNK_SIZE * c >= n && (c == 0 || CHUNK_SIZE * (c - 1) < n)
  {
    (n + CHUNK_SIZE - 1) / CHUNK_SIZE
  }

  /** `chunk_counts.iter().product()`. */
  function TotalChunkCount(counts: Indices3): nat {
    counts.0 * counts.1 * counts.2
  }

  /** The strides of the linear chunk index, `[c2 * c1, c2, 1]`: k varies
      fastest. */
  function ChunkIdxStrides(counts: Indices3): Indices3 {
    (counts.2 * counts.1, counts.2, 1)
  }

  predicate InGrid(counts: Indices3, c: Indices3) {
    c.0 < counts.0 && c.1 < counts.1 && c.2 < counts.2
  }

  /** `chunk_indices_from_linear_idx`. */
  function ChunkIndicesFromLinearIdx(counts: Indices3, idx: nat): (c: Indices3)
    requires counts.1 > 0 && counts.2 > 0
    ensures c.1 < counts.1 && c.2 < counts.2
    ensures idx == c.0 * (counts.2 * counts.1) + c.1 * counts.2 + c.2
    ensures idx < TotalChunkCount(counts) ==> InGrid(counts, c)
  {
    ChunkIndicesDecompose(counts, idx);
    (idx / (counts.2 * counts.1), (idx / counts.2) % counts.1, idx % counts.2)
  }

  /** `linear_chunk_idx`: the position of a chunk of the grid in the chunk
      vector, from which its indices are recovered. */
  function LinearChunkIdx(counts: Indices3, c: Indices3): (idx: nat)
    requires InGrid(counts, c)
    ensures idx < TotalChunkCount(counts)
    ensures ChunkIndicesFromLinearIdx(counts, idx) == c
  {
    var strides := ChunkIdxStrides(counts);
    var idx := c.0 * strides.0 + c.1 * strides.1 + c.2;
    LinearChunkIdxFacts(counts, c, idx);
    idx
  }

  lemma LinearChunkIdxFacts(counts: Indices3, c: Indices3, idx: nat)
    requires InGrid(counts, c)
    requires idx == c.0 * (counts.2 * counts.1) + c.1 * counts.2 + c.2
    ensures idx < TotalChunkCount(counts)
    ensures counts.1 > 0 && counts.2 > 0 && ChunkIndicesFromLinearIdx(counts, idx) == c
  {
    var c1, c2 := counts.1, counts.2;
    var low := c.1 * c2 + c.2;
    MixedRadixBound(c.1, c.2, c1, c2);
    Regroup(c.0, c.1, c.2, c1, c2);
    DivModUnique(idx, c2, c.0 * c1 + c.1, c.2);
    DivModUnique(c.0 * c1 + c.1, c1, c.0, c.1);
    DivModUnique(idx, c2 * c1, c.0, low);
    MixedRadixBound(c.0, low, counts.0, c2 * c1);
    TotalChunkCountFactors(counts);
  }

  /** The digits `chunk_indices_from_linear_idx` computes rebuild the
      index, and lie in the grid when the index is below the chunk total. */
  lemma ChunkIndicesDecompose(counts: Indices3, idx: nat)
    requires counts.1 > 0 && counts.2 > 0
    ensures var (i, j, k) := (idx / (counts.2 * counts.1), (idx / counts.2) % counts.1, idx % counts.2);
            && j < counts.1 && k < counts.2
            && idx == i * (counts.2 * counts.1) + j * counts.2 + k
            && (idx < TotalChunkCount(counts) ==> i < counts.0)
  {
    var c1, c2 := counts.1, counts.2;
    var q, k := idx / c2, idx % c2;
    var i, j := q / c1, q % c1;
    var low := j * c2 + k;
    DecomposeLinear(idx, c1, c2);
    DivModUnique(idx, c2 * c1, i, low);
  }

  /** Every position of the chunk vector is the linear index of the chunk
      indices computed from it. */
  lemma {:induction false} ChunkIndicesRoundTrip(counts: Indices3, idx: nat)
    requires idx < TotalChunkCount(counts)
    ensures counts.1 > 0 && counts.2 > 0
    ensures InGrid(counts, ChunkIndicesFromLinearIdx(counts, idx))
    ensures LinearChunkIdx(counts, ChunkIndicesFromLinearIdx(counts, idx)) == idx
  {
    var c1, c2 := counts.1, counts.2;
    TotalChunkCountFactors(counts);
    var q, k := idx / c2, idx % c2;
    var i, j := q / c1, q % c1;
    var low := j * c2 + k;
    DecomposeLinear(idx, c1, c2);
    DivModUnique(idx, c2 * c1, i, low);
    assert ChunkIndicesFromLinearIdx(counts, idx) == (i, j, k);
    assert InGrid(counts, (i, j, k));
    assert LinearChunkIdx(counts, (i, j, k)) == i * (c2 * c1) + j * c2 + k;
  }

  /** `idx == i * (c2 * c1) + (j * c2 + k)` for the digits `k = idx % c2`,
      `j = (idx / c2) % c1` and `i = idx / c2 / c1`, with `j * c2 + k` below
      `c2 * c1`. */
  lemma DecomposeLinear(idx: nat, c1: nat, c2: nat)
    requires c1 > 0 && c2 > 0
    ensures var q := idx / c2;
            idx == (q / c1) * (c2 * c1) + ((q % c1) * c2 + idx % c2)
            && (q % c1) * c2 + idx % c2 < c2 * c1
  {
    var q := idx / c2;
    DivMod(idx, c2);
    DivMod(q, c1);
    DecomposeDigits(idx, q, q / c1, q % c1, idx % c2, c1, c2);
  }

  /** The same with the digits named, so that no division is in sight. */
  lemma DecomposeDigits(idx: nat, q: nat, i: nat, j: nat, k: nat, c1: nat, c2: nat)
    requires idx == q * c2 + k && q == i * c1 + j && j < c1 && k < c2
    ensures idx == i * (c2 * c1) + (j * c2 + k) && j * c2 + k < c2 * c1
  {
    Regroup(i, j, k, c1, c2);
    MixedRadixBound(j, k, c1, c2);
  }

  lemma TotalChunkCountFactors(counts: Indices3)
    ensures TotalChunkCount(counts) == counts.0 * (counts.2 * counts.1)
    ensures TotalChunkCount(counts) > 0 ==> counts.0 > 0 && counts.1 > 0 && counts.2 > 0
  {
  }

  lemma Regroup(i: nat, j: nat, k: nat, c1: nat, c2: nat)
    ensures (i * c1 + j) * c2 + k == i * (c2 * c1) + (j * c2 + k)
  {
  }

  // ---------------------------------------------------------------------
  // Face voxel distributions

  /** `FaceVoxelDistribution`. */
  datatype FaceVoxelDistribution = FaceEmpty | FaceFull | FaceMixed

  /** The classification of one face from its count of empty voxels, as
      `to_face_distributions` does it: all empty is `Empty`, none empty is
      `Full`, anything between is `Mixed`. */
  function FaceDistribution(emptyCount: nat, fullFaceCount: nat): (d: FaceVoxelDistribution)
    requires fullFaceCount > 0
    ensures d == FaceEmpty <==> emptyCount == fullFaceCount
    ensures d == FaceFull <==> emptyCount == 0
    ensures d == FaceMixed <==> emptyCount != 0 && emptyCount != fullFaceCount
  {
    if emptyCount == fullFaceCount then FaceEmpty
    else if emptyCount == 0 then FaceFull
    else FaceMixed
  }

  /** `FaceEmptyCounts`: the empty-voxel count of each face, the source's
      `[[usize; 2]; 3]` indexed by dimension and side. */
  datatype FaceEmptyCounts = FaceEmptyCounts(xDn: nat, xUp: nat, yDn: nat, yUp: nat, zDn: nat, zUp: nat)

  /** The count of one face, `counts[dim][side]`. */
  function CountOf(c: FaceEmptyCounts, dim: Dimension, side: Side): nat {
    match (dim, side)
    case (X, Lower) => c.xDn
    case (X, Upper) => c.xUp
    case (Y, Lower) => c.yDn
    case (Y, Upper) => c.yUp
    case (Z, Lower) => c.zDn
    case (Z, Upper) => c.zUp
  }

  /** `to_chunk_face_distributions`: each face classified against the 256
      voxels of a chunk face. */
  function ToChunkFaceDistributions(c: FaceEmptyCounts): (r: seq<seq<FaceVoxelDistribution>>)
    ensures |r| == 3 && forall d | 0 <= d < 3 :: |r[d]| == 2
    ensures forall dim, side ::
              (r[DimIdx(dim)][SideIdx(side)] == FaceEmpty <==> CountOf(c, dim, side) == CHUNK_SIZE_SQUARED)
              && (r[DimIdx(dim)][SideIdx(side)] == FaceFull <==> CountOf(c, dim, side) == 0)
  {
    [[FaceDistribution(c.xDn, CHUNK_SIZE_SQUARED), FaceDistribution(c.xUp, CHUNK_SIZE_SQUARED)],
     [FaceDistribution(c.yDn, CHUNK_SIZE_SQUARED), FaceDistribution(c.yUp, CHUNK_SIZE_SQUARED)],
     [FaceDistribution(c.zDn, CHUNK_SIZE_SQUARED), FaceDistribution(c.zUp, CHUNK_SIZE_SQUARED)]]
  }

  // ---------------------------------------------------------------------
  // VoxelChunkFlags

  const IS_OBSCURED_X_DN: Byte := 0x01
  const IS_OBSCURED_Y_DN: Byte := 0x02
  const IS_OBSCURED_Z_DN: Byte := 0x04
  const IS_OBSCURED_X_UP: Byte := 0x08
  const IS_OBSCURED_Y_UP: Byte := 0x10
  const IS_OBSCURED_Z_UP: Byte := 0x20
  const IS_EMPTY_CHUNK: Byte := 0x40

  /** `fully_obscured`: the six obscuredness flags. */
  function FullyObscured(): (f: Byte)
    ensures forall i: nat | i < 8 :: BitSet(f, i) <==> i < 6
  {
    IS_OBSCURED_X_DN | IS_OBSCURED_Y_DN | IS_OBSCURED_Z_DN
    | IS_OBSCURED_X_UP | IS_OBSCURED_Y_UP | IS_OBSCURED_Z_UP
  }

  /** `has_exposed_face`: some face is not obscured. */
  predicate HasExposedFace(flags: Byte) {
    flags & FullyObscured() != FullyObscured()
  }

  /** The bit of a face: `dim` for the lower face and `3 + dim` for the upper. */
  function FaceBit(dim: Dimension, side: Side): (i: nat)
    ensures i < 6
  {
    if side == Lower then DimIdx(dim) else 3 + DimIdx(dim)
  }

  /** `1 << i` for the six face bits. */
  function FaceMask(i: nat): (m: Byte)
    requires i < 6
    ensures BitSet(m, i) && forall b: nat | b < 8 && b != i :: !BitSet(m, b)
  {
    [IS_OBSCURED_X_DN, IS_OBSCURED_Y_DN, IS_OBSCURED_Z_DN,
     IS_OBSCURED_X_UP, IS_OBSCURED_Y_UP, IS_OBSCURED_Z_UP][i]
  }

  /** `mark_lower_face_as_obscured` and `mark_upper_face_as_obscured`: sets
      exactly the face's bit. */
  function MarkFaceAsObscured(flags: Byte, dim: Dimension, side: Side): (r: Byte)
    ensures BitSet(r, FaceBit(dim, side))
    ensures forall b: nat | b < 8 && b != FaceBit(dim, side) :: BitSet(r, b) == BitSet(flags, b)
  {
    var m := FaceMask(FaceBit(dim, side));
    OrBits(flags, m);
    flags | m
  }

  /** `mark_lower_face_as_unobscured` and `mark_upper_face_as_unobscured`:
      clears exactly the face's bit. */
  function MarkFaceAsUnobscured(flags: Byte, dim: Dimension, side: Side): (r: Byte)
    ensures !BitSet(r, FaceBit(dim, side))
    ensures forall b: nat | b < 8 && b != FaceBit(dim, side) :: BitSet(r, b) == BitSet(flags, b)
  {
    var m := FaceMask(FaceBit(dim, side));
    AndNotBits(flags, m);
    flags & !m
  }

  lemma OrBits(a: Byte, m: Byte)
    ensures forall b: nat | b < 8 :: BitSet(a | m, b) == (BitSet(a, b) || BitSet(m, b))
  {
    forall b: nat | b < 8 ensures BitSet(a | m, b) == (BitSet(a, b) || BitSet(m, b)) {
      ShiftOr(a, m, b);
    }
  }

  lemma ShiftOr(a: Byte, m: Byte, b: nat)
    requires b < 8
    ensures BitSet(a | m, b) == (BitSet(a, b) || BitSet(m, b))
  {
    assert ((a | m) >> b) == (a >> b) | (m >> b);
  }

  lemma AndNotBits(a: Byte, m: Byte)
    ensures forall b: nat | b < 8 :: BitSet(a & !m, b) == (BitSet(a, b) && !BitSet(m, b))
  {
    forall b: nat | b < 8 ensures BitSet(a & !m, b) == (BitSet(a, b) && !BitSet(m, b)) {
      ShiftAndNot(a, m, b);
    }
  }

  lemma ShiftAndNot(a: Byte, m: Byte, b: nat)
    requires b < 8
    ensures BitSet(a & !m, b) == (BitSet(a, b) && !BitSet(m, b))
  {
    assert ((a & !m) >> b) & 1 == ((a >> b) & 1) & !((m >> b) & 1) & 1;
  }

  /** Two flag values are equal when their bits are. */
  lemma BitsEqual(a: Byte, c: Byte)
    requires forall b: nat | b < 8 :: BitSet(a, b) == BitSet(c, b)
    ensures a == c
  {
    assert BitSet(a, 0) == BitSet(c, 0) && BitSet(a, 1) == BitSet(c, 1);
    assert BitSet(a, 2) == BitSet(c, 2) && BitSet(a, 3) == BitSet(c, 3);
    assert BitSet(a, 4) == BitSet(c, 4) && BitSet(a, 5) == BitSet(c, 5);
    assert BitSet(a, 6) == BitSet(c, 6) && BitSet(a, 7) == BitSet(c, 7);
  }

  /** Unmarking undoes marking on a face that was not obscured. */
  lemma UnmarkUndoesMark(flags: Byte, dim: Dimension, side: Side)
    requires !BitSet(flags, FaceBit(dim, side))
    ensures MarkFaceAsUnobscured(MarkFaceAsObscured(flags, dim, side), dim, side) == flags
  {
    var r := MarkFaceAsUnobscured(MarkFaceAsObscured(flags, dim, side), dim, side);
    var i := FaceBit(dim, side);
    forall b: nat | b < 8 ensures BitSet(r, b) == BitSet(flags, b) {
      if b != i {
        assert BitSet(MarkFaceAsObscured(flags, dim, side), b) == BitSet(flags, b);
      }
    }
    BitsEqual(r, flags);
  }

  /** Marking undoes unmarking on a face that was obscured. */
  lemma MarkUndoesUnmark(flags: Byte, dim: Dimension, side: Side)
    requires BitSet(flags, FaceBit(dim, side))
    ensures MarkFaceAsObscured(MarkFaceAsUnobscured(flags, dim, side), dim, side) == flags
  {
    var r := MarkFaceAsObscured(MarkFaceAsUnobscured(flags, dim, side), dim, side);
    var i := FaceBit(dim, side);
    forall b: nat | b < 8 ensures BitSet(r, b) == BitSet(flags, b) {
      if b != i {
        assert BitSet(MarkFaceAsUnobscured(flags, dim, side), b) == BitSet(flags, b);
      }
    }
    BitsEqual(r, flags);
  }

  /** A chunk with an unobscured face has an exposed face. */
  lemma UnmarkedFaceIsExposed(flags: Byte, dim: Dimension, side: Side)
    ensures HasExposedFace(MarkFaceAsUnobscured(flags, dim, side))
  {
    var r := MarkFaceAsUnobscured(flags, dim, side);
    AndBit(r, FullyObscured(), FaceBit(dim, side));
  }

  lemma AndBit(a: Byte, m: Byte, b: nat)
    requires b < 8
    ensures BitSet(a & m, b) == (BitSet(a, b) && BitSet(m, b))
  {
    assert ((a & m) >> b) & 1 == ((a >> b) & 1) & ((m >> b) & 1);
  }

  /** Marking all six faces, starting from any flags, obscures the chunk. */
  lemma MarkAllFacesObscures(flags: Byte)
    ensures !HasExposedFace(
              MarkFaceAsObscured(MarkFaceAsObscured(MarkFaceAsObscured(
              MarkFaceAsObscured(MarkFaceAsObscured(MarkFaceAsObscured(
                flags, X, Lower), Y, Lower), Z, Lower), X, Upper), Y, Upper), Z, Upper))
  {
    var r := MarkFaceAsObscured(MarkFaceAsObscured(MarkFaceAsObscured(
             MarkFaceAsObscured(MarkFaceAsObscured(MarkFaceAsObscured(
               flags, X, Lower), Y, Lower), Z, Lower), X, Upper), Y, Upper), Z, Upper);
    assert forall b: nat | b < 6 :: BitSet(r, b);
    forall b: nat | b < 8 ensures BitSet(r & FullyObscured(), b) == BitSet(FullyObscured(), b) {
      AndBit(r, FullyObscured(), b);
    }
    BitsEqual(r & FullyObscured(), FullyObscured());
  }

  // ---------------------------------------------------------------------
  // VoxelChunk

  /** `VoxelChunk`. The split-detection data of a non-uniform chunk is not
      modelled; that of a uniform chunk is its index among the uniform
      chunks. */
  datatype VoxelChunk =
    | EmptyChunk
    | Uniform(voxel: Voxel, splitDetectionIdx: nat)
    | NonUniform(dataOffset: nat, faceDistributions: seq<seq<FaceVoxelDistribution>>, flags: Byte)

  /** `contains_only_empty_voxels`: an empty chunk, or a non-uniform one
      flagged `IS_EMPTY`. */
  predicate ContainsOnlyEmptyVoxels(c: VoxelChunk): (b: bool)
    ensures c.EmptyChunk? ==> b
    ensures c.Uniform? ==> !b
    ensures c.NonUniform? ==> (b <==> c.flags & IS_EMPTY_CHUNK != 0)
  {
    c.EmptyChunk? || (c.NonUniform? && c.flags & IS_EMPTY_CHUNK == IS_EMPTY_CHUNK)
  }

  /** `stored_voxel_count`: how many voxels the chunk really stores. */
  function StoredVoxelCount(c: VoxelChunk): (n: nat)
    ensures c.EmptyChunk? <==> n == 0
    ensures c.Uniform? <==> n == 1
    ensures c.NonUniform? <==> n == CHUNK_VOXEL_COUNT
  {
    match c
    case EmptyChunk => 0
    case Uniform(_, _) => 1
    case NonUniform(_, _, _) => CHUNK_VOXEL_COUNT
  }

  // ---------------------------------------------------------------------
  // VoxelChunk::for_voxels

  /** All voxels match the first in type and flags and have an extreme
      signed distance. */
  predicate IsUniform(vs: seq<Voxel>)
    requires |vs| > 0
  {
    forall idx | 0 <= idx < |vs| ::
      MatchesTypeAndFlags(vs[idx], vs[0]) && IsMaximallyInsideOrOutside(vs[idx].signedDistance)
  }

  predicate HasNonEmptyVoxels(vs: seq<Voxel>) {
    exists idx | 0 <= idx < |vs| :: !IsEmpty(vs[idx])
  }

  /** Whether the voxel at a linear index lies on the given chunk face. */
  predicate OnFace(idx: nat, dim: Dimension, side: Side) {
    Coord(ChunkVoxelIndicesFromLinearIdx(idx), dim) == (if side == Lower then 0 else CHUNK_SIZE - 1)
  }

  /** The number of empty voxels among the first `n` that lie on a face. */
  function EmptyOnFace(vs: seq<Voxel>, n: nat, dim: Dimension, side: Side): nat
    requires n <= |vs|
  {
    if n == 0 then 0
    else EmptyOnFace(vs, n - 1, dim, side) + (if IsEmpty(vs[n - 1]) && OnFace(n - 1, dim, side) then 1 else 0)
  }

  /** The number of empty voxels on each face. */
  function FaceEmptyCountsOf(vs: seq<Voxel>): (c: FaceEmptyCounts)
    ensures forall dim, side :: CountOf(c, dim, side) == EmptyOnFace(vs, |vs|, dim, side)
  {
    FaceEmptyCounts(EmptyOnFace(vs, |vs|, X, Lower), EmptyOnFace(vs, |vs|, X, Upper),
                    EmptyOnFace(vs, |vs|, Y, Lower), EmptyOnFace(vs, |vs|, Y, Upper),
                    EmptyOnFace(vs, |vs|, Z, Lower), EmptyOnFace(vs, |vs|, Z, Upper))
  }

  /** The chunk `for_voxels` makes of a chunk's 4096 voxels: uniform and
      without non-empty voxels is `Empty`; uniform with a non-empty voxel is
      `Uniform`, keeping the first voxel with full adjacency added; otherwise
      `NonUniform` with its face distributions and `IS_EMPTY` set exactly when
      no voxel is non-empty. Offsets are filled in later. */
  function ChunkForVoxels(vs: seq<Voxel>): (c: VoxelChunk)
    requires |vs| == CHUNK_VOXEL_COUNT
    ensures c.EmptyChunk? <==> IsUniform(vs) && !HasNonEmptyVoxels(vs)
    ensures c.Uniform? <==> IsUniform(vs) && HasNonEmptyVoxels(vs)
    ensures c.Uniform? ==> !IsEmpty(c.voxel) && c.voxel.voxelType == vs[0].voxelType
                           && c.voxel.flags & FullAdjacency() == FullAdjacency()
    ensures c.NonUniform? ==> (c.flags == IS_EMPTY_CHUNK <==> !HasNonEmptyVoxels(vs)) && c.flags & FullyObscured() == 0
    ensures ContainsOnlyEmptyVoxels(c) <==> !HasNonEmptyVoxels(vs)
  {
    if IsUniform(vs) then
      if HasNonEmptyVoxels(vs) then
        var idx :| 0 <= idx < |vs| && !IsEmpty(vs[idx]);
        assert MatchesTypeAndFlags(vs[idx], vs[0]);
        Uniform(AddFlags(vs[0], FullAdjacency()), 0)
      else
        EmptyChunk
    else
      NonUniform(0, ToChunkFaceDistributions(FaceEmptyCountsOf(vs)),
                 if HasNonEmptyVoxels(vs) then 0 else IS_EMPTY_CHUNK)
  }

  /** `FaceEmptyCounts::zero`. */
  function ZeroFaceEmptyCounts(): (c: FaceEmptyCounts)
    ensures forall dim, side :: CountOf(c, dim, side) == 0
  {
    FaceEmptyCounts(0, 0, 0, 0, 0, 0)
  }

  /** `increment_x_dn` … `increment_z_up`: one more empty voxel on the given
      face and no change on the other five. */
  function Increment(c: FaceEmptyCounts, dim: Dimension, side: Side): (r: FaceEmptyCounts)
    ensures forall d, s :: CountOf(r, d, s) == CountOf(c, d, s) + (if d == dim && s == side then 1 else 0)
  {
    match (dim, side)
    case (X, Lower) => c.(xDn := c.xDn + 1)
    case (X, Upper) => c.(xUp := c.xUp + 1)
    case (Y, Lower) => c.(yDn := c.yDn + 1)
    case (Y, Upper) => c.(yUp := c.yUp + 1)
    case (Z, Lower) => c.(zDn := c.zDn + 1)
    case (Z, Upper) => c.(zUp := c.zUp + 1)
  }

  /** The increment along one axis for an empty voxel at coordinate `c`:
      the lower face at 0, otherwise the upper face at the last coordinate. */
  function TallyAxis(counts: FaceEmptyCounts, dim: Dimension, c: nat): FaceEmptyCounts {
    if c == 0 then Increment(counts, dim, Lower)
    else if c == CHUNK_SIZE - 1 then Increment(counts, dim, Upper)
    else counts
  }

  /** What `for_voxels` adds to the face counts for an empty voxel at `v`
      within the chunk. */
  function TallyEmptyVoxel(counts: FaceEmptyCounts, v: Indices3): FaceEmptyCounts {
    TallyAxis(TallyAxis(TallyAxis(counts, X, v.0), Y, v.1), Z, v.2)
  }

  /** The face counts `for_voxels` has accumulated after the first `n`
      voxels. */
  function FaceEmptyCountsAfter(vs: seq<Voxel>, n: nat): FaceEmptyCounts
    requires n <= |vs|
  {
    if n == 0 then ZeroFaceEmptyCounts()
    else
      var prev := FaceEmptyCountsAfter(vs, n - 1);
      if IsEmpty(vs[n - 1]) then TallyEmptyVoxel(prev, ChunkVoxelIndicesFromLinearIdx(n - 1)) else prev
  }

  /** The accumulated counts are the numbers of empty voxels on each face. */
  lemma {:induction false} FaceEmptyCountsAfterCountsFaces(vs: seq<Voxel>, n: nat, dim: Dimension, side: Side)
    requires n <= |vs|
    ensures CountOf(FaceEmptyCountsAfter(vs, n), dim, side) == EmptyOnFace(vs, n, dim, side)
  {
    if n > 0 {
      FaceEmptyCountsAfterCountsFaces(vs, n - 1, dim, side);
      if IsEmpty(vs[n - 1]) {
        TallyEmptyVoxelCounts(FaceEmptyCountsAfter(vs, n - 1), ChunkVoxelIndicesFromLinearIdx(n - 1), dim, side);
      }
    }
  }

  /** An empty voxel at `v` adds one to a face count exactly when `v` lies on
      that face. */
  lemma TallyEmptyVoxelCounts(counts: FaceEmptyCounts, v: Indices3, dim: Dimension, side: Side)
    ensures CountOf(TallyEmptyVoxel(counts, v), dim, side)
            == CountOf(counts, dim, side) + (if Coord(v, dim) == (if side == Lower then 0 else CHUNK_SIZE - 1) then 1 else 0)
  {
    var cx := TallyAxis(counts, X, v.0);
    var cy := TallyAxis(cx, Y, v.1);
    TallyAxisCounts(counts, X, v.0, dim, side);
    TallyAxisCounts(cx, Y, v.1, dim, side);
    TallyAxisCounts(cy, Z, v.2, dim, side);
  }

  lemma TallyAxisCounts(counts: FaceEmptyCounts, axis: Dimension, c: nat, dim: Dimension, side: Side)
    ensures CountOf(TallyAxis(counts, axis, c), dim, side)
            == CountOf(counts, dim, side) + (if axis == dim && c == (if side == Lower then 0 else CHUNK_SIZE - 1) then 1 else 0)
  {
  }

  /** After all voxels the accumulated counts are `FaceEmptyCountsOf`. */
  lemma FaceEmptyCountsAfterAll(vs: seq<Voxel>)
    ensures FaceEmptyCountsAfter(vs, |vs|) == FaceEmptyCountsOf(vs)
  {
    FaceEmptyCountsAfterCountsFaces(vs, |vs|, X, Lower);
    FaceEmptyCountsAfterCountsFaces(vs, |vs|, X, Upper);
    FaceEmptyCountsAfterCountsFaces(vs, |vs|, Y, Lower);
    FaceEmptyCountsAfterCountsFaces(vs, |vs|, Y, Upper);
    FaceEmptyCountsAfterCountsFaces(vs, |vs|, Z, Lower);
    FaceEmptyCountsAfterCountsFaces(vs, |vs|, Z, Upper);
  }

  /** The first `n` voxels match the first voxel and have extreme distances. */
  ghost predicate UniformPrefix(vs: seq<Voxel>, n: nat)
    requires 0 < |vs| && n <= |vs|
  {
    forall p | 0 <= p < n :: MatchesTypeAndFlags(vs[p], vs[0]) && IsMaximallyInsideOrOutside(vs[p].signedDistance)
  }

  /** How uniformity and non-emptiness of a prefix grow by one voxel. */
  lemma PrefixStep(vs: seq<Voxel>, n: nat)
    requires n < |vs|
    ensures UniformPrefix(vs, n + 1) <==>
              UniformPrefix(vs, n) && MatchesTypeAndFlags(vs[n], vs[0]) && IsMaximallyInsideOrOutside(vs[n].signedDistance)
    ensures HasNonEmptyVoxels(vs[..n + 1]) <==> HasNonEmptyVoxels(vs[..n]) || !IsEmpty(vs[n])
  {
    assert vs[..n + 1][n] == vs[n];
    if HasNonEmptyVoxels(vs[..n + 1]) && !IsEmpty(vs[n]) {
    }
    if HasNonEmptyVoxels(vs[..n]) {
      var p :| 0 <= p < n && !IsEmpty(vs[..n][p]);
      assert vs[..n + 1][p] == vs[p];
    }
  }

  /** `for_voxels`' final case split, given uniformity, non-emptiness and
      the face counts of all voxels. */
  lemma ChunkForVoxelsCases(vs: seq<Voxel>, isUniform: bool, hasNonEmptyVoxels: bool)
    requires |vs| == CHUNK_VOXEL_COUNT
    requires isUniform == UniformPrefix(vs, |vs|) && hasNonEmptyVoxels == HasNonEmptyVoxels(vs)
    ensures ChunkForVoxels(vs) ==
            if isUniform then
              if hasNonEmptyVoxels then Uniform(AddFlags(vs[0], FullAdjacency()), 0) else EmptyChunk
            else NonUniform(0, ToChunkFaceDistributions(FaceEmptyCountsOf(vs)), if hasNonEmptyVoxels then 0 else IS_EMPTY_CHUNK)
  {
    assert isUniform == IsUniform(vs);
  }

  /** `VoxelChunk::for_voxels`: a single pass over the chunk's voxels that
      tracks uniformity, the presence of a non-empty voxel and the six face
      counts of empty voxels. */
  method ForVoxels(vs: seq<Voxel>) returns (chunk: VoxelChunk)
    requires |vs| == CHUNK_VOXEL_COUNT
    ensures chunk == ChunkForVoxels(vs)
  {
    var firstVoxel := vs[0];
    var isUniform := true;
    var hasNonEmptyVoxels := false;
    var faceEmptyCounts := ZeroFaceEmptyCounts();
    var idx := 0;
    while idx < CHUNK_VOXEL_COUNT
      invariant idx <= CHUNK_VOXEL_COUNT
      invariant isUniform == UniformPrefix(vs, idx)
      invariant hasNonEmptyVoxels == HasNonEmptyVoxels(vs[..idx])
      invariant faceEmptyCounts == FaceEmptyCountsAfter(vs, idx)
    {
      var voxel := vs[idx];
      var (i, j, k) := ChunkVoxelIndicesFromLinearIdx(idx);
      if isUniform && (!MatchesTypeAndFlags(voxel, firstVoxel) || !IsMaximallyInsideOrOutside(voxel.signedDistance)) {
        isUniform := false;
      }
      PrefixStep(vs, idx);
      if IsEmpty(voxel) {
        faceEmptyCounts := TallyEmptyVoxel(faceEmptyCounts, (i, j, k));
      } else {
        hasNonEmptyVoxels := true;
      }
      idx := idx + 1;
    }
    assert vs[..idx] == vs;
    FaceEmptyCountsAfterAll(vs);
    ChunkForVoxelsCases(vs, isUniform, hasNonEmptyVoxels);
    if isUniform {
      if hasNonEmptyVoxels {
        chunk := Uniform(AddFlags(firstVoxel, FullAdjacency()), 0);
      } else {
        chunk := EmptyChunk;
      }
    } else {
      var flags: Byte := 0;
      if !hasNonEmptyVoxels {
        flags := flags | IS_EMPTY_CHUNK;
      }
      chunk := NonUniform(0, ToChunkFaceDistributions(faceEmptyCounts), flags);
    }
  }
}
