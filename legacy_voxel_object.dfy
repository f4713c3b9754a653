/** Model of the older chunked voxel object of `engine/src/voxel/chunks.rs`.
    Generation classifies each chunk while pushing its voxels onto the
    object's voxel vector in a single pass over the chunk grid, and returns
    nothing when the grid is empty or every chunk is empty. Chunk queries are
    bounded by the occupied chunk ranges, which `shrink_occupied_ranges`
    recomputes, and `is_effectively_empty` counts the non-empty voxels of a
    small object. The voxel type is the one of the `Voxels` module. */
module LegacyChunkedVoxelObjects {
  import opened Wrappers
  import opened Arith
  import opened Voxels
  import opened VoxelChunks
  import opened ChunkedVoxelObjects

  const NON_EMPTY_VOXEL_THRESHOLD: nat := 8

  // ---------------------------------------------------------------------
  // VoxelChunk::generate

  /** The first `n` voxels match the first one in type and flags; the older
      uniformity test does not look at signed distances. */
  predicate MatchesFirstUpTo(vs: seq<Voxel>, n: nat)
    requires 0 < |vs| && n <= |vs|
  {
    forall p | 0 <= p < n :: MatchesTypeAndFlags(vs[p], vs[0])
  }

  /** The chunk the older `VoxelChunk::generate` makes of a chunk's voxels,
      with its number still to be filled in: `Empty` when every voxel
      matches an empty first voxel, `Uniform` when every voxel matches a
      non-empty first voxel (which gains full adjacency), and otherwise
      `NonUniform` with its face distributions and no flags. */
  function LegacyChunkForVoxels(vs: seq<Voxel>): (c: VoxelChunk)
    requires |vs| == CHUNK_VOXEL_COUNT
    ensures c.EmptyChunk? <==> MatchesFirstUpTo(vs, |vs|) && IsEmpty(vs[0])
    ensures c.Uniform? <==> MatchesFirstUpTo(vs, |vs|) && !IsEmpty(vs[0])
    ensures c.Uniform? ==> c.voxel.voxelType == vs[0].voxelType && c.voxel.flags & FullAdjacency() == FullAdjacency()
    ensures c.NonUniform? ==> c.flags == 0 && c.faceDistributions == ToChunkFaceDistributions(FaceEmptyCountsOf(vs))
  {
    if MatchesFirstUpTo(vs, |vs|) then
      if IsEmpty(vs[0]) then EmptyChunk else Uniform(AddFlags(vs[0], FullAdjacency()), 0)
    else
      NonUniform(0, ToChunkFaceDistributions(FaceEmptyCountsOf(vs)), 0)
  }

  /** An empty chunk holds only empty voxels and a uniform chunk only
      non-empty ones, since matching voxels share their flags. A non-uniform
      chunk may hold only empty voxels (of different types or flags). */
  lemma LegacyChunkEmptiness(vs: seq<Voxel>)
    requires |vs| == CHUNK_VOXEL_COUNT
    ensures LegacyChunkForVoxels(vs).EmptyChunk? ==> forall p | 0 <= p < |vs| :: IsEmpty(vs[p])
    ensures LegacyChunkForVoxels(vs).Uniform? ==> forall p | 0 <= p < |vs| :: !IsEmpty(vs[p])
    ensures ContainsOnlyEmptyVoxels(LegacyChunkForVoxels(vs)) <==> LegacyChunkForVoxels(vs).EmptyChunk?
  {
    var c := LegacyChunkForVoxels(vs);
    if c.NonUniform? {
      assert c.flags & IS_EMPTY_CHUNK == 0;
    }
  }

  /** Object voxel indices of the voxel at `local` within chunk `c`. */
  function ObjectVoxelIndices(c: Indices3, local: Indices3): Indices3 {
    (c.0 * CHUNK_SIZE + local.0, c.1 * CHUNK_SIZE + local.1, c.2 * CHUNK_SIZE + local.2)
  }

  /** The voxels the generator gives for the chunk at chunk indices `c`, in
      the order of the linear index within the chunk (`k` fastest, as in the
      source's three nested loops). */
  function ChunkVoxels(voxelAt: Indices3 -> Voxel, c: Indices3): (vs: seq<Voxel>)
    ensures |vs| == CHUNK_VOXEL_COUNT
    ensures vs[0] == voxelAt(ObjectVoxelIndices(c, (0, 0, 0)))
  {
    assert ChunkVoxelIndicesFromLinearIdx(0) == (0, 0, 0);
    seq(CHUNK_VOXEL_COUNT, idx requires 0 <= idx < CHUNK_VOXEL_COUNT =>
      voxelAt(ObjectVoxelIndices(c, ChunkVoxelIndicesFromLinearIdx(idx))))
  }

  /** The voxel loop of the older `VoxelChunk::generate`: the chunk's voxels
      are pushed onto the object's voxel vector while uniformity and the face
      counts of empty voxels are tracked. The three nested voxel loops are one
      loop over the linear index. */
  method PushChunkVoxels(voxels: seq<Voxel>, voxelAt: Indices3 -> Voxel, chunkIndices: Indices3)
    returns (newVoxels: seq<Voxel>, isUniform: bool, faceEmptyCounts: FaceEmptyCounts)
    ensures var vs := ChunkVoxels(voxelAt, chunkIndices);
            && newVoxels == voxels + vs
            && isUniform == MatchesFirstUpTo(vs, |vs|)
            && faceEmptyCounts == FaceEmptyCountsOf(vs)
  {
    ghost var vs := ChunkVoxels(voxelAt, chunkIndices);
    var firstVoxel := voxelAt(ObjectVoxelIndices(chunkIndices, (0, 0, 0)));
    isUniform := true;
    faceEmptyCounts := ZeroFaceEmptyCounts();
    newVoxels := voxels;
    var idx := 0;
    while idx < CHUNK_VOXEL_COUNT
      invariant idx <= CHUNK_VOXEL_COUNT
      invariant newVoxels == voxels + vs[..idx]
      invariant isUniform == MatchesFirstUpTo(vs, idx)
      invariant faceEmptyCounts == FaceEmptyCountsAfter(vs, idx)
    {
      var local := ChunkVoxelIndicesFromLinearIdx(idx);
      var voxel := voxelAt(ObjectVoxelIndices(chunkIndices, local));
      assert voxel == vs[idx];
      PushStep(vs, idx);
      if isUniform && !MatchesTypeAndFlags(voxel, firstVoxel) {
        isUniform := false;
      }
      if IsEmpty(voxel) {
        faceEmptyCounts := TallyEmptyVoxel(faceEmptyCounts, local);
      }
      newVoxels := newVoxels + [voxel];
      assert vs[..idx + 1] == vs[..idx] + [voxel];
      idx := idx + 1;
    }
    assert vs[..idx] == vs;
    FaceEmptyCountsAfterAll(vs);
  }

  /** Uniformity and the face counts after one more voxel. */
  lemma PushStep(vs: seq<Voxel>, n: nat)
    requires n < |vs|
    ensures MatchesFirstUpTo(vs, n + 1) == (MatchesFirstUpTo(vs, n) && MatchesTypeAndFlags(vs[n], vs[0]))
    ensures FaceEmptyCountsAfter(vs, n + 1)
         == if IsEmpty(vs[n]) then TallyEmptyVoxel(FaceEmptyCountsAfter(vs, n), ChunkVoxelIndicesFromLinearIdx(n))
            else FaceEmptyCountsAfter(vs, n)
  {
  }

  /** The older `VoxelChunk::generate`: after the voxel loop, a uniform
      chunk truncates its voxels away again and takes the next uniform index,
      a non-uniform one keeps them and takes as data offset its start in the
      vector divided by 4096 (cast to `u32`). */
  method GenerateChunk(voxels: seq<Voxel>, uniformChunkCount: nat, nonUniformChunkCount: nat,
                       voxelAt: Indices3 -> Voxel, chunkIndices: Indices3)
    returns (chunk: VoxelChunk, newVoxels: seq<Voxel>, newUniformChunkCount: nat, newNonUniformChunkCount: nat)
    ensures var vs := ChunkVoxels(voxelAt, chunkIndices);
            var generated := LegacyChunkForVoxels(vs);
            && chunk == InitializeChunk(generated, uniformChunkCount, ChunkDataOffsetFromStartVoxelIdx(|voxels|))
            && newVoxels == voxels + (if generated.NonUniform? then vs else [])
            && newUniformChunkCount == uniformChunkCount + (if generated.Uniform? then 1 else 0)
            && newNonUniformChunkCount == nonUniformChunkCount + (if generated.NonUniform? then 1 else 0)
  {
    var firstVoxel := voxelAt(ObjectVoxelIndices(chunkIndices, (0, 0, 0)));
    var startVoxelIdx := |voxels|;
    var isUniform, faceEmptyCounts;
    newVoxels, isUniform, faceEmptyCounts := PushChunkVoxels(voxels, voxelAt, chunkIndices);
    newUniformChunkCount, newNonUniformChunkCount := uniformChunkCount, nonUniformChunkCount;
    if isUniform {
      newVoxels := newVoxels[..startVoxelIdx];
      if IsEmpty(firstVoxel) {
        chunk := EmptyChunk;
      } else {
        chunk := Uniform(AddFlags(firstVoxel, FullAdjacency()), uniformChunkCount);
        newUniformChunkCount := uniformChunkCount + 1;
      }
    } else {
      newNonUniformChunkCount := nonUniformChunkCount + 1;
      chunk := NonUniform(ChunkDataOffsetFromStartVoxelIdx(startVoxelIdx), ToChunkFaceDistributions(faceEmptyCounts), 0);
    }
  }

  // ---------------------------------------------------------------------
  // Generation of the object

  /** The chunk that chunk number `i` of the grid is generated as, before
      numbering. */
  function LegacyGeneratedChunk(counts: Indices3, voxelAt: Indices3 -> Voxel, i: nat): VoxelChunk
    requires i < TotalChunkCount(counts)
  {
    TotalChunkCountFactors(counts);
    LegacyChunkForVoxels(ChunkVoxels(voxelAt, ChunkIndicesFromLinearIdx(counts, i)))
  }

  /** The generated chunks, in chunk order. */
  function LegacyGeneratedChunks(counts: Indices3, voxelAt: Indices3 -> Voxel): (cs: seq<VoxelChunk>)
    ensures |cs| == TotalChunkCount(counts)
  {
    seq(TotalChunkCount(counts), i requires 0 <= i < TotalChunkCount(counts) => LegacyGeneratedChunk(counts, voxelAt, i))
  }

  /** The generated voxel blocks, in chunk order. */
  function LegacyGeneratedBlocks(counts: Indices3, voxelAt: Indices3 -> Voxel): (bs: seq<seq<Voxel>>)
    ensures |bs| == TotalChunkCount(counts)
    ensures forall p | 0 <= p < |bs| :: |bs[p]| == CHUNK_VOXEL_COUNT
  {
    TotalChunkCountFactors(counts);
    seq(TotalChunkCount(counts), i requires 0 <= i < TotalChunkCount(counts) =>
      ChunkVoxels(voxelAt, ChunkIndicesFromLinearIdx(counts, i)))
  }

  /** Ranges with `start <= end` that stay inside the chunk grid. */
  predicate RangesInGrid(counts: Indices3, rs: seq<ChunkRange>) {
    && |rs| == 3
    && rs[0].start <= rs[0].end <= counts.0
    && rs[1].start <= rs[1].end <= counts.1
    && rs[2].start <= rs[2].end <= counts.2
  }

  predicate InRanges(rs: seq<ChunkRange>, c: Indices3)
    requires |rs| == 3
  {
    rs[0].start <= c.0 < rs[0].end && rs[1].start <= c.1 < rs[1].end && rs[2].start <= c.2 < rs[2].end
  }

  /** Every chunk that is not `Empty` lies inside the ranges. */
  predicate CoversNonEmptyChunks(counts: Indices3, cs: seq<VoxelChunk>, rs: seq<ChunkRange>)
    requires |cs| == TotalChunkCount(counts) && |rs| == 3
  {
    forall p | 0 <= p < |cs| && !cs[p].EmptyChunk? :: InRanges(rs, ChunkIndicesOf(counts, |cs|, p))
  }

  /** The state of a valid older chunked object: the chunk vector covers the
      grid and is numbered in order, the voxel vector holds 4096 voxels per
      non-uniform chunk, and the occupied chunk ranges lie in the grid, hold
      every non-empty chunk and, times 16, give the occupied voxel ranges. */
  ghost predicate ValidState(counts: Indices3, strides: Indices3, chunkRanges: seq<ChunkRange>, voxelRanges: seq<ChunkRange>,
                             chunks: seq<VoxelChunk>, voxels: seq<Voxel>, uniformCount: nat, nonUniformCount: nat)
  {
    && |chunks| == TotalChunkCount(counts) && |chunks| < U32_LIMIT
    && strides == ChunkIdxStrides(counts)
    && IsInitialized(chunks)
    && uniformCount == UniformCountBefore(chunks, |chunks|)
    && nonUniformCount == NonUniformCountBefore(chunks, |chunks|)
    && |voxels| == CHUNK_VOXEL_COUNT * nonUniformCount
    && RangesInGrid(counts, chunkRanges)
    && CoversNonEmptyChunks(counts, chunks, chunkRanges)
    && voxelRanges == VoxelRangesOf(chunkRanges)
  }

  /** One step of the generation loop: the chunk generated at the current
      indices is the next generated chunk, the voxel vector's length gives
      its data offset, and it is `Empty` exactly when it holds only empty
      voxels. */
  lemma LegacyGenerationStep(counts: Indices3, voxelAt: Indices3 -> Voxel, n: nat, voxels: seq<Voxel>)
    requires n < TotalChunkCount(counts) < U32_LIMIT
    requires voxels == KeptBlocks(LegacyGeneratedChunks(counts, voxelAt), LegacyGeneratedBlocks(counts, voxelAt), n)
    ensures var generated := LegacyGeneratedChunks(counts, voxelAt);
            var c := ChunkIndicesOf(counts, TotalChunkCount(counts), n);
            && generated[n] == LegacyChunkForVoxels(ChunkVoxels(voxelAt, c))
            && LegacyGeneratedBlocks(counts, voxelAt)[n] == ChunkVoxels(voxelAt, c)
            && ChunkDataOffsetFromStartVoxelIdx(|voxels|) == NonUniformCountBefore(generated, n)
            && (ContainsOnlyEmptyVoxels(generated[n]) <==> generated[n].EmptyChunk?)
  {
    var generated := LegacyGeneratedChunks(counts, voxelAt);
    var c := ChunkIndicesOf(counts, TotalChunkCount(counts), n);
    assert generated[n] == LegacyGeneratedChunk(counts, voxelAt, n);
    LegacyChunkEmptiness(ChunkVoxels(voxelAt, c));
    KeptBlocksLength(generated, LegacyGeneratedBlocks(counts, voxelAt), n);
    var nu := NonUniformCountBefore(generated, n);
    DivModUnique(|voxels|, CHUNK_VOXEL_COUNT, nu, 0);
    DivModUnique(nu, U32_LIMIT, 0, nu);
  }

  /** Every generated chunk is `Empty` exactly when it holds only empty
      voxels. */
  lemma LegacyGeneratedEmptiness(counts: Indices3, voxelAt: Indices3 -> Voxel)
    ensures var generated := LegacyGeneratedChunks(counts, voxelAt);
            forall p | 0 <= p < |generated| :: ContainsOnlyEmptyVoxels(generated[p]) <==> generated[p].EmptyChunk?
  {
    var generated := LegacyGeneratedChunks(counts, voxelAt);
    forall p | 0 <= p < |generated|
      ensures ContainsOnlyEmptyVoxels(generated[p]) <==> generated[p].EmptyChunk?
    {
      TotalChunkCountFactors(counts);
      assert generated[p] == LegacyGeneratedChunk(counts, voxelAt, p);
      LegacyChunkEmptiness(ChunkVoxels(voxelAt, ChunkIndicesFromLinearIdx(counts, p)));
    }
  }

  /** The tight occupied ranges lie in the grid and hold every non-empty
      chunk. */
  lemma OccupiedRangesInGridAndCovering(counts: Indices3, cs: seq<VoxelChunk>)
    requires |cs| == TotalChunkCount(counts) <= USIZE_MAX
    requires forall p | 0 <= p < |cs| :: ContainsOnlyEmptyVoxels(cs[p]) <==> cs[p].EmptyChunk?
    ensures RangesInGrid(counts, OccupiedChunkRanges(counts, cs))
    ensures CoversNonEmptyChunks(counts, cs, OccupiedChunkRanges(counts, cs))
  {
    var rs := OccupiedChunkRanges(counts, cs);
    OccupiedRangeInGrid(counts, cs, X);
    OccupiedRangeInGrid(counts, cs, Y);
    OccupiedRangeInGrid(counts, cs, Z);
    forall p | 0 <= p < |cs| && !cs[p].EmptyChunk?
      ensures InRanges(rs, ChunkIndicesOf(counts, |cs|, p))
    {
      OccupiedRangeHolds(counts, cs, p, X);
      OccupiedRangeHolds(counts, cs, p, Y);
      OccupiedRangeHolds(counts, cs, p, Z);
    }
  }

  /** The occupied range along `dim` ends at most at the grid's count. */
  lemma OccupiedRangeInGrid(counts: Indices3, cs: seq<VoxelChunk>, dim: Dimension)
    requires |cs| == TotalChunkCount(counts) <= USIZE_MAX
    ensures var r := OccupiedChunkRanges(counts, cs)[DimIdx(dim)];
            r.start <= r.end <= Coord(counts, dim)
  {
    var r := OccupiedChunkRanges(counts, cs)[DimIdx(dim)];
    OccupiedChunkRangesTight(counts, cs, dim);
    if HasNonEmptyChunks(cs) {
      var p :| 0 <= p < |cs| && !ContainsOnlyEmptyVoxels(cs[p]) && ChunkCoord(counts, cs, p, dim) + 1 == r.end;
      ChunkIndicesRoundTrip(counts, p);
    }
  }

  /** A non-empty chunk lies in the occupied range along `dim`. */
  lemma OccupiedRangeHolds(counts: Indices3, cs: seq<VoxelChunk>, p: nat, dim: Dimension)
    requires |cs| == TotalChunkCount(counts) <= USIZE_MAX && p < |cs|
    requires !ContainsOnlyEmptyVoxels(cs[p])
    ensures var r := OccupiedChunkRanges(counts, cs)[DimIdx(dim)];
            r.start <= Coord(ChunkIndicesOf(counts, |cs|, p), dim) < r.end
  {
    OccupiedChunkRangesTight(counts, cs, dim);
    assert Coord(ChunkIndicesOf(counts, |cs|, p), dim) == ChunkCoord(counts, cs, p, dim);
  }

  /** The generation loop of the older `generate_without_derived_state`:
      each chunk is generated in turn, pushed onto the chunk vector and, when
      it is not empty, grows the three occupied ranges. The three nested
      chunk loops are one loop over the linear chunk index. */
  method GenerateChunks(counts: Indices3, voxelAt: Indices3 -> Voxel)
    returns (chunks: seq<VoxelChunk>, voxels: seq<Voxel>, uniformChunkCount: nat, nonUniformChunkCount: nat,
             occupiedI: ChunkRange, occupiedJ: ChunkRange, occupiedK: ChunkRange)
    requires TotalChunkCount(counts) < U32_LIMIT
    ensures var generated := LegacyGeneratedChunks(counts, voxelAt);
            && chunks == InitializedChunks(generated)
            && voxels == KeptBlocks(generated, LegacyGeneratedBlocks(counts, voxelAt), |generated|)
            && uniformChunkCount == UniformCountBefore(generated, |generated|)
            && nonUniformChunkCount == NonUniformCountBefore(generated, |generated|)
            && occupiedI == OccupiedFold(counts, generated, |generated|, X)
            && occupiedJ == OccupiedFold(counts, generated, |generated|, Y)
            && occupiedK == OccupiedFold(counts, generated, |generated|, Z)
  {
    var total := counts.0 * counts.1 * counts.2;
    chunks, voxels := [], [];
    occupiedI, occupiedJ, occupiedK := ChunkRange(USIZE_MAX, 0), ChunkRange(USIZE_MAX, 0), ChunkRange(USIZE_MAX, 0);
    uniformChunkCount, nonUniformChunkCount := 0, 0;
    var chunkIdx := 0;
    while chunkIdx < total
      invariant chunkIdx <= total
      invariant GenerationState(counts, voxelAt, chunkIdx, chunks, voxels, uniformChunkCount, nonUniformChunkCount,
                                occupiedI, occupiedJ, occupiedK)
    {
      var chunkIndices := ChunkIndicesOf(counts, total, chunkIdx);
      var chunk, newVoxels, newUniformChunkCount, newNonUniformChunkCount :=
        GenerateChunk(voxels, uniformChunkCount, nonUniformChunkCount, voxelAt, chunkIndices);
      GenerationStateStep(counts, voxelAt, chunkIdx, chunks, voxels, uniformChunkCount, nonUniformChunkCount,
                          occupiedI, occupiedJ, occupiedK, chunk, newVoxels, newUniformChunkCount, newNonUniformChunkCount);
      voxels, uniformChunkCount, nonUniformChunkCount := newVoxels, newUniformChunkCount, newNonUniformChunkCount;
      if !chunk.EmptyChunk? {
        occupiedI := GrowRange(occupiedI, chunkIndices.0);
        occupiedJ := GrowRange(occupiedJ, chunkIndices.1);
        occupiedK := GrowRange(occupiedK, chunkIndices.2);
      }
      chunks := chunks + [chunk];
      chunkIdx := chunkIdx + 1;
    }
    ghost var generated := LegacyGeneratedChunks(counts, voxelAt);
    InitializedPrefixAll(generated, total);
    assert chunks == InitializedChunks(generated);
  }

  /** The state of the generation loop after the first `n` chunks. */
  ghost predicate GenerationState(counts: Indices3, voxelAt: Indices3 -> Voxel, n: nat, chunks: seq<VoxelChunk>,
                                  voxels: seq<Voxel>, uniformCount: nat, nonUniformCount: nat,
                                  occupiedI: ChunkRange, occupiedJ: ChunkRange, occupiedK: ChunkRange)
  {
    var generated := LegacyGeneratedChunks(counts, voxelAt);
    && n <= |generated|
    && chunks == InitializedPrefix(generated, n)
    && voxels == KeptBlocks(generated, LegacyGeneratedBlocks(counts, voxelAt), n)
    && uniformCount == UniformCountBefore(generated, n)
    && nonUniformCount == NonUniformCountBefore(generated, n)
    && occupiedI == OccupiedFold(counts, generated, n, X)
    && occupiedJ == OccupiedFold(counts, generated, n, Y)
    && occupiedK == OccupiedFold(counts, generated, n, Z)
  }

  /** One iteration of the generation loop keeps its state. */
  lemma GenerationStateStep(counts: Indices3, voxelAt: Indices3 -> Voxel, n: nat, chunks: seq<VoxelChunk>,
                            voxels: seq<Voxel>, uniformCount: nat, nonUniformCount: nat,
                            occupiedI: ChunkRange, occupiedJ: ChunkRange, occupiedK: ChunkRange,
                            chunk: VoxelChunk, newVoxels: seq<Voxel>, newUniformCount: nat, newNonUniformCount: nat)
    requires n < TotalChunkCount(counts) < U32_LIMIT
    requires GenerationState(counts, voxelAt, n, chunks, voxels, uniformCount, nonUniformCount, occupiedI, occupiedJ, occupiedK)
    requires var vs := ChunkVoxels(voxelAt, ChunkIndicesOf(counts, TotalChunkCount(counts), n));
             var generated := LegacyChunkForVoxels(vs);
             && chunk == InitializeChunk(generated, uniformCount, ChunkDataOffsetFromStartVoxelIdx(|voxels|))
             && newVoxels == voxels + (if generated.NonUniform? then vs else [])
             && newUniformCount == uniformCount + (if generated.Uniform? then 1 else 0)
             && newNonUniformCount == nonUniformCount + (if generated.NonUniform? then 1 else 0)
    ensures var c := ChunkIndicesOf(counts, TotalChunkCount(counts), n);
            GenerationState(counts, voxelAt, n + 1, chunks + [chunk], newVoxels, newUniformCount, newNonUniformCount,
                            if chunk.EmptyChunk? then occupiedI else GrowRange(occupiedI, c.0),
                            if chunk.EmptyChunk? then occupiedJ else GrowRange(occupiedJ, c.1),
                            if chunk.EmptyChunk? then occupiedK else GrowRange(occupiedK, c.2))
  {
    var generated := LegacyGeneratedChunks(counts, voxelAt);
    LegacyGenerationStep(counts, voxelAt, n, voxels);
    CountsStep(generated, n);
    assert chunk == InitializedAt(generated, n);
    if !chunk.EmptyChunk? {
      FoldStep(counts, generated, n);
    } else {
      FoldSkip(counts, generated, n);
    }
  }

  /** The first `n` chunks, numbered. */
  function InitializedPrefix(cs: seq<VoxelChunk>, n: nat): seq<VoxelChunk>
    requires n <= |cs|
  {
    if n == 0 then [] else InitializedPrefix(cs, n - 1) + [InitializedAt(cs, n - 1)]
  }

  lemma {:induction false} InitializedPrefixAll(cs: seq<VoxelChunk>, n: nat)
    requires n <= |cs|
    ensures |InitializedPrefix(cs, n)| == n
    ensures forall i | 0 <= i < n :: InitializedPrefix(cs, n)[i] == InitializedAt(cs, i)
  {
    if n > 0 {
      InitializedPrefixAll(cs, n - 1);
    }
  }

  /** After the loop: some folded range is empty exactly when every chunk is
      empty, and otherwise the state is a valid object with tight ranges. */
  lemma GenerationOutcome(counts: Indices3, generated: seq<VoxelChunk>, blocks: seq<seq<Voxel>>,
                          chunks: seq<VoxelChunk>, voxels: seq<Voxel>,
                          uniformCount: nat, nonUniformCount: nat, rs: seq<ChunkRange>)
    requires |generated| == |blocks| == TotalChunkCount(counts) < U32_LIMIT
    requires forall p | 0 <= p < |blocks| :: |blocks[p]| == CHUNK_VOXEL_COUNT
    requires forall p | 0 <= p < |generated| :: ContainsOnlyEmptyVoxels(generated[p]) <==> generated[p].EmptyChunk?
    requires chunks == InitializedChunks(generated)
    requires voxels == KeptBlocks(generated, blocks, |generated|)
    requires uniformCount == UniformCountBefore(generated, |generated|)
    requires nonUniformCount == NonUniformCountBefore(generated, |generated|)
    requires rs == [OccupiedFold(counts, generated, |generated|, X), OccupiedFold(counts, generated, |generated|, Y),
                    OccupiedFold(counts, generated, |generated|, Z)]
    ensures (IsEmptyRange(rs[0]) || IsEmptyRange(rs[1]) || IsEmptyRange(rs[2])) <==> !HasNonEmptyChunks(generated)
    ensures HasNonEmptyChunks(generated) ==>
              && rs == OccupiedChunkRanges(counts, chunks)
              && ValidState(counts, ChunkIdxStrides(counts), rs, VoxelRangesOf(rs), chunks, voxels, uniformCount, nonUniformCount)
  {
    OccupiedFoldTight(counts, generated, |generated|, X);
    OccupiedChunkRangesTight(counts, generated, X);
    OccupiedChunkRangesTight(counts, generated, Y);
    OccupiedChunkRangesTight(counts, generated, Z);
    if HasNonEmptyChunks(generated) {
      InitializedObjectFacts(counts, generated, blocks, chunks, voxels);
      forall p | 0 <= p < |chunks|
        ensures ContainsOnlyEmptyVoxels(chunks[p]) <==> chunks[p].EmptyChunk?
      {
        assert chunks[p].EmptyChunk? == generated[p].EmptyChunk?;
      }
      OccupiedRangesInGridAndCovering(counts, chunks);
    }
  }

  /** The older `generate_without_derived_state`: nothing for a grid with a
      zero dimension or when every chunk is empty; otherwise an object whose
      chunks are the generated ones numbered in order, whose voxel vector
      holds the voxels of the non-uniform chunks one block after the other,
      and whose occupied ranges are tight. Fewer than `2^32` chunks are
      assumed, so that the `u32` data offsets do not wrap. */
  method GenerateWithoutDerivedState(gridShape: Indices3, voxelAt: Indices3 -> Voxel)
    returns (result: Option<LegacyChunkedVoxelObject>)
    requires TotalChunkCount(ChunkCounts(gridShape)) < U32_LIMIT
    ensures var generated := LegacyGeneratedChunks(ChunkCounts(gridShape), voxelAt);
            result.None? <==> gridShape.0 == 0 || gridShape.1 == 0 || gridShape.2 == 0 || !HasNonEmptyChunks(generated)
    ensures result.Some? ==>
              var o := result.value;
              var counts := ChunkCounts(gridShape);
              var generated := LegacyGeneratedChunks(counts, voxelAt);
              && fresh(o) && o.Valid() && o.chunkCounts == counts
              && o.chunks == InitializedChunks(generated)
              && o.voxels == KeptBlocks(generated, LegacyGeneratedBlocks(counts, voxelAt), |generated|)
              && o.occupiedChunkRanges == OccupiedChunkRanges(counts, o.chunks)
  {
    var counts := ChunkCounts(gridShape);
    if gridShape.0 == 0 || gridShape.1 == 0 || gridShape.2 == 0 {
      return None;
    }
    var chunks, voxels, uniformChunkCount, nonUniformChunkCount, occupiedI, occupiedJ, occupiedK :=
      GenerateChunks(counts, voxelAt);
    var occupiedChunkRanges := [occupiedI, occupiedJ, occupiedK];
    LegacyGeneratedEmptiness(counts, voxelAt);
    GenerationOutcome(counts, LegacyGeneratedChunks(counts, voxelAt), LegacyGeneratedBlocks(counts, voxelAt),
                      chunks, voxels, uniformChunkCount, nonUniformChunkCount, occupiedChunkRanges);
    if IsEmptyRange(occupiedI) || IsEmptyRange(occupiedJ) || IsEmptyRange(occupiedK) {
      return None;
    }
    var o := new LegacyChunkedVoxelObject.Init(counts, ChunkIdxStrides(counts), occupiedChunkRanges,
                                                VoxelRangesOf(occupiedChunkRanges), chunks, voxels,
                                                uniformChunkCount, nonUniformChunkCount);
    result := Some(o);
  }

  // ---------------------------------------------------------------------
  // Walking the box of the occupied ranges

  /** `Range::len`: zero for a reversed range. */
  function RangeLen(r: ChunkRange): nat {
    if r.start <= r.end then r.end - r.start else 0
  }

  /** The sizes of the box the occupied ranges span. */
  function BoxDims(rs: seq<ChunkRange>): Indices3
    requires |rs| == 3
  {
    (RangeLen(rs[0]), RangeLen(rs[1]), RangeLen(rs[2]))
  }

  /** The chunk indices the nested loops over the ranges visit at step `m`,
      the last dimension running fastest. */
  function BoxCoords(rs: seq<ChunkRange>, m: nat): (c: Indices3)
    requires |rs| == 3 && m < TotalChunkCount(BoxDims(rs))
    ensures InRanges(rs, c)
  {
    var dims := BoxDims(rs);
    ChunkIndicesRoundTrip(dims, m);
    var local := ChunkIndicesFromLinearIdx(dims, m);
    (rs[0].start + local.0, rs[1].start + local.1, rs[2].start + local.2)
  }

  /** The chunk the walk visits at step `m`. */
  function BoxChunk(counts: Indices3, cs: seq<VoxelChunk>, rs: seq<ChunkRange>, m: nat): VoxelChunk
    requires |cs| == TotalChunkCount(counts) && RangesInGrid(counts, rs)
    requires m < TotalChunkCount(BoxDims(rs))
  {
    cs[LinearChunkIdx(counts, BoxCoords(rs, m))]
  }

  /** One step of the walk: the indices it visits and whether the chunk
      there is not `Empty`. */
  datatype Visit = Visit(coords: Indices3, occupied: bool)

  const MAX_INDICES: Indices3 := (USIZE_MAX, USIZE_MAX, USIZE_MAX)

  function WalkVisit(counts: Indices3, cs: seq<VoxelChunk>, rs: seq<ChunkRange>, q: nat): (v: Visit)
    requires |cs| == TotalChunkCount(counts) && RangesInGrid(counts, rs)
    requires q < TotalChunkCount(BoxDims(rs))
    ensures v.coords == BoxCoords(rs, q) && v.occupied == !BoxChunk(counts, cs, rs, q).EmptyChunk?
    ensures InGrid(counts, v.coords)
    ensures |cs| <= USIZE_MAX ==> Below(v.coords, MAX_INDICES)
  {
    var c := BoxCoords(rs, q);
    CoordBelowTotal(counts, c, X);
    CoordBelowTotal(counts, c, Y);
    CoordBelowTotal(counts, c, Z);
    Visit(c, !BoxChunk(counts, cs, rs, q).EmptyChunk?)
  }

  /** The visits of the whole walk over the ranges. */
  function BoxWalk(counts: Indices3, cs: seq<VoxelChunk>, rs: seq<ChunkRange>): (w: seq<Visit>)
    requires |cs| == TotalChunkCount(counts) && RangesInGrid(counts, rs)
    ensures |w| == TotalChunkCount(BoxDims(rs))
  {
    seq(TotalChunkCount(BoxDims(rs)), q requires 0 <= q < TotalChunkCount(BoxDims(rs)) => WalkVisit(counts, cs, rs, q))
  }

  /** The walk stays inside the ranges and below `usize::MAX`. */
  lemma BoxWalkInside(counts: Indices3, cs: seq<VoxelChunk>, rs: seq<ChunkRange>)
    requires |cs| == TotalChunkCount(counts) <= USIZE_MAX && RangesInGrid(counts, rs)
    ensures WalkInside(BoxWalk(counts, cs, rs), rs)
  {
    var w := BoxWalk(counts, cs, rs);
    forall q | 0 <= q < |w|
      ensures InRanges(rs, w[q].coords) && Below(w[q].coords, MAX_INDICES)
    {
      assert w[q] == WalkVisit(counts, cs, rs, q);
    }
  }

  /** Every chunk inside the ranges is visited by some step of the walk. */
  lemma BoxStepOf(counts: Indices3, cs: seq<VoxelChunk>, rs: seq<ChunkRange>, p: nat) returns (m: nat)
    requires |cs| == TotalChunkCount(counts) && RangesInGrid(counts, rs)
    requires p < |cs| && InRanges(rs, ChunkIndicesOf(counts, |cs|, p))
    ensures m < TotalChunkCount(BoxDims(rs))
    ensures BoxCoords(rs, m) == ChunkIndicesOf(counts, |cs|, p)
    ensures BoxChunk(counts, cs, rs, m) == cs[p]
  {
    var c := ChunkIndicesOf(counts, |cs|, p);
    var dims := BoxDims(rs);
    var local := (c.0 - rs[0].start, c.1 - rs[1].start, c.2 - rs[2].start);
    m := LinearChunkIdx(dims, local);
    ChunkIndicesRoundTrip(counts, p);
  }

  /** The smallest and largest chunk indices of the non-Empty chunks found
      so far, and whether there is one. */
  datatype Extent = Extent(lower: Indices3, upper: Indices3, found: bool)

  /** `usize::MAX` and zero, which `shrink_occupied_ranges` starts from. */
  const NO_EXTENT := Extent(MAX_INDICES, (0, 0, 0), false)

  function Inf(a: Indices3, b: Indices3): Indices3 {
    (Min(a.0, b.0), Min(a.1, b.1), Min(a.2, b.2))
  }

  function Sup(a: Indices3, b: Indices3): Indices3 {
    (Max(a.0, b.0), Max(a.1, b.1), Max(a.2, b.2))
  }

  predicate Below(a: Indices3, b: Indices3) {
    a.0 <= b.0 && a.1 <= b.1 && a.2 <= b.2
  }

  /** The extent after the first `m` visits of a walk. */
  function ExtentAfter(w: seq<Visit>, m: nat): Extent
    requires m <= |w|
  {
    if m == 0 then NO_EXTENT
    else
      var e := ExtentAfter(w, m - 1);
      if w[m - 1].occupied then Extent(Inf(e.lower, w[m - 1].coords), Sup(e.upper, w[m - 1].coords), true) else e
  }

  /** Every visit of the walk lies inside the ranges and below `usize::MAX`. */
  predicate WalkInside(w: seq<Visit>, rs: seq<ChunkRange>)
    requires |rs| == 3
  {
    forall q | 0 <= q < |w| :: InRanges(rs, w[q].coords) && Below(w[q].coords, MAX_INDICES)
  }

  /** An extent is either the starting one or an ordered pair of indices
      whose upper end lies inside the ranges. */
  predicate ExtentInside(e: Extent, rs: seq<ChunkRange>)
    requires |rs| == 3
  {
    && (!e.found ==> e == NO_EXTENT)
    && (e.found ==> Below(e.lower, e.upper) && InRanges(rs, e.upper))
  }

  /** The extent after `m` visits keeps its shape, is found exactly when an
      occupied chunk was visited, and bounds every occupied visit. */
  lemma {:induction false} ExtentAfterBounds(w: seq<Visit>, rs: seq<ChunkRange>, m: nat)
    requires |rs| == 3 && m <= |w| && WalkInside(w, rs)
    ensures ExtentInside(ExtentAfter(w, m), rs)
    ensures ExtentAfter(w, m).found <==> exists q | 0 <= q < m :: w[q].occupied
    ensures forall q | 0 <= q < m && w[q].occupied ::
              Below(ExtentAfter(w, m).lower, w[q].coords) && Below(w[q].coords, ExtentAfter(w, m).upper)
  {
    if m > 0 {
      ExtentAfterBounds(w, rs, m - 1);
      var e, e' := ExtentAfter(w, m - 1), ExtentAfter(w, m);
      if w[m - 1].occupied {
        forall q | 0 <= q < m && w[q].occupied
          ensures Below(e'.lower, w[q].coords) && Below(w[q].coords, e'.upper)
        {
          if q < m - 1 {
            assert Below(e'.lower, e.lower) && Below(e.upper, e'.upper);
          }
        }
      }
    }
  }

  /** Each bound of the extent is attained by an occupied visit. */
  lemma {:induction false} ExtentAfterAttained(w: seq<Visit>, rs: seq<ChunkRange>, m: nat, dim: Dimension)
    requires |rs| == 3 && m <= |w| && WalkInside(w, rs)
    ensures var e := ExtentAfter(w, m);
            e.found ==>
              && (exists q | 0 <= q < m && w[q].occupied :: Coord(w[q].coords, dim) == Coord(e.lower, dim))
              && (exists q | 0 <= q < m && w[q].occupied :: Coord(w[q].coords, dim) == Coord(e.upper, dim))
  {
    if m > 0 {
      ExtentAfterAttained(w, rs, m - 1, dim);
      ExtentAfterBounds(w, rs, m - 1);
    }
  }

  /** The chunk ranges an extent gives: from its lower to one past its
      upper indices, or `0..0` when nothing was found. */
  function RangesOfExtent(e: Extent): (r: seq<ChunkRange>)
    ensures |r| == 3
  {
    if e.found then
      [ChunkRange(e.lower.0, e.upper.0 + 1), ChunkRange(e.lower.1, e.upper.1 + 1), ChunkRange(e.lower.2, e.upper.2 + 1)]
    else
      [ChunkRange(0, 0), ChunkRange(0, 0), ChunkRange(0, 0)]
  }

  /** The chunk ranges `shrink_occupied_ranges` sets: those of the extent
      of the non-Empty chunks inside the old ranges. */
  function ShrunkRanges(counts: Indices3, cs: seq<VoxelChunk>, rs: seq<ChunkRange>): (r: seq<ChunkRange>)
    requires |cs| == TotalChunkCount(counts) && RangesInGrid(counts, rs)
    ensures |r| == 3
  {
    var w := BoxWalk(counts, cs, rs);
    RangesOfExtent(ExtentAfter(w, |w|))
  }

  /** Whether some chunk of the grid is not `Empty`. */
  predicate HasNonEmptyChunk(cs: seq<VoxelChunk>) {
    exists p | 0 <= p < |cs| :: !cs[p].EmptyChunk?
  }

  /** Shrinking keeps a valid object valid: the new ranges lie in the grid
      and still hold every non-Empty chunk; they are `0..0` exactly when
      every chunk is `Empty`. */
  lemma ShrunkRangesValid(counts: Indices3, cs: seq<VoxelChunk>, rs: seq<ChunkRange>)
    requires |cs| == TotalChunkCount(counts) < U32_LIMIT && RangesInGrid(counts, rs)
    requires CoversNonEmptyChunks(counts, cs, rs)
    ensures RangesInGrid(counts, ShrunkRanges(counts, cs, rs))
    ensures CoversNonEmptyChunks(counts, cs, ShrunkRanges(counts, cs, rs))
    ensures ShrunkRanges(counts, cs, rs) == [ChunkRange(0, 0), ChunkRange(0, 0), ChunkRange(0, 0)]
            <==> !HasNonEmptyChunk(cs)
  {
    var w := BoxWalk(counts, cs, rs);
    BoxWalkInside(counts, cs, rs);
    ExtentAfterBounds(w, rs, |w|);
    var e := ExtentAfter(w, |w|);
    var r := ShrunkRanges(counts, cs, rs);
    assert r == RangesOfExtent(e);
    RangesOfExtentInGrid(counts, rs, e);
    forall p | 0 <= p < |cs| && !cs[p].EmptyChunk?
      ensures InRanges(r, ChunkIndicesOf(counts, |cs|, p))
    {
      var m := BoxStepOf(counts, cs, rs, p);
      assert w[m] == WalkVisit(counts, cs, rs, m);
      RangesOfExtentHold(e, w[m].coords);
    }
    if e.found {
      var q :| 0 <= q < |w| && w[q].occupied;
      assert w[q] == WalkVisit(counts, cs, rs, q);
    }
  }

  /** The ranges of an extent inside grid ranges lie in the grid. */
  lemma RangesOfExtentInGrid(counts: Indices3, rs: seq<ChunkRange>, e: Extent)
    requires RangesInGrid(counts, rs) && ExtentInside(e, rs)
    ensures RangesInGrid(counts, RangesOfExtent(e))
  {
  }

  /** The ranges of a found extent hold every index between its bounds. */
  lemma RangesOfExtentHold(e: Extent, c: Indices3)
    requires e.found && Below(e.lower, c) && Below(c, e.upper)
    ensures InRanges(RangesOfExtent(e), c)
  {
  }

  /** Replacing the occupied ranges of a valid object by the shrunk ones
      keeps it valid. */
  lemma ShrinkKeepsValidState(counts: Indices3, strides: Indices3, chunkRanges: seq<ChunkRange>, voxelRanges: seq<ChunkRange>,
                              cs: seq<VoxelChunk>, vs: seq<Voxel>, uniformCount: nat, nonUniformCount: nat)
    requires ValidState(counts, strides, chunkRanges, voxelRanges, cs, vs, uniformCount, nonUniformCount)
    ensures var r := ShrunkRanges(counts, cs, chunkRanges);
            ValidState(counts, strides, r, VoxelRangesOf(r), cs, vs, uniformCount, nonUniformCount)
  {
    ShrunkRangesValid(counts, cs, chunkRanges);
  }

  /** The chunk of the grid a visit of the walk looks at. */
  lemma VisitedChunk(counts: Indices3, cs: seq<VoxelChunk>, rs: seq<ChunkRange>, q: nat) returns (p: nat)
    requires |cs| == TotalChunkCount(counts) && RangesInGrid(counts, rs)
    requires q < TotalChunkCount(BoxDims(rs))
    ensures p < |cs| && ChunkIndicesOf(counts, |cs|, p) == BoxCoords(rs, q)
    ensures cs[p] == BoxChunk(counts, cs, rs, q)
  {
    p := LinearChunkIdx(counts, BoxCoords(rs, q));
  }

  /** Along each dimension the new range runs from the extent's lower to
      one past its upper index. */
  lemma ShrunkRangeAt(counts: Indices3, cs: seq<VoxelChunk>, rs: seq<ChunkRange>, dim: Dimension)
    requires |cs| == TotalChunkCount(counts) && RangesInGrid(counts, rs)
    requires ExtentAfter(BoxWalk(counts, cs, rs), TotalChunkCount(BoxDims(rs))).found
    ensures var e := ExtentAfter(BoxWalk(counts, cs, rs), TotalChunkCount(BoxDims(rs)));
            ShrunkRanges(counts, cs, rs)[DimIdx(dim)] == ChunkRange(Coord(e.lower, dim), Coord(e.upper, dim) + 1)
  {
  }

  /** The new ranges are tight: along every dimension, some non-Empty chunk
      sits at the start of the new range and some at its last index. */
  lemma ShrunkRangesTight(counts: Indices3, cs: seq<VoxelChunk>, rs: seq<ChunkRange>, dim: Dimension)
    requires |cs| == TotalChunkCount(counts) < U32_LIMIT && RangesInGrid(counts, rs)
    requires CoversNonEmptyChunks(counts, cs, rs)
    requires HasNonEmptyChunk(cs)
    ensures var r := ShrunkRanges(counts, cs, rs)[DimIdx(dim)];
            && (exists p | 0 <= p < |cs| && !cs[p].EmptyChunk? :: Coord(ChunkIndicesOf(counts, |cs|, p), dim) == r.start)
            && (exists p | 0 <= p < |cs| && !cs[p].EmptyChunk? :: Coord(ChunkIndicesOf(counts, |cs|, p), dim) + 1 == r.end)
  {
    var w := BoxWalk(counts, cs, rs);
    ShrunkRangesValid(counts, cs, rs);
    BoxWalkInside(counts, cs, rs);
    ExtentAfterBounds(w, rs, |w|);
    ExtentAfterAttained(w, rs, |w|, dim);
    var e := ExtentAfter(w, |w|);
    ShrunkRangeAt(counts, cs, rs, dim);
    var r := ShrunkRanges(counts, cs, rs)[DimIdx(dim)];
    var q1 :| 0 <= q1 < |w| && w[q1].occupied && Coord(w[q1].coords, dim) == Coord(e.lower, dim);
    var q2 :| 0 <= q2 < |w| && w[q2].occupied && Coord(w[q2].coords, dim) == Coord(e.upper, dim);
    assert w[q1] == WalkVisit(counts, cs, rs, q1) && w[q2] == WalkVisit(counts, cs, rs, q2);
    var p1 := VisitedChunk(counts, cs, rs, q1);
    var p2 := VisitedChunk(counts, cs, rs, q2);
    assert !cs[p1].EmptyChunk? && Coord(ChunkIndicesOf(counts, |cs|, p1), dim) == r.start;
    assert !cs[p2].EmptyChunk? && Coord(ChunkIndicesOf(counts, |cs|, p2), dim) + 1 == r.end;
  }

  // ---------------------------------------------------------------------
  // is_effectively_empty

  /** The number of non-empty voxels in `vs`. */
  function NonEmptyVoxelCount(vs: seq<Voxel>): (n: nat)
    ensures n <= |vs|
  {
    if |vs| == 0 then 0 else NonEmptyVoxelCount(vs[..|vs| - 1]) + (if IsEmpty(vs[|vs| - 1]) then 0 else 1)
  }

  /** Every non-uniform chunk's voxels lie inside the voxel vector. */
  predicate DataInVoxels(cs: seq<VoxelChunk>, voxels: seq<Voxel>) {
    forall p | 0 <= p < |cs| && cs[p].NonUniform? ::
      CHUNK_VOXEL_COUNT * cs[p].dataOffset + CHUNK_VOXEL_COUNT <= |voxels|
  }

  /** A valid object's non-uniform chunks point into its voxel vector. */
  lemma ValidDataInVoxels(counts: Indices3, strides: Indices3, chunkRanges: seq<ChunkRange>, voxelRanges: seq<ChunkRange>,
                          cs: seq<VoxelChunk>, voxels: seq<Voxel>, uniformCount: nat, nonUniformCount: nat)
    requires ValidState(counts, strides, chunkRanges, voxelRanges, cs, voxels, uniformCount, nonUniformCount)
    ensures DataInVoxels(cs, voxels)
  {
    forall p | 0 <= p < |cs| && cs[p].NonUniform?
      ensures CHUNK_VOXEL_COUNT * cs[p].dataOffset + CHUNK_VOXEL_COUNT <= |voxels|
    {
      assert cs[p] == InitializedAt(cs, p);
      InitializedNumbersBelow(cs, p, |cs|);
    }
  }

  /** The non-empty voxels a chunk holds: none for an empty chunk, all 4096
      for a uniform one, and those of its stored voxels otherwise. */
  function ChunkNonEmptyVoxelCount(c: VoxelChunk, voxels: seq<Voxel>): nat
    requires c.NonUniform? ==> CHUNK_VOXEL_COUNT * c.dataOffset + CHUNK_VOXEL_COUNT <= |voxels|
  {
    match c
    case EmptyChunk => 0
    case Uniform(_, _) => CHUNK_VOXEL_COUNT
    case NonUniform(offset, _, _) =>
      var start := CHUNK_VOXEL_COUNT * offset;
      NonEmptyVoxelCount(voxels[start..start + CHUNK_VOXEL_COUNT])
  }

  /** The non-empty voxels of the chunks the first `m` steps of the walk
      visit. */
  function BoxNonEmptyVoxelCount(counts: Indices3, cs: seq<VoxelChunk>, voxels: seq<Voxel>, rs: seq<ChunkRange>, m: nat): nat
    requires |cs| == TotalChunkCount(counts) && RangesInGrid(counts, rs) && DataInVoxels(cs, voxels)
    requires m <= TotalChunkCount(BoxDims(rs))
  {
    if m == 0 then 0
    else BoxNonEmptyVoxelCount(counts, cs, voxels, rs, m - 1) + ChunkNonEmptyVoxelCount(BoxChunk(counts, cs, rs, m - 1), voxels)
  }

  /** What `is_effectively_empty` answers: an object spanning more than 8
      chunks is not, one spanning none is, and otherwise the non-empty
      voxels of the spanned chunks are counted against the threshold. */
  function EffectivelyEmpty(counts: Indices3, cs: seq<VoxelChunk>, voxels: seq<Voxel>, rs: seq<ChunkRange>): bool
    requires |cs| == TotalChunkCount(counts) && RangesInGrid(counts, rs) && DataInVoxels(cs, voxels)
  {
    var n := TotalChunkCount(BoxDims(rs));
    if n > 8 then false
    else if n == 0 then true
    else BoxNonEmptyVoxelCount(counts, cs, voxels, rs, n) < NON_EMPTY_VOXEL_THRESHOLD
  }

  /** The count only grows along the walk. */
  lemma {:induction false} BoxCountCoversStep(counts: Indices3, cs: seq<VoxelChunk>, voxels: seq<Voxel>,
                                              rs: seq<ChunkRange>, q: nat, m: nat)
    requires |cs| == TotalChunkCount(counts) && RangesInGrid(counts, rs) && DataInVoxels(cs, voxels)
    requires q < m <= TotalChunkCount(BoxDims(rs))
    ensures BoxNonEmptyVoxelCount(counts, cs, voxels, rs, m) >= ChunkNonEmptyVoxelCount(BoxChunk(counts, cs, rs, q), voxels)
  {
    if q < m - 1 {
      BoxCountCoversStep(counts, cs, voxels, rs, q, m - 1);
    }
  }

  /** A uniform chunk inside the ranges makes the object not effectively
      empty. */
  lemma UniformChunkNotEffectivelyEmpty(counts: Indices3, cs: seq<VoxelChunk>, voxels: seq<Voxel>,
                                        rs: seq<ChunkRange>, p: nat)
    requires |cs| == TotalChunkCount(counts) && RangesInGrid(counts, rs) && DataInVoxels(cs, voxels)
    requires p < |cs| && cs[p].Uniform? && InRanges(rs, ChunkIndicesOf(counts, |cs|, p))
    ensures !EffectivelyEmpty(counts, cs, voxels, rs)
  {
    var m := BoxStepOf(counts, cs, rs, p);
    var n := TotalChunkCount(BoxDims(rs));
    if n <= 8 {
      BoxCountCoversStep(counts, cs, voxels, rs, m, n);
    }
  }

  /** When every chunk inside the ranges is `Empty`, the object is
      effectively empty exactly when the ranges span at most 8 chunks. */
  lemma {:induction false} EmptyBoxCountsNothing(counts: Indices3, cs: seq<VoxelChunk>, voxels: seq<Voxel>,
                                                 rs: seq<ChunkRange>, m: nat)
    requires |cs| == TotalChunkCount(counts) && RangesInGrid(counts, rs) && DataInVoxels(cs, voxels)
    requires m <= TotalChunkCount(BoxDims(rs))
    requires forall q | 0 <= q < m :: BoxChunk(counts, cs, rs, q).EmptyChunk?
    ensures BoxNonEmptyVoxelCount(counts, cs, voxels, rs, m) == 0
  {
    if m > 0 {
      EmptyBoxCountsNothing(counts, cs, voxels, rs, m - 1);
    }
  }

  /** Once the ranges are shrunk, an object whose chunks are all `Empty`
      is effectively empty. */
  lemma ShrunkEmptyObjectIsEffectivelyEmpty(counts: Indices3, cs: seq<VoxelChunk>, voxels: seq<Voxel>, rs: seq<ChunkRange>)
    requires |cs| == TotalChunkCount(counts) < U32_LIMIT && RangesInGrid(counts, rs)
    requires CoversNonEmptyChunks(counts, cs, rs)
    requires !HasNonEmptyChunk(cs)
    ensures RangesInGrid(counts, ShrunkRanges(counts, cs, rs)) && DataInVoxels(cs, voxels)
    ensures EffectivelyEmpty(counts, cs, voxels, ShrunkRanges(counts, cs, rs))
  {
    ShrunkRangesValid(counts, cs, rs);
    assert TotalChunkCount(BoxDims(ShrunkRanges(counts, cs, rs))) == 0;
  }

  /** The loops of `shrink_occupied_ranges` over the old ranges, walked by
      a single index with the last dimension fastest: they track the extent
      of the non-Empty chunks and turn it into the new chunk ranges. */
  method ComputeShrunkRanges(counts: Indices3, cs: seq<VoxelChunk>, rs: seq<ChunkRange>) returns (newRanges: seq<ChunkRange>)
    requires |cs| == TotalChunkCount(counts) && RangesInGrid(counts, rs)
    ensures newRanges == ShrunkRanges(counts, cs, rs)
  {
    var dims := BoxDims(rs);
    var boxCount := dims.0 * dims.1 * dims.2;
    ghost var w := BoxWalk(counts, cs, rs);
    var extent := NO_EXTENT;
    var m := 0;
    while m < boxCount
      invariant m <= boxCount == |w|
      invariant extent == ExtentAfter(w, m)
    {
      var chunkIndices := BoxCoords(rs, m);
      var chunk := cs[LinearChunkIdx(counts, chunkIndices)];
      ExtentStep(counts, cs, rs, w, m, chunkIndices, chunk);
      if chunk.Uniform? || chunk.NonUniform? {
        extent := Extent(Inf(extent.lower, chunkIndices), Sup(extent.upper, chunkIndices), true);
      }
      m := m + 1;
    }
    newRanges := RangesOfExtent(extent);
  }

  /** One step of the walk grows the extent by the visited chunk's indices
      when that chunk is not `Empty`. */
  lemma ExtentStep(counts: Indices3, cs: seq<VoxelChunk>, rs: seq<ChunkRange>, w: seq<Visit>, m: nat,
                   c: Indices3, chunk: VoxelChunk)
    requires |cs| == TotalChunkCount(counts) && RangesInGrid(counts, rs)
    requires w == BoxWalk(counts, cs, rs) && m < |w|
    requires c == BoxCoords(rs, m) && chunk == cs[LinearChunkIdx(counts, c)]
    ensures var e := ExtentAfter(w, m);
            ExtentAfter(w, m + 1) ==
              if chunk.Uniform? || chunk.NonUniform? then Extent(Inf(e.lower, c), Sup(e.upper, c), true) else e
  {
    assert w[m] == WalkVisit(counts, cs, rs, m);
  }

  /** The counting of `is_effectively_empty`, with the nested loops over the
      occupied ranges walked by a single index. */
  method CountEffectivelyEmpty(counts: Indices3, cs: seq<VoxelChunk>, voxels: seq<Voxel>, rs: seq<ChunkRange>)
    returns (b: bool)
    requires |cs| == TotalChunkCount(counts) && RangesInGrid(counts, rs) && DataInVoxels(cs, voxels)
    ensures b == EffectivelyEmpty(counts, cs, voxels, rs)
  {
    var dims := BoxDims(rs);
    var occupiedChunkCount := dims.0 * dims.1 * dims.2;
    if occupiedChunkCount > 8 {
      return false;
    } else if occupiedChunkCount == 0 {
      return true;
    }
    var totalNonEmptyVoxelCount := SumNonEmptyVoxelCounts(counts, cs, voxels, rs, occupiedChunkCount);
    b := totalNonEmptyVoxelCount < NON_EMPTY_VOXEL_THRESHOLD;
  }

  /** The loops of `is_effectively_empty` that add up the non-empty voxels
      of the chunks in the ranges, walked by a single index. */
  method SumNonEmptyVoxelCounts(counts: Indices3, cs: seq<VoxelChunk>, voxels: seq<Voxel>, rs: seq<ChunkRange>, n: nat)
    returns (total: nat)
    requires |cs| == TotalChunkCount(counts) && RangesInGrid(counts, rs) && DataInVoxels(cs, voxels)
    requires n == TotalChunkCount(BoxDims(rs))
    ensures total == BoxNonEmptyVoxelCount(counts, cs, voxels, rs, n)
  {
    total := 0;
    var m := 0;
    while m < n
      invariant m <= n
      invariant total == BoxNonEmptyVoxelCount(counts, cs, voxels, rs, m)
    {
      var chunk := cs[LinearChunkIdx(counts, BoxCoords(rs, m))];
      total := total + ChunkNonEmptyVoxelCount(chunk, voxels);
      m := m + 1;
    }
  }

  // ---------------------------------------------------------------------
  // The object

  /** The part of the older `ChunkedVoxelObject` that generation and the
      occupied ranges determine. The derived state (adjacencies, split
      detection, meshing invalidation) and the voxel extent are not
      modelled. */
  class LegacyChunkedVoxelObject {
    const chunkCounts: Indices3
    const chunkIdxStrides: Indices3
    var occupiedChunkRanges: seq<ChunkRange>
    var occupiedVoxelRanges: seq<ChunkRange>
    var chunks: seq<VoxelChunk>
    var voxels: seq<Voxel>
    /** The counts handed to the split detector. */
    var uniformChunkCount: nat
    var nonUniformChunkCount: nat

    ghost predicate Valid()
      reads this
    {
      ValidState(chunkCounts, chunkIdxStrides, occupiedChunkRanges, occupiedVoxelRanges,
                 chunks, voxels, uniformChunkCount, nonUniformChunkCount)
    }

    /** The struct literal at the end of generation. */
    constructor Init(counts: Indices3, strides: Indices3, chunkRanges: seq<ChunkRange>, voxelRanges: seq<ChunkRange>,
                     cs: seq<VoxelChunk>, vs: seq<Voxel>, uniformCount: nat, nonUniformCount: nat)
      requires ValidState(counts, strides, chunkRanges, voxelRanges, cs, vs, uniformCount, nonUniformCount)
      ensures Valid()
      ensures chunkCounts == counts && chunkIdxStrides == strides
      ensures occupiedChunkRanges == chunkRanges && occupiedVoxelRanges == voxelRanges
      ensures chunks == cs && voxels == vs
      ensures uniformChunkCount == uniformCount && nonUniformChunkCount == nonUniformCount
    {
      chunkCounts, chunkIdxStrides := counts, strides;
      occupiedChunkRanges, occupiedVoxelRanges := chunkRanges, voxelRanges;
      chunks, voxels := cs, vs;
      uniformChunkCount, nonUniformChunkCount := uniformCount, nonUniformCount;
    }

    /** `stored_voxel_count`: the sum over the chunks, which is the number of
        voxels in the voxel vector plus one per uniform chunk. */
    function StoredVoxelCountOfObject(): (n: nat)
      reads this
      requires Valid()
      ensures n == |voxels| + uniformChunkCount
    {
      StoredVoxelCountOfCounts(chunks, |chunks|);
      assert chunks[..|chunks|] == chunks;
      StoredVoxelCountOf(chunks)
    }

    /** `get_chunk`: the chunk at the given (possibly negative) indices, or
        an empty chunk outside the occupied chunk ranges. */
    function GetChunk(i: int, j: int, k: int): (c: VoxelChunk)
      reads this
      requires Valid()
      ensures !(0 <= i && 0 <= j && 0 <= k && InRanges(occupiedChunkRanges, (i, j, k))) ==> c == EmptyChunk
    {
      var rs := occupiedChunkRanges;
      if i < rs[0].start || j < rs[1].start || k < rs[2].start || i >= rs[0].end || j >= rs[1].end || k >= rs[2].end then
        EmptyChunk
      else
        chunks[LinearChunkIdx(chunkCounts, (i, j, k))]
    }

    /** Bounding the lookup by the occupied ranges loses nothing: `get_chunk`
        returns the grid's chunk at any indices inside the grid and an empty
        chunk outside it. */
    lemma GetChunkMatchesGrid(i: int, j: int, k: int)
      requires Valid()
      ensures GetChunk(i, j, k) ==
              if 0 <= i < chunkCounts.0 && 0 <= j < chunkCounts.1 && 0 <= k < chunkCounts.2
              then chunks[LinearChunkIdx(chunkCounts, (i, j, k))]
              else EmptyChunk
    {
      if 0 <= i < chunkCounts.0 && 0 <= j < chunkCounts.1 && 0 <= k < chunkCounts.2 {
        var p := LinearChunkIdx(chunkCounts, (i, j, k));
        assert ChunkIndicesOf(chunkCounts, |chunks|, p) == (i, j, k);
      }
    }

    /** `shrink_occupied_ranges`: the new chunk ranges run from the lower
        to one past the upper indices of the non-Empty chunks inside the old
        ranges, or are `0..0` when there is no such chunk, and the voxel
        ranges follow them. */
    method ShrinkOccupiedRanges()
      requires Valid()
      modifies this
      ensures Valid()
      ensures occupiedChunkRanges == ShrunkRanges(chunkCounts, chunks, old(occupiedChunkRanges))
      ensures occupiedVoxelRanges == VoxelRangesOf(occupiedChunkRanges)
      ensures chunks == old(chunks) && voxels == old(voxels)
      ensures uniformChunkCount == old(uniformChunkCount) && nonUniformChunkCount == old(nonUniformChunkCount)
    {
      var newRanges := ComputeShrunkRanges(chunkCounts, chunks, occupiedChunkRanges);
      ShrinkKeepsValidState(chunkCounts, chunkIdxStrides, occupiedChunkRanges, occupiedVoxelRanges,
                            chunks, voxels, uniformChunkCount, nonUniformChunkCount);
      occupiedChunkRanges := newRanges;
      occupiedVoxelRanges := VoxelRangesOf(newRanges);
    }

    /** `is_effectively_empty`. */
    method IsEffectivelyEmpty() returns (b: bool)
      requires Valid()
      ensures DataInVoxels(chunks, voxels)
      ensures b == EffectivelyEmpty(chunkCounts, chunks, voxels, occupiedChunkRanges)
    {
      ValidDataInVoxels(chunkCounts, chunkIdxStrides, occupiedChunkRanges, occupiedVoxelRanges,
                        chunks, voxels, uniformChunkCount, nonUniformChunkCount);
      b := CountEffectivelyEmpty(chunkCounts, chunks, voxels, occupiedChunkRanges);
    }
  }
}
