/** Model of the object level of `impact_voxel`'s `ChunkedVoxelObject`: how a
    freshly generated grid of chunks is analysed (consecutive data offsets for
    the non-uniform chunks, consecutive split-detection indices for the
    uniform ones, tight occupied ranges), how the voxels of the non-uniform
    chunks are packed, and the queries `get_chunk` and `stored_voxel_count`. */
module ChunkedVoxelObjects {
  import opened Arith
  import opened Voxels
  import opened VoxelChunks

  const USIZE_MAX: nat := 0xFFFF_FFFF_FFFF_FFFF

  /** A `Range<usize>`, which is empty when `start >= end`. */
  datatype ChunkRange = ChunkRange(start: nat, end: nat)

  predicate IsEmptyRange(r: ChunkRange) {
    r.start >= r.end
  }

  /** The number of indices in a range, 0 for an empty one. */
  function RangeLength(r: ChunkRange): (n: nat)
    ensures n == 0 <==> IsEmptyRange(r)
  {
    if r.end > r.start then r.end - r.start else 0
  }

  // ---------------------------------------------------------------------
  // Offsets

  /** The number of uniform chunks among the first `n`. */
  function UniformCountBefore(cs: seq<VoxelChunk>, n: nat): (u: nat)
    requires n <= |cs|
    ensures u <= n
  {
    if n == 0 then 0 else UniformCountBefore(cs, n - 1) + (if cs[n - 1].Uniform? then 1 else 0)
  }

  /** The number of non-uniform chunks among the first `n`. */
  function NonUniformCountBefore(cs: seq<VoxelChunk>, n: nat): (nu: nat)
    requires n <= |cs|
    ensures nu <= n
  {
    if n == 0 then 0 else NonUniformCountBefore(cs, n - 1) + (if cs[n - 1].NonUniform? then 1 else 0)
  }

  /** A chunk with its split-detection index or data offset filled in. */
  function InitializeChunk(c: VoxelChunk, uniformIdx: nat, dataOffset: nat): VoxelChunk {
    match c
    case EmptyChunk => EmptyChunk
    case Uniform(v, _) => Uniform(v, uniformIdx)
    case NonUniform(_, fd, fl) => NonUniform(dataOffset, fd, fl)
  }

  /** The chunks as `analyze_and_initialize_chunks` leaves them: each uniform
      chunk numbered by the uniform chunks before it and each non-uniform one
      by the non-uniform chunks before it. */
  function InitializedChunks(cs: seq<VoxelChunk>): (r: seq<VoxelChunk>)
    ensures |r| == |cs|
    ensures forall i | 0 <= i < |cs| ::
              r[i].EmptyChunk? == cs[i].EmptyChunk? && r[i].Uniform? == cs[i].Uniform?
              && r[i].NonUniform? == cs[i].NonUniform?
              && ContainsOnlyEmptyVoxels(r[i]) == ContainsOnlyEmptyVoxels(cs[i])
  {
    seq(|cs|, i requires 0 <= i < |cs| => InitializedAt(cs, i))
  }

  /** Chunk `i` as `InitializedChunks` numbers it. */
  function InitializedAt(cs: seq<VoxelChunk>, i: nat): VoxelChunk
    requires i < |cs|
  {
    InitializeChunk(cs[i], UniformCountBefore(cs, i), NonUniformCountBefore(cs, i))
  }

  /** Every chunk carries the numbering `InitializedChunks` gives it. */
  ghost predicate IsInitialized(cs: seq<VoxelChunk>) {
    cs == InitializedChunks(cs)
  }

  /** The counts only grow, by one at every chunk of their kind. */
  lemma {:induction false} CountsBeforeGrow(cs: seq<VoxelChunk>, i: nat, j: nat)
    requires i < j <= |cs|
    ensures NonUniformCountBefore(cs, i) + (if cs[i].NonUniform? then 1 else 0) <= NonUniformCountBefore(cs, j)
    ensures UniformCountBefore(cs, i) + (if cs[i].Uniform? then 1 else 0) <= UniformCountBefore(cs, j)
    decreases j
  {
    if j > i + 1 {
      CountsBeforeGrow(cs, i, j - 1);
    }
  }

  /** The data offsets handed out are exactly `0 .. non_uniform_chunk_count`
      in chunk order: strictly increasing and below the count, and likewise
      the uniform split-detection indices. */
  lemma InitializedOffsetsAreConsecutive(cs: seq<VoxelChunk>)
    ensures var r := InitializedChunks(cs);
            && (forall i | 0 <= i < |r| && r[i].NonUniform? :: r[i].dataOffset < NonUniformCountBefore(cs, |cs|))
            && (forall i, j | 0 <= i < j < |r| && r[i].NonUniform? && r[j].NonUniform? :: r[i].dataOffset < r[j].dataOffset)
            && (forall i | 0 <= i < |r| && r[i].Uniform? :: r[i].splitDetectionIdx < UniformCountBefore(cs, |cs|))
            && (forall i, j | 0 <= i < j < |r| && r[i].Uniform? && r[j].Uniform? :: r[i].splitDetectionIdx < r[j].splitDetectionIdx)
  {
    var r := InitializedChunks(cs);
    forall i | 0 <= i < |r|
      ensures r[i].NonUniform? ==> r[i].dataOffset < NonUniformCountBefore(cs, |cs|)
      ensures r[i].Uniform? ==> r[i].splitDetectionIdx < UniformCountBefore(cs, |cs|)
    {
      assert r[i] == InitializedAt(cs, i);
      InitializedNumbersBelow(cs, i, |cs|);
    }
    forall i, j | 0 <= i < j < |r|
      ensures r[i].NonUniform? && r[j].NonUniform? ==> r[i].dataOffset < r[j].dataOffset
      ensures r[i].Uniform? && r[j].Uniform? ==> r[i].splitDetectionIdx < r[j].splitDetectionIdx
    {
      assert r[i] == InitializedAt(cs, i) && r[j] == InitializedAt(cs, j);
      InitializedNumbersBelow(cs, i, j);
    }
  }

  /** The number chunk `i` gets is below the count of its kind among the
      first `j > i` chunks. */
  lemma InitializedNumbersBelow(cs: seq<VoxelChunk>, i: nat, j: nat)
    requires i < j <= |cs|
    ensures InitializedAt(cs, i).NonUniform? ==> InitializedAt(cs, i).dataOffset < NonUniformCountBefore(cs, j)
    ensures InitializedAt(cs, i).Uniform? ==> InitializedAt(cs, i).splitDetectionIdx < UniformCountBefore(cs, j)
  {
    CountsBeforeGrow(cs, i, j);
  }

  // ---------------------------------------------------------------------
  // Occupied ranges

  predicate HasNonEmptyChunks(cs: seq<VoxelChunk>) {
    exists i | 0 <= i < |cs| :: !ContainsOnlyEmptyVoxels(cs[i])
  }

  /** The coordinate along `dim` of chunk number `i`. */
  function ChunkCoord(counts: Indices3, cs: seq<VoxelChunk>, i: nat, dim: Dimension): (c: nat)
    requires |cs| == TotalChunkCount(counts) && i < |cs|
    ensures c < |cs|
  {
    ChunkIndicesRoundTrip(counts, i);
    var v := ChunkIndicesFromLinearIdx(counts, i);
    CoordBelowTotal(counts, v, dim);
    Coord(v, dim)
  }

  lemma CoordBelowTotal(counts: Indices3, v: Indices3, dim: Dimension)
    requires InGrid(counts, v)
    ensures Coord(v, dim) < TotalChunkCount(counts)
  {
    TotalChunkCountFactors(counts);
    MulMono(1, counts.1, counts.2);
    MulMono(1, counts.0, counts.2 * counts.1);
    MulMono(1, counts.2, counts.1);
  }

  /** The range along `dim` after the first `n` chunks, grown from the
      reversed range `usize::MAX .. 0` by every non-empty chunk. */
  function OccupiedFold(counts: Indices3, cs: seq<VoxelChunk>, n: nat, dim: Dimension): ChunkRange
    requires |cs| == TotalChunkCount(counts) && n <= |cs|
  {
    if n == 0 then ChunkRange(USIZE_MAX, 0)
    else
      var r := OccupiedFold(counts, cs, n - 1, dim);
      if ContainsOnlyEmptyVoxels(cs[n - 1]) then r
      else
        GrowRange(r, ChunkCoord(counts, cs, n - 1, dim))
  }

  /** A range grown to hold chunk coordinate `c`. */
  function GrowRange(r: ChunkRange, c: nat): (g: ChunkRange)
    ensures g.start <= c < g.end && g.start <= r.start && r.end <= g.end
  {
    ChunkRange(Min(r.start, c), Max(r.end, c + 1))
  }

  /** The occupied chunk ranges: the folded ranges when some chunk is
      non-empty, otherwise `0..0` along every axis. */
  function OccupiedChunkRanges(counts: Indices3, cs: seq<VoxelChunk>): (r: seq<ChunkRange>)
    requires |cs| == TotalChunkCount(counts)
    ensures |r| == 3
  {
    if HasNonEmptyChunks(cs) then
      [OccupiedFold(counts, cs, |cs|, X), OccupiedFold(counts, cs, |cs|, Y), OccupiedFold(counts, cs, |cs|, Z)]
    else
      [ChunkRange(0, 0), ChunkRange(0, 0), ChunkRange(0, 0)]
  }

  /** The voxel ranges covered by chunk ranges. */
  function VoxelRangesOf(chunkRanges: seq<ChunkRange>): (r: seq<ChunkRange>)
    requires |chunkRanges| == 3
    ensures |r| == 3
    ensures forall d | 0 <= d < 3 :: r[d].start == CHUNK_SIZE * chunkRanges[d].start
                                     && r[d].end == CHUNK_SIZE * chunkRanges[d].end
  {
    seq(3, d requires 0 <= d < 3 =>
      ChunkRange(chunkRanges[d].start * CHUNK_SIZE, chunkRanges[d].end * CHUNK_SIZE))
  }

  /** The fold over a prefix is tight around its non-empty chunks: it
      contains each of them and both of its ends are reached. */
  lemma {:induction false} OccupiedFoldTight(counts: Indices3, cs: seq<VoxelChunk>, n: nat, dim: Dimension)
    requires |cs| == TotalChunkCount(counts) && n <= |cs| && |cs| <= USIZE_MAX
    ensures var r := OccupiedFold(counts, cs, n, dim);
            && (forall i | 0 <= i < n && !ContainsOnlyEmptyVoxels(cs[i]) ::
                  r.start <= ChunkCoord(counts, cs, i, dim) < r.end)
            && ((exists i | 0 <= i < n :: !ContainsOnlyEmptyVoxels(cs[i])) ==>
                  && (exists i | 0 <= i < n && !ContainsOnlyEmptyVoxels(cs[i]) :: ChunkCoord(counts, cs, i, dim) == r.start)
                  && (exists i | 0 <= i < n && !ContainsOnlyEmptyVoxels(cs[i]) :: ChunkCoord(counts, cs, i, dim) + 1 == r.end))
            && ((forall i | 0 <= i < n :: ContainsOnlyEmptyVoxels(cs[i])) ==> r == ChunkRange(USIZE_MAX, 0))
  {
    if n > 0 {
      OccupiedFoldTight(counts, cs, n - 1, dim);
      var prev := OccupiedFold(counts, cs, n - 1, dim);
      if !ContainsOnlyEmptyVoxels(cs[n - 1]) {
        var c := ChunkCoord(counts, cs, n - 1, dim);
        if forall i | 0 <= i < n - 1 :: ContainsOnlyEmptyVoxels(cs[i]) {
          assert OccupiedFold(counts, cs, n, dim) == ChunkRange(c, c + 1);
        }
      }
    }
  }

  /** `analyze_and_initialize_chunks`' occupied chunk ranges are tight: with
      a non-empty chunk, each range is non-empty, holds every non-empty
      chunk and starts and ends at one; without one, every range is `0..0`.
      */
  lemma OccupiedChunkRangesTight(counts: Indices3, cs: seq<VoxelChunk>, dim: Dimension)
    requires |cs| == TotalChunkCount(counts) && |cs| <= USIZE_MAX
    ensures var r := OccupiedChunkRanges(counts, cs)[DimIdx(dim)];
            && (!HasNonEmptyChunks(cs) ==> r == ChunkRange(0, 0))
            && (HasNonEmptyChunks(cs) ==>
                  && r.start < r.end
                  && (forall i | 0 <= i < |cs| && !ContainsOnlyEmptyVoxels(cs[i]) ::
                        r.start <= ChunkCoord(counts, cs, i, dim) < r.end)
                  && (exists i | 0 <= i < |cs| && !ContainsOnlyEmptyVoxels(cs[i]) :: ChunkCoord(counts, cs, i, dim) == r.start)
                  && (exists i | 0 <= i < |cs| && !ContainsOnlyEmptyVoxels(cs[i]) :: ChunkCoord(counts, cs, i, dim) + 1 == r.end))
  {
    OccupiedFoldTight(counts, cs, |cs|, dim);
    assert OccupiedChunkRanges(counts, cs)[DimIdx(dim)] ==
      if HasNonEmptyChunks(cs) then OccupiedFold(counts, cs, |cs|, dim) else ChunkRange(0, 0);
  }

  /** `ChunkAnalysisResults`. */
  datatype ChunkAnalysisResults = ChunkAnalysisResults(
    uniformChunkCount: nat,
    nonUniformChunkCount: nat,
    occupiedChunkRanges: seq<ChunkRange>,
    occupiedVoxelRanges: seq<ChunkRange>)

  /** What `analyze_and_initialize_chunks` reports for a grid of chunks. */
  function AnalysisOf(counts: Indices3, cs: seq<VoxelChunk>): (r: ChunkAnalysisResults)
    requires |cs| == TotalChunkCount(counts)
    ensures r.uniformChunkCount + r.nonUniformChunkCount <= |cs|
    ensures |r.occupiedChunkRanges| == 3 && |r.occupiedVoxelRanges| == 3
  {
    UniformPlusNonUniform(cs, |cs|);
    var chunkRanges := OccupiedChunkRanges(counts, cs);
    ChunkAnalysisResults(UniformCountBefore(cs, |cs|), NonUniformCountBefore(cs, |cs|),
                         chunkRanges, VoxelRangesOf(chunkRanges))
  }

  lemma {:induction false} UniformPlusNonUniform(cs: seq<VoxelChunk>, n: nat)
    requires n <= |cs|
    ensures UniformCountBefore(cs, n) + NonUniformCountBefore(cs, n) <= n
  {
    if n > 0 {
      UniformPlusNonUniform(cs, n - 1);
    }
  }

  /** `analyze_and_initialize_chunks`: one pass over the chunks that numbers
      the uniform and non-uniform ones and grows the occupied ranges. The
      chunk vector has at most `usize::MAX` entries. */
  method AnalyzeAndInitializeChunks(counts: Indices3, chunks: array<VoxelChunk>) returns (res: ChunkAnalysisResults)
    requires chunks.Length == TotalChunkCount(counts) && chunks.Length <= USIZE_MAX
    modifies chunks
    ensures chunks[..] == InitializedChunks(old(chunks[..]))
    ensures res == AnalysisOf(counts, old(chunks[..]))
  {
    ghost var cs := chunks[..];
    var occupiedI := ChunkRange(USIZE_MAX, 0);
    var occupiedJ := ChunkRange(USIZE_MAX, 0);
    var occupiedK := ChunkRange(USIZE_MAX, 0);
    var uniformChunkCount := 0;
    var nonUniformChunkCount := 0;
    var hasNonEmptyChunks := false;
    var chunkIdx := 0;
    while chunkIdx < chunks.Length
      invariant chunkIdx <= chunks.Length
      invariant chunks[..] == PartlyInitialized(cs, chunkIdx)
      invariant uniformChunkCount == UniformCountBefore(cs, chunkIdx)
      invariant nonUniformChunkCount == NonUniformCountBefore(cs, chunkIdx)
      invariant occupiedI == OccupiedFold(counts, cs, chunkIdx, X)
      invariant occupiedJ == OccupiedFold(counts, cs, chunkIdx, Y)
      invariant occupiedK == OccupiedFold(counts, cs, chunkIdx, Z)
      invariant hasNonEmptyChunks == NonEmptyBefore(cs, chunkIdx)
    {
      var chunk := chunks[chunkIdx];
      PartlyInitializedStep(cs, chunkIdx);
      CountsStep(cs, chunkIdx);
      var initialized;
      initialized, uniformChunkCount, nonUniformChunkCount := InitializeOne(chunk, uniformChunkCount, nonUniformChunkCount);
      chunks[chunkIdx] := initialized;
      InitializeKeepsEmptiness(chunk, cs, chunkIdx, initialized);
      if !ContainsOnlyEmptyVoxels(initialized) {
        var (chunkI, chunkJ, chunkK) := ChunkIndicesOf(counts, chunks.Length, chunkIdx);
        FoldStep(counts, cs, chunkIdx);
        occupiedI := GrowRange(occupiedI, chunkI);
        occupiedJ := GrowRange(occupiedJ, chunkJ);
        occupiedK := GrowRange(occupiedK, chunkK);
        hasNonEmptyChunks := true;
      } else {
        FoldSkip(counts, cs, chunkIdx);
      }
      chunkIdx := chunkIdx + 1;
    }
    PartlyInitializedAll(cs);
    NonEmptyBeforeAll(cs, |cs|);
    OccupiedChunkRangesFromFolds(counts, cs, hasNonEmptyChunks);
    var occupiedChunkRanges;
    if hasNonEmptyChunks {
      occupiedChunkRanges := [occupiedI, occupiedJ, occupiedK];
    } else {
      occupiedChunkRanges := [ChunkRange(0, 0), ChunkRange(0, 0), ChunkRange(0, 0)];
    }
    var occupiedVoxelRanges := VoxelRangesOf(occupiedChunkRanges);
    res := ChunkAnalysisResults(uniformChunkCount, nonUniformChunkCount, occupiedChunkRanges, occupiedVoxelRanges);
  }

  /** The match of `analyze_and_initialize_chunks` on one chunk: a uniform
      chunk takes the next split-detection index, a non-uniform one the next
      data offset, and the matching count moves on by one. */
  method InitializeOne(chunk: VoxelChunk, uniformCount: nat, nonUniformCount: nat)
    returns (initialized: VoxelChunk, newUniformCount: nat, newNonUniformCount: nat)
    ensures initialized == InitializeChunk(chunk, uniformCount, nonUniformCount)
    ensures newUniformCount == uniformCount + (if chunk.Uniform? then 1 else 0)
    ensures newNonUniformCount == nonUniformCount + (if chunk.NonUniform? then 1 else 0)
  {
    initialized, newUniformCount, newNonUniformCount := chunk, uniformCount, nonUniformCount;
    match chunk {
      case Uniform(v, _) =>
        initialized := Uniform(v, uniformCount);
        newUniformCount := uniformCount + 1;
      case NonUniform(_, fd, fl) =>
        initialized := NonUniform(nonUniformCount, fd, fl);
        newNonUniformCount := nonUniformCount + 1;
      case EmptyChunk =>
    }
  }

  /** Whether one of the first `n` chunks has a non-empty voxel. */
  function NonEmptyBefore(cs: seq<VoxelChunk>, n: nat): bool
    requires n <= |cs|
  {
    n > 0 && (NonEmptyBefore(cs, n - 1) || !ContainsOnlyEmptyVoxels(cs[n - 1]))
  }

  lemma {:induction false} NonEmptyBeforeAll(cs: seq<VoxelChunk>, n: nat)
    requires n <= |cs|
    ensures NonEmptyBefore(cs, n) <==> exists p | 0 <= p < n :: !ContainsOnlyEmptyVoxels(cs[p])
  {
    if n > 0 {
      NonEmptyBeforeAll(cs, n - 1);
    }
  }

  /** An empty chunk leaves the folds as they are. */
  lemma FoldSkip(counts: Indices3, cs: seq<VoxelChunk>, n: nat)
    requires |cs| == TotalChunkCount(counts) && n < |cs| && ContainsOnlyEmptyVoxels(cs[n])
    ensures OccupiedFold(counts, cs, n + 1, X) == OccupiedFold(counts, cs, n, X)
    ensures OccupiedFold(counts, cs, n + 1, Y) == OccupiedFold(counts, cs, n, Y)
    ensures OccupiedFold(counts, cs, n + 1, Z) == OccupiedFold(counts, cs, n, Z)
  {
  }

  /** Numbering a chunk does not change whether it is empty, and the
      emptiness test moves the non-empty flag along. */
  lemma InitializeKeepsEmptiness(chunk: VoxelChunk, cs: seq<VoxelChunk>, n: nat, initialized: VoxelChunk)
    requires n < |cs| && chunk == cs[n]
    requires initialized == InitializeChunk(chunk, UniformCountBefore(cs, n), NonUniformCountBefore(cs, n))
    ensures initialized == InitializedAt(cs, n)
    ensures ContainsOnlyEmptyVoxels(initialized) == ContainsOnlyEmptyVoxels(chunk)
    ensures NonEmptyBefore(cs, n + 1) == (NonEmptyBefore(cs, n) || !ContainsOnlyEmptyVoxels(initialized))
  {
  }

  /** The chunks with the first `n` initialized and the rest as they were. */
  function PartlyInitialized(cs: seq<VoxelChunk>, n: nat): (r: seq<VoxelChunk>)
    requires n <= |cs|
  {
    InitializedChunks(cs)[..n] + cs[n..]
  }

  lemma PartlyInitializedStep(cs: seq<VoxelChunk>, n: nat)
    requires n < |cs|
    ensures |PartlyInitialized(cs, n)| == |cs| && PartlyInitialized(cs, n)[n] == cs[n]
    ensures PartlyInitialized(cs, n)[n := InitializedAt(cs, n)] == PartlyInitialized(cs, n + 1)
  {
  }

  lemma PartlyInitializedAll(cs: seq<VoxelChunk>)
    ensures PartlyInitialized(cs, 0) == cs && PartlyInitialized(cs, |cs|) == InitializedChunks(cs)
  {
  }

  /** The counts after one more chunk. */
  lemma CountsStep(cs: seq<VoxelChunk>, n: nat)
    requires n < |cs|
    ensures UniformCountBefore(cs, n + 1) == UniformCountBefore(cs, n) + (if cs[n].Uniform? then 1 else 0)
    ensures NonUniformCountBefore(cs, n + 1) == NonUniformCountBefore(cs, n) + (if cs[n].NonUniform? then 1 else 0)
  {
  }

  /** The occupied chunk ranges from the complete folds and whether a
      non-empty chunk was seen. */
  lemma OccupiedChunkRangesFromFolds(counts: Indices3, cs: seq<VoxelChunk>, hasNonEmptyChunks: bool)
    requires |cs| == TotalChunkCount(counts)
    requires hasNonEmptyChunks == HasNonEmptyChunks(cs)
    ensures OccupiedChunkRanges(counts, cs) ==
            if hasNonEmptyChunks
            then [OccupiedFold(counts, cs, |cs|, X), OccupiedFold(counts, cs, |cs|, Y), OccupiedFold(counts, cs, |cs|, Z)]
            else [ChunkRange(0, 0), ChunkRange(0, 0), ChunkRange(0, 0)]
  {
  }

  /** `chunk_indices_from_linear_idx` for a position of a chunk vector of
      `total` entries: indices inside the grid. */
  function ChunkIndicesOf(counts: Indices3, total: nat, i: nat): (c: Indices3)
    requires total == TotalChunkCount(counts) && i < total
    ensures InGrid(counts, c)
  {
    ChunkIndicesRoundTrip(counts, i);
    ChunkIndicesFromLinearIdx(counts, i)
  }

  /** One step of the occupied-range folds over a non-empty chunk: each
      range grows to hold the chunk's coordinate along its axis. */
  lemma FoldStep(counts: Indices3, cs: seq<VoxelChunk>, n: nat)
    requires |cs| == TotalChunkCount(counts) && n < |cs| && !ContainsOnlyEmptyVoxels(cs[n])
    ensures var c := ChunkIndicesOf(counts, |cs|, n);
            && OccupiedFold(counts, cs, n + 1, X) == GrowRange(OccupiedFold(counts, cs, n, X), c.0)
            && OccupiedFold(counts, cs, n + 1, Y) == GrowRange(OccupiedFold(counts, cs, n, Y), c.1)
            && OccupiedFold(counts, cs, n + 1, Z) == GrowRange(OccupiedFold(counts, cs, n, Z), c.2)
  {
    var c := ChunkIndicesOf(counts, |cs|, n);
    assert ChunkCoord(counts, cs, n, X) == c.0;
    assert ChunkCoord(counts, cs, n, Y) == c.1;
    assert ChunkCoord(counts, cs, n, Z) == c.2;
  }

  function Min(a: nat, b: nat): nat {
    if a <= b then a else b
  }

  function Max(a: nat, b: nat): nat {
    if a >= b then a else b
  }

  // ---------------------------------------------------------------------
  // Generation

  /** The origin, in object voxels, of chunk number `i`. */
  function ChunkOrigin(counts: Indices3, i: nat): Indices3
    requires counts.1 > 0 && counts.2 > 0
  {
    var c := ChunkIndicesFromLinearIdx(counts, i);
    (c.0 * CHUNK_SIZE, c.1 * CHUNK_SIZE, c.2 * CHUNK_SIZE)
  }

  /** The generator fills a slice of exactly one chunk's voxels. */
  ghost predicate GeneratesChunks(generate: Indices3 -> seq<Voxel>) {
    forall o :: |generate(o)| == CHUNK_VOXEL_COUNT
  }

  /** The chunk made of the voxels generated for chunk number `i`. */
  function GeneratedChunk(counts: Indices3, generate: Indices3 -> seq<Voxel>, i: nat): VoxelChunk
    requires GeneratesChunks(generate) && i < TotalChunkCount(counts)
  {
    TotalChunkCountFactors(counts);
    ChunkForVoxels(GenerateAtChunk(counts, generate, i))
  }

  /** The generated voxels of chunk number `i`. */
  function GenerateAtChunk(counts: Indices3, generate: Indices3 -> seq<Voxel>, i: nat): (vs: seq<Voxel>)
    requires GeneratesChunks(generate) && i < TotalChunkCount(counts)
    ensures |vs| == CHUNK_VOXEL_COUNT
  {
    TotalChunkCountFactors(counts);
    generate(ChunkOrigin(counts, i))
  }

  /** The generated chunks, in chunk order. */
  function GeneratedChunks(counts: Indices3, generate: Indices3 -> seq<Voxel>): (cs: seq<VoxelChunk>)
    requires GeneratesChunks(generate)
    ensures |cs| == TotalChunkCount(counts)
  {
    seq(TotalChunkCount(counts), i requires 0 <= i < TotalChunkCount(counts) => GeneratedChunk(counts, generate, i))
  }

  /** The generated voxel blocks, in chunk order. */
  function GeneratedBlocks(counts: Indices3, generate: Indices3 -> seq<Voxel>): (bs: seq<seq<Voxel>>)
    requires GeneratesChunks(generate)
    ensures |bs| == TotalChunkCount(counts)
    ensures forall p | 0 <= p < |bs| :: |bs[p]| == CHUNK_VOXEL_COUNT
  {
    seq(TotalChunkCount(counts), i requires 0 <= i < TotalChunkCount(counts) => GenerateAtChunk(counts, generate, i))
  }

  /** The blocks of the non-uniform chunks among the first `n`, one after
      the other. */
  function KeptBlocks(cs: seq<VoxelChunk>, blocks: seq<seq<Voxel>>, n: nat): seq<Voxel>
    requires n <= |cs| == |blocks|
  {
    if n == 0 then []
    else KeptBlocks(cs, blocks, n - 1) + (if cs[n - 1].NonUniform? then blocks[n - 1] else [])
  }

  /** The voxels kept for the first `n` chunks: those of the non-uniform
      chunks, one block of 4096 after the other. */
  function KeptVoxels(counts: Indices3, generate: Indices3 -> seq<Voxel>, n: nat): seq<Voxel>
    requires GeneratesChunks(generate) && n <= TotalChunkCount(counts)
  {
    KeptBlocks(GeneratedChunks(counts, generate), GeneratedBlocks(counts, generate), n)
  }

  /** `generate_voxels_for_chunks`: each chunk's voxels are generated at the
      end of the voxel vector, classified by `for_voxels`, and truncated away
      again unless the chunk is non-uniform. */
  method GenerateVoxelsForChunks(counts: Indices3, generate: Indices3 -> seq<Voxel>, chunks: array<VoxelChunk>)
    returns (voxels: seq<Voxel>)
    requires GeneratesChunks(generate) && chunks.Length == TotalChunkCount(counts)
    modifies chunks
    ensures chunks[..] == GeneratedChunks(counts, generate)
    ensures voxels == KeptVoxels(counts, generate, chunks.Length)
  {
    voxels := [];
    if chunks.Length == 0 {
      return;
    }
    TotalChunkCountFactors(counts);
    ghost var generated := GeneratedChunks(counts, generate);
    var chunkIdx := 0;
    while chunkIdx < chunks.Length
      invariant chunkIdx <= chunks.Length
      invariant chunks[..chunkIdx] == generated[..chunkIdx]
      invariant voxels == KeptVoxels(counts, generate, chunkIdx)
    {
      var origin := ChunkOrigin(counts, chunkIdx);
      var oldVoxelCount := |voxels|;
      voxels := voxels + generate(origin);
      var chunk := ForVoxels(voxels[oldVoxelCount..]);
      assert voxels[oldVoxelCount..] == generate(origin);
      KeptVoxelsStep(counts, generate, chunkIdx, chunk);
      chunks[chunkIdx] := chunk;
      assert chunks[..chunkIdx + 1] == chunks[..chunkIdx] + [chunk];
      if chunk.EmptyChunk? || chunk.Uniform? {
        voxels := voxels[..oldVoxelCount];
      }
      chunkIdx := chunkIdx + 1;
    }
    assert chunks[..] == chunks[..chunkIdx];
  }

  /** One more generated chunk: it is the chunk of its generated voxels, and
      those voxels are kept exactly when it is non-uniform. */
  lemma KeptVoxelsStep(counts: Indices3, generate: Indices3 -> seq<Voxel>, n: nat, chunk: VoxelChunk)
    requires GeneratesChunks(generate) && n < TotalChunkCount(counts)
    requires TotalChunkCount(counts) > 0
    requires chunk == ChunkForVoxels(generate(ChunkOrigin(counts, n)))
    ensures GeneratedChunks(counts, generate)[n] == chunk
    ensures KeptVoxels(counts, generate, n + 1)
         == KeptVoxels(counts, generate, n) + (if chunk.NonUniform? then generate(ChunkOrigin(counts, n)) else [])
  {
  }

  /** The kept voxels hold one block of 4096 per non-uniform chunk. */
  lemma {:induction false} KeptBlocksLength(cs: seq<VoxelChunk>, blocks: seq<seq<Voxel>>, n: nat)
    requires n <= |cs| == |blocks|
    requires forall p | 0 <= p < |blocks| :: |blocks[p]| == CHUNK_VOXEL_COUNT
    ensures |KeptBlocks(cs, blocks, n)| == CHUNK_VOXEL_COUNT * NonUniformCountBefore(cs, n)
  {
    if n > 0 {
      KeptBlocksLength(cs, blocks, n - 1);
    }
  }

  /** The blocks are in chunk order: block number `NonUniformCountBefore(i)`
      is the block of chunk `i`. */
  lemma {:induction false} KeptBlocksInOrder(cs: seq<VoxelChunk>, blocks: seq<seq<Voxel>>, n: nat, i: nat)
    requires i < n <= |cs| == |blocks|
    requires forall p | 0 <= p < |blocks| :: |blocks[p]| == CHUNK_VOXEL_COUNT
    requires cs[i].NonUniform?
    ensures CHUNK_VOXEL_COUNT * NonUniformCountBefore(cs, i) + CHUNK_VOXEL_COUNT <= |KeptBlocks(cs, blocks, n)|
    ensures var start := CHUNK_VOXEL_COUNT * NonUniformCountBefore(cs, i);
            KeptBlocks(cs, blocks, n)[start..start + CHUNK_VOXEL_COUNT] == blocks[i]
  {
    var start := CHUNK_VOXEL_COUNT * NonUniformCountBefore(cs, i);
    var prev := KeptBlocks(cs, blocks, n - 1);
    var kept := KeptBlocks(cs, blocks, n);
    KeptBlocksLength(cs, blocks, n - 1);
    KeptBlocksLength(cs, blocks, n);
    assert prev == kept[..|prev|];
    if i < n - 1 {
      KeptBlocksInOrder(cs, blocks, n - 1, i);
      CountsBeforeGrow(cs, i, n - 1);
      assert kept[start..start + CHUNK_VOXEL_COUNT] == prev[start..start + CHUNK_VOXEL_COUNT];
    } else {
      assert start == |prev|;
    }
  }

  // ---------------------------------------------------------------------
  // The object

  /** The total over chunks of `stored_voxel_count`. */
  function StoredVoxelCountOf(cs: seq<VoxelChunk>): nat {
    if |cs| == 0 then 0 else StoredVoxelCountOf(cs[..|cs| - 1]) + StoredVoxelCount(cs[|cs| - 1])
  }

  /** Every chunk stores its own voxels: 1 per uniform chunk, 4096 per
      non-uniform one. */
  lemma {:induction false} StoredVoxelCountOfCounts(cs: seq<VoxelChunk>, n: nat)
    requires n <= |cs|
    ensures StoredVoxelCountOf(cs[..n]) == UniformCountBefore(cs, n) + CHUNK_VOXEL_COUNT * NonUniformCountBefore(cs, n)
  {
    if n > 0 {
      StoredVoxelCountOfCounts(cs, n - 1);
      assert cs[..n][..n - 1] == cs[..n - 1];
    }
  }

  /** The part of `ChunkedVoxelObject` that chunk generation and analysis
      determine. The derived state (adjacencies, split detection, meshing
      invalidation) and the voxel extent are not modelled. */
  lemma ProductZero(a: nat, b: nat, c: nat)
    ensures a * b * c == 0 <==> a == 0 || b == 0 || c == 0
  {
    if a != 0 && b != 0 && c != 0 {
      MulPositive(a, b);
      MulPositive(a * b, c);
    }
  }

  class ChunkedVoxelObject {
    const chunkCounts: Indices3
    const chunkIdxStrides: Indices3
    var occupiedChunkRanges: seq<ChunkRange>
    var occupiedVoxelRanges: seq<ChunkRange>
    var chunks: seq<VoxelChunk>
    var voxels: seq<Voxel>
    /** The counts handed to the split detector. */
    var uniformChunkCount: nat
    var nonUniformChunkCount: nat

    /** The chunk grid has `chunkCounts` chunks with matching strides, the
        non-uniform chunks are numbered in order and own consecutive blocks
        of the voxel vector, and the counts are the kinds' totals. */
    ghost predicate Valid()
      reads this
    {
      && |chunks| == TotalChunkCount(chunkCounts)
      && chunkIdxStrides == ChunkIdxStrides(chunkCounts)
      && |occupiedChunkRanges| == 3 && |occupiedVoxelRanges| == 3
      && IsInitialized(chunks)
      && uniformChunkCount == UniformCountBefore(chunks, |chunks|)
      && nonUniformChunkCount == NonUniformCountBefore(chunks, |chunks|)
      && |voxels| == CHUNK_VOXEL_COUNT * nonUniformChunkCount
    }

    /** `generate_without_derived_state_using_closure` with the generator
        closure of `generate_voxels_for_chunks`: the chunk counts cover the
        grid, every chunk is what its generated voxels make it, each
        non-uniform chunk's data offset leads to its own voxels, and the
        occupied ranges are tight. */
    constructor GenerateWithoutDerivedState(gridShape: Indices3, generate: Indices3 -> seq<Voxel>)
      requires GeneratesChunks(generate)
      requires TotalChunkCount(ChunkCounts(gridShape)) <= USIZE_MAX
      ensures Valid()
      ensures chunkCounts == ChunkCounts(gridShape)
      ensures forall i | 0 <= i < |chunks| ::
                chunks[i] == InitializeChunk(GeneratedChunks(chunkCounts, generate)[i],
                                             UniformCountBefore(chunks, i), NonUniformCountBefore(chunks, i))
      ensures forall i | 0 <= i < |chunks| && chunks[i].NonUniform? ::
                var start := CHUNK_VOXEL_COUNT * chunks[i].dataOffset;
                start + CHUNK_VOXEL_COUNT <= |voxels|
                && voxels[start..start + CHUNK_VOXEL_COUNT] == GeneratedBlocks(chunkCounts, generate)[i]
      ensures occupiedChunkRanges == OccupiedChunkRanges(chunkCounts, chunks)
      ensures occupiedVoxelRanges == VoxelRangesOf(occupiedChunkRanges)
    {
      var counts := ChunkCounts(gridShape);
      var total := TotalChunkCount(counts);
      var chunkArray := new VoxelChunk[total](_ => EmptyChunk);
      var vs := GenerateVoxelsForChunks(counts, generate, chunkArray);
      ghost var generated := chunkArray[..];
      var results := AnalyzeAndInitializeChunks(counts, chunkArray);
      chunkCounts := counts;
      chunkIdxStrides := ChunkIdxStrides(counts);
      occupiedChunkRanges := results.occupiedChunkRanges;
      occupiedVoxelRanges := results.occupiedVoxelRanges;
      chunks := chunkArray[..];
      voxels := vs;
      uniformChunkCount := results.uniformChunkCount;
      nonUniformChunkCount := results.nonUniformChunkCount;
      new;
      InitializedObjectFacts(counts, generated, GeneratedBlocks(counts, generate), chunks, voxels);
    }

    /** `total_chunk_count`. */
    function TotalChunkCountOf(): (n: nat)
      reads this
      requires Valid()
      ensures n == |chunks|
    {
      chunkCounts.0 * chunkCounts.1 * chunkCounts.2
    }

    /** `contains_only_empty_voxels`: some occupied voxel range is empty,
        that is, the box of occupied voxels holds no voxel. */
    function ContainsOnlyEmptyVoxels(): (b: bool)
      reads this
      requires Valid()
      ensures b <==> RangeLength(occupiedVoxelRanges[0]) * RangeLength(occupiedVoxelRanges[1])
                     * RangeLength(occupiedVoxelRanges[2]) == 0
    {
      var (a, b, c) := (RangeLength(occupiedVoxelRanges[0]), RangeLength(occupiedVoxelRanges[1]),
                        RangeLength(occupiedVoxelRanges[2]));
      ProductZero(a, b, c);
      IsEmptyRange(occupiedVoxelRanges[0]) || IsEmptyRange(occupiedVoxelRanges[1]) || IsEmptyRange(occupiedVoxelRanges[2])
    }

    /** `stored_voxel_count`: the sum over the chunks, which is the number of
        voxels in the voxel vector plus one per uniform chunk. */
    function StoredVoxelCountOfObject(): (n: nat)
      reads this
      requires Valid()
      ensures n == |voxels| + uniformChunkCount
    {
      StoredVoxelCountOfCounts(chunks, |chunks|);
      assert chunks[..|chunks|] == chunks;
      StoredVoxelCountOf(chunks)
    }

    /** `linear_chunk_idx`: with the stored strides. */
    function LinearChunkIdxOf(c: Indices3): (idx: nat)
      reads this
      requires Valid() && InGrid(chunkCounts, c)
      ensures idx < |chunks| && idx == LinearChunkIdx(chunkCounts, c)
    {
      var idx := c.0 * chunkIdxStrides.0 + c.1 * chunkIdxStrides.1 + c.2;
      assert idx == LinearChunkIdx(chunkCounts, c) by {
        assert chunkIdxStrides == ChunkIdxStrides(chunkCounts);
      }
      idx
    }

    /** `get_chunk`: the chunk at the given (possibly negative) indices, or
        an empty chunk outside the grid. */
    function GetChunk(i: int, j: int, k: int): (c: VoxelChunk)
      reads this
      requires Valid()
      ensures !(0 <= i < chunkCounts.0 && 0 <= j < chunkCounts.1 && 0 <= k < chunkCounts.2) ==> c == EmptyChunk
    {
      if i < 0 || j < 0 || k < 0 || i >= chunkCounts.0 || j >= chunkCounts.1 || k >= chunkCounts.2 then
        EmptyChunk
      else
        chunks[LinearChunkIdxOf((i, j, k))]
    }

    /** Every chunk of the vector is the one `get_chunk` returns at its
        indices. */
    lemma GetChunkAtLinearIdx(idx: nat)
      requires Valid() && idx < |chunks|
      ensures chunkCounts.1 > 0 && chunkCounts.2 > 0
      ensures var c := ChunkIndicesFromLinearIdx(chunkCounts, idx);
              GetChunk(c.0, c.1, c.2) == chunks[idx]
    {
      ChunkIndicesRoundTrip(chunkCounts, idx);
      var c := ChunkIndicesFromLinearIdx(chunkCounts, idx);
      assert GetChunk(c.0, c.1, c.2) == chunks[LinearChunkIdxOf(c)];
    }
  }

  /** What initializing a generated chunk vector and packing the blocks of
      its non-uniform chunks give the object. */
  lemma InitializedObjectFacts(counts: Indices3, generated: seq<VoxelChunk>, blocks: seq<seq<Voxel>>,
                               chunks: seq<VoxelChunk>, voxels: seq<Voxel>)
    requires |generated| == |blocks| == TotalChunkCount(counts)
    requires forall p | 0 <= p < |blocks| :: |blocks[p]| == CHUNK_VOXEL_COUNT
    requires voxels == KeptBlocks(generated, blocks, |generated|)
    requires chunks == InitializedChunks(generated)
    ensures IsInitialized(chunks)
    ensures UniformCountBefore(chunks, |chunks|) == UniformCountBefore(generated, |generated|)
    ensures NonUniformCountBefore(chunks, |chunks|) == NonUniformCountBefore(generated, |generated|)
    ensures |voxels| == CHUNK_VOXEL_COUNT * NonUniformCountBefore(chunks, |chunks|)
    ensures forall i | 0 <= i < |chunks| ::
              chunks[i] == InitializeChunk(generated[i], UniformCountBefore(chunks, i), NonUniformCountBefore(chunks, i))
    ensures forall i | 0 <= i < |chunks| && chunks[i].NonUniform? ::
              var start := CHUNK_VOXEL_COUNT * chunks[i].dataOffset;
              start + CHUNK_VOXEL_COUNT <= |voxels|
              && voxels[start..start + CHUNK_VOXEL_COUNT] == blocks[i]
    ensures OccupiedChunkRanges(counts, chunks) == OccupiedChunkRanges(counts, generated)
  {
    var n := |generated|;
    SameKindsSameCounts(generated, chunks, n);
    KeptBlocksLength(generated, blocks, n);
    forall i | 0 <= i < n
      ensures chunks[i] == InitializeChunk(generated[i], UniformCountBefore(chunks, i), NonUniformCountBefore(chunks, i))
    {
      SameKindsSameCounts(generated, chunks, i);
    }
    forall i | 0 <= i < n && chunks[i].NonUniform?
      ensures var start := CHUNK_VOXEL_COUNT * chunks[i].dataOffset;
              start + CHUNK_VOXEL_COUNT <= |voxels|
              && voxels[start..start + CHUNK_VOXEL_COUNT] == blocks[i]
    {
      SameKindsSameCounts(generated, chunks, i);
      KeptBlocksInOrder(generated, blocks, n, i);
    }
    assert chunks == InitializedChunks(chunks);
    SameEmptinessSameRanges(counts, generated, chunks);
  }

  /** Re-initializing keeps kinds, so the counts agree at every prefix. */
  lemma {:induction false} SameKindsSameCounts(a: seq<VoxelChunk>, b: seq<VoxelChunk>, n: nat)
    requires |a| == |b| && n <= |a|
    requires forall i | 0 <= i < |a| :: a[i].Uniform? == b[i].Uniform? && a[i].NonUniform? == b[i].NonUniform?
    ensures UniformCountBefore(a, n) == UniformCountBefore(b, n)
    ensures NonUniformCountBefore(a, n) == NonUniformCountBefore(b, n)
  {
    if n > 0 {
      SameKindsSameCounts(a, b, n - 1);
    }
  }

  lemma SameEmptinessSameRanges(counts: Indices3, a: seq<VoxelChunk>, b: seq<VoxelChunk>)
    requires |a| == |b| == TotalChunkCount(counts)
    requires forall i | 0 <= i < |a| :: ContainsOnlyEmptyVoxels(a[i]) == ContainsOnlyEmptyVoxels(b[i])
    ensures OccupiedChunkRanges(counts, a) == OccupiedChunkRanges(counts, b)
  {
    SameEmptinessSameFold(counts, a, b, |a|, X);
    SameEmptinessSameFold(counts, a, b, |a|, Y);
    SameEmptinessSameFold(counts, a, b, |a|, Z);
  }

  lemma {:induction false} SameEmptinessSameFold(counts: Indices3, a: seq<VoxelChunk>, b: seq<VoxelChunk>, n: nat, dim: Dimension)
    requires |a| == |b| == TotalChunkCount(counts) && n <= |a|
    requires forall i | 0 <= i < |a| :: ContainsOnlyEmptyVoxels(a[i]) == ContainsOnlyEmptyVoxels(b[i])
    ensures OccupiedFold(counts, a, n, dim) == OccupiedFold(counts, b, n, dim)
  {
    if n > 0 {
      SameEmptinessSameFold(counts, a, b, n - 1, dim);
    }
  }
}
