/** Model of the byte-level containers for per-instance model features:
    `InstanceFeatureStorage` (features addressed by monotone IDs, removed by
    swap-remove), `DynamicInstanceFeatureBuffer` (a grow-only byte buffer with
    a counter of valid bytes) and the range bookkeeping of
    `InstanceFeatureBufferRangeManager` and `InstanceFeatureBufferRangeMap`.
    The same code appears in the engine crate and in the older top-level
    model source; it is modelled once here. Feature values are their bytes. */
module InstanceFeatures {
  import opened Arith
  import opened Sequences
  import opened KeyIndexMapping

  type Byte = bv8

  /** `InstanceFeatureTypeID`: a 64-bit hash, kept opaque. */
  type FeatureTypeID = nat

  /** `InstanceFeatureBufferRangeID`: a `u32`. */
  type RangeID = nat

  const U32_LIMIT: nat := 0x1_0000_0000
  const U64_MAX: nat := 0xFFFF_FFFF_FFFF_FFFF

  /** `InstanceFeatureBufferRangeManager::INITIAL_RANGE_ID = u32::MAX`. */
  const INITIAL_RANGE_ID: RangeID := 0xFFFF_FFFF

  /** `DynamicInstanceFeatureBuffer::INITIAL_ALLOCATED_FEATURE_COUNT`. */
  const INITIAL_ALLOCATED_FEATURE_COUNT: nat := 1

  /** `InstanceFeatureID`: the type of the feature and its never-reused index. */
  datatype InstanceFeatureID = InstanceFeatureID(featureTypeId: FeatureTypeID, idx: nat)

  /** `InstanceFeatureID::not_applicable`: the zero hash and `u64::MAX`. */
  function NotApplicable(): (id: InstanceFeatureID)
    ensures IsNotApplicable(id)
  {
    InstanceFeatureID(0, U64_MAX)
  }

  /** `InstanceFeatureID::is_not_applicable`. */
  predicate IsNotApplicable(id: InstanceFeatureID) {
    id.featureTypeId == 0 && id.idx == U64_MAX
  }

  /** A half-open range of feature indices, `Range<u32>`. */
  datatype FeatureRange = FeatureRange(start: nat, end: nat)

  // ---------------------------------------------------------------------
  // Byte arithmetic
  // ---------------------------------------------------------------------

  /** `n` zero bytes, what `resize(_, 0)` appends. */
  function Zeros(n: nat): (r: seq<Byte>)
    ensures |r| == n && forall i | 0 <= i < n :: r[i] == 0
  {
    seq(n, i => 0 as Byte)
  }

  /** `n` copies of `b` laid end to end. */
  function Repeat(b: seq<Byte>, n: nat): (r: seq<Byte>)
    ensures |r| == |b| * n
  {
    if n == 0 then [] else Repeat(b, n - 1) + b
  }

  /** The features laid end to end. */
  function Flatten(features: seq<seq<Byte>>): seq<Byte> {
    if features == [] then [] else Flatten(features[..|features| - 1]) + features[|features| - 1]
  }

  lemma {:induction false} FlattenLength(features: seq<seq<Byte>>, size: nat)
    requires forall i | 0 <= i < |features| :: |features[i]| == size
    ensures |Flatten(features)| == size * |features|
  {
    if features != [] {
      var n := |features| - 1;
      FlattenLength(features[..n], size);
      assert |Flatten(features)| == size * n + size;
      MulStepRight(size, n);
    }
  }

  /** The bytes of feature number `j` in a packed array of `size`-byte
      features, `feature_byte_range`. */
  function Chunk(bytes: seq<Byte>, size: nat, j: nat): (r: seq<Byte>)
    requires (j + 1) * size <= |bytes|
    ensures |r| == size
  {
    MulStep(j, size);
    bytes[j * size..j * size + size]
  }

  /** The packed features of `bytes`, one per `size` bytes. */
  function Chunks(bytes: seq<Byte>, size: nat, n: nat): (r: seq<seq<Byte>>)
    requires size * n <= |bytes|
    ensures |r| == n
  {
    seq(n, (j: nat) requires j < n =>
          MulMono(j + 1, n, size);
          Chunk(bytes, size, j))
  }

  /** Appending one feature's bytes appends one packed feature. */
  lemma ChunksAppend(bytes: seq<Byte>, size: nat, n: nat, b: seq<Byte>)
    requires |bytes| == size * n && |b| == size
    ensures size * (n + 1) == |bytes + b|
    ensures Chunks(bytes + b, size, n + 1) == Chunks(bytes, size, n) + [b]
  {
    MulStep(n, size);
    var r := Chunks(bytes + b, size, n + 1);
    var s := Chunks(bytes, size, n) + [b];
    forall j | 0 <= j < n + 1 ensures r[j] == s[j] {
      if j < n {
        MulMono(j + 1, n, size);
        ChunkBeforeAppend(bytes, size, j, b);
      } else {
        ChunkAppended(bytes, size, n, b);
      }
    }
  }

  /** Appending bytes leaves the features already packed as they are. */
  lemma ChunkBeforeAppend(bytes: seq<Byte>, size: nat, j: nat, b: seq<Byte>)
    requires (j + 1) * size <= |bytes|
    ensures Chunk(bytes + b, size, j) == Chunk(bytes, size, j)
  {
    MulStep(j, size);
  }

  /** The appended bytes are the next packed feature. */
  lemma ChunkAppended(bytes: seq<Byte>, size: nat, n: nat, b: seq<Byte>)
    requires |bytes| == size * n && |b| == size
    ensures (n + 1) * size <= |bytes + b| && Chunk(bytes + b, size, n) == b
  {
    MulStep(n, size);
    assert n * size == |bytes|;
  }

  /** Slot `i` of `n` slots of `size` bytes lies within them, and dropping
      the last slot leaves `n - 1`. */
  lemma SlotInRange(i: nat, n: nat, size: nat)
    requires i < n
    ensures i * size + size <= size * n && size * n - size == size * (n - 1)
  {
    MulMono(i + 1, n, size);
    MulStep(i, size);
    MulStep(n - 1, size);
  }

  /** The storage's removal: copy the last feature over feature `i` unless it
      is the last one, then truncate the last feature. */
  function CopyLastOverAndTruncate(bytes: seq<Byte>, size: nat, n: nat, i: nat): (r: seq<Byte>)
    requires i < n && |bytes| == size * n
    ensures |r| == size * (n - 1)
  {
    MulStep(n - 1, size);
    MulMono(i + 1, n, size);
    MulStep(i, size);
    var start := i * size;
    var lastStart := |bytes| - size;
    var copied := if start < lastStart then bytes[..start] + bytes[lastStart..] + bytes[start + size..] else bytes;
    copied[..lastStart]
  }

  /** The byte handling of `remove_feature`: with a non-zero feature size,
      the last feature is copied over feature `i` unless `i` is the last,
      and the last feature is truncated away. */
  method RemoveFeatureBytes(bytes: seq<Byte>, size: nat, n: nat, i: nat) returns (r: seq<Byte>)
    requires i < n && |bytes| == size * n
    ensures r == CopyLastOverAndTruncate(bytes, size, n, i)
  {
    r := bytes;
    if size > 0 {
      SlotInRange(i, n, size);
      var start := i * size;
      var lastStart := |r| - size;
      if start < lastStart {
        r := r[..start] + r[lastStart..] + r[start + size..];
      }
      r := r[..lastStart];
    }
  }

  /** Byte `t` of feature `j` is byte `j * size + t` of the storage. */
  lemma ChunkAt(bytes: seq<Byte>, size: nat, j: nat, t: nat)
    requires (j + 1) * size <= |bytes| && t < size
    ensures j * size + t < |bytes| && Chunk(bytes, size, j)[t] == bytes[j * size + t]
  {
    MulStep(j, size);
  }

  /** Byte `x` of the storage after removing feature `i`: the last feature's
      bytes inside the removed feature's slot, the old bytes elsewhere. */
  lemma CopyLastOverAndTruncateAt(bytes: seq<Byte>, size: nat, n: nat, i: nat, x: nat)
    requires i < n && |bytes| == size * n && x < size * (n - 1)
    ensures |CopyLastOverAndTruncate(bytes, size, n, i)| == size * (n - 1)
    ensures i * size + size <= |bytes| && (n - 1) * size + size == |bytes|
    ensures CopyLastOverAndTruncate(bytes, size, n, i)[x]
         == if i * size <= x < i * size + size then bytes[x - i * size + (n - 1) * size] else bytes[x]
  {
    MulStep(n - 1, size);
    MulMono(i + 1, n, size);
    MulStep(i, size);
    var start := i * size;
    var lastStart := |bytes| - size;
    if start < lastStart {
      MulMono(i + 1, n - 1, size);
      assert start + size <= lastStart;
    }
  }

  /** Feature `j` after removing feature `i`: the old last feature when
      `j == i`, the old feature `j` otherwise. */
  lemma CopyLastOverAndTruncateChunk(bytes: seq<Byte>, size: nat, n: nat, i: nat, j: nat)
    requires i < n && |bytes| == size * n && j < n - 1
    ensures |CopyLastOverAndTruncate(bytes, size, n, i)| == size * (n - 1)
    ensures (j + 1) * size <= size * (n - 1)
    ensures Chunk(CopyLastOverAndTruncate(bytes, size, n, i), size, j)
         == Chunk(bytes, size, if j == i then n - 1 else j)
  {
    var r := CopyLastOverAndTruncate(bytes, size, n, i);
    MulStep(j, size);
    MulStep(i, size);
    MulStep(n - 1, size);
    MulMono(j + 1, n - 1, size);
    MulMono(i + 1, n, size);
    var js := j * size;
    var is_ := i * size;
    if j < i {
      MulMono(j + 1, i, size);
    } else if j > i {
      MulMono(i + 1, j, size);
    }
    var jj := if j == i then n - 1 else j;
    MulMono(jj + 1, n, size);
    MulStep(jj, size);
    forall t | 0 <= t < size
      ensures Chunk(r, size, j)[t] == Chunk(bytes, size, jj)[t]
    {
      CopyLastOverAndTruncateAt(bytes, size, n, i, js + t);
      ChunkAt(r, size, j, t);
      ChunkAt(bytes, size, jj, t);
      if j == i {
        assert r[js + t] == bytes[(n - 1) * size + t];
      } else {
        assert !(is_ <= js + t < is_ + size);
      }
    }
  }

  /** Removing feature `i` from the packed bytes swap-removes it from the
      sequence of packed features. */
  lemma CopyLastOverAndTruncateIsSwapRemove(bytes: seq<Byte>, size: nat, n: nat, i: nat)
    requires i < n && |bytes| == size * n
    ensures |CopyLastOverAndTruncate(bytes, size, n, i)| == size * (n - 1)
    ensures Chunks(CopyLastOverAndTruncate(bytes, size, n, i), size, n - 1)
         == SwapRemove(Chunks(bytes, size, n), i)
  {
    var r := CopyLastOverAndTruncate(bytes, size, n, i);
    var lhs := Chunks(r, size, n - 1);
    var rhs := SwapRemove(Chunks(bytes, size, n), i);
    forall j | 0 <= j < n - 1 ensures lhs[j] == rhs[j] {
      CopyLastOverAndTruncateChunk(bytes, size, n, i, j);
    }
  }

  // ---------------------------------------------------------------------
  // Buffer growth
  // ---------------------------------------------------------------------

  /** The size that repeated doubling from `start` reaches first at or above
      `minSize`. */
  function DoubledUntil(start: nat, minSize: nat): (r: nat)
    requires start > 0
    decreases minSize - start
  {
    if start >= minSize then start else DoubledUntil(2 * start, minSize)
  }

  /** `DoubledUntil` reaches `minSize`, is `start` times a power of two, and
      is the first such size: halving it would fall short of `minSize`. */
  lemma {:induction false} DoubledUntilSpec(start: nat, minSize: nat)
    requires start > 0
    ensures DoubledUntil(start, minSize) >= minSize
    ensures DoubledUntil(start, minSize) >= start
    ensures exists k: nat :: DoubledUntil(start, minSize) == start * Pow2(k)
    ensures DoubledUntil(start, minSize) == start || DoubledUntil(start, minSize) < 2 * minSize
    decreases minSize - start
  {
    if start < minSize {
      DoubledUntilSpec(2 * start, minSize);
      var k: nat :| DoubledUntil(2 * start, minSize) == 2 * start * Pow2(k);
      DoubleIntoPow2(start, k);
    } else {
      assert DoubledUntil(start, minSize) == start * Pow2(0);
    }
  }

  lemma DoubleIntoPow2(start: nat, k: nat)
    ensures 2 * start * Pow2(k) == start * Pow2(k + 1)
  {
    var p := Pow2(k);
    assert Pow2(k + 1) == 2 * p;
  }

  /** The loop of `grow_buffer`: starting from `(old + 1) * 2`, double until
      the size reaches `min_size`. The result always exceeds the old size. */
  method NewBufferSize(oldSize: nat, minSize: nat) returns (size: nat)
    ensures size == DoubledUntil((oldSize + 1) * 2, minSize)
    ensures size >= minSize && size > oldSize
  {
    size := (oldSize + 1) * 2;
    while size < minSize
      invariant size > oldSize && size > 0
      invariant DoubledUntil(size, minSize) == DoubledUntil((oldSize + 1) * 2, minSize)
      decreases minSize - size
    {
      size := size * 2;
    }
  }

  // ---------------------------------------------------------------------
  // Ranges
  // ---------------------------------------------------------------------

  /** True when `s` never decreases. */
  predicate Monotone(s: seq<nat>) {
    forall i, j | 0 <= i <= j < |s| :: s[i] <= s[j]
  }

  /** The range of range number `i` given the live range starts and the
      length used to close the last range: shared by the manager and the map. */
  function RangeAt(starts: seq<nat>, i: nat, bufferLength: nat): (r: FeatureRange)
    requires i < |starts|
  {
    FeatureRange(starts[i], if i + 1 < |starts| then starts[i + 1] else bufferLength)
  }

  /** The ranges tile `0 .. bufferLength`: the first starts at 0, each ends
      where the next starts, the last ends at the buffer length, and none is
      reversed when the starts are monotone and below the length. */
  lemma RangesTile(starts: seq<nat>, bufferLength: nat)
    requires |starts| >= 1 && starts[0] == 0 && Monotone(starts)
    requires starts[|starts| - 1] <= bufferLength
    ensures RangeAt(starts, 0, bufferLength).start == 0
    ensures RangeAt(starts, |starts| - 1, bufferLength).end == bufferLength
    ensures forall i | 0 <= i < |starts| - 1 :: RangeAt(starts, i, bufferLength).end == RangeAt(starts, i + 1, bufferLength).start
    ensures forall i | 0 <= i < |starts| :: RangeAt(starts, i, bufferLength).start <= RangeAt(starts, i, bufferLength).end
  {
  }

  class InstanceFeatureBufferRangeManager {
    /** Start index of every range ever begun; entries past the mapper's
        length are stale leftovers from before the last `clear`. */
    var rangeStartIndices: seq<nat>
    const rangeIdIndexMapper: KeyIndexMapper<RangeID>

    ghost predicate Valid()
      reads this, rangeIdIndexMapper
    {
      && rangeIdIndexMapper.Valid()
      && 1 <= |rangeIdIndexMapper.keys| <= |rangeStartIndices|
      && rangeIdIndexMapper.keys[0] == INITIAL_RANGE_ID
      && rangeStartIndices[0] == 0
      && Monotone(LiveStarts())
      && (forall i | 0 <= i < |rangeStartIndices| :: rangeStartIndices[i] < U32_LIMIT)
    }

    /** The start indices of the ranges that currently exist. */
    ghost function LiveStarts(): seq<nat>
      reads this, rangeIdIndexMapper
      requires |rangeIdIndexMapper.keys| <= |rangeStartIndices|
    {
      rangeStartIndices[..|rangeIdIndexMapper.keys|]
    }

    /** `new_with_initial_range`: one range, the initial one, starting at 0. */
    constructor NewWithInitialRange()
      ensures Valid() && fresh(rangeIdIndexMapper)
      ensures rangeStartIndices == [0] && rangeIdIndexMapper.keys == [INITIAL_RANGE_ID]
    {
      rangeStartIndices := [0];
      rangeIdIndexMapper := new KeyIndexMapper.NewWithKeys([INITIAL_RANGE_ID]);
    }

    /** `get_range`: the range with the given ID, closed by the next range's
        start or, for the last range, by the buffer length. An unknown ID, a
        length that does not fit in `u32` and a length below the last start
        panic. */
    function GetRange(rangeId: RangeID, bufferLength: nat): (r: FeatureRange)
      reads this, rangeIdIndexMapper
      requires Valid() && rangeId in rangeIdIndexMapper.indices
      requires rangeIdIndexMapper.indices[rangeId] == |rangeIdIndexMapper.keys| - 1 ==>
                 bufferLength < U32_LIMIT && bufferLength >= rangeStartIndices[rangeIdIndexMapper.indices[rangeId]]
      ensures r.start <= r.end
      ensures r == RangeAt(LiveStarts(), rangeIdIndexMapper.indices[rangeId], bufferLength)
    {
      var rangeIdx := rangeIdIndexMapper.Get(rangeId).value;
      var nextRangeIdx := rangeIdx + 1;
      var rangeStartIdx := rangeStartIndices[rangeIdx];
      var rangeEndIdx := if nextRangeIdx < rangeIdIndexMapper.Len() then rangeStartIndices[nextRangeIdx] else bufferLength;
      FeatureRange(rangeStartIdx, rangeEndIdx)
    }

    /** `begin_range`: a new range with a fresh ID starting at `start`, which
        may not precede the previous range's start; the slot is reused when a
        stale entry exists. */
    method BeginRange(start: nat, rangeId: RangeID)
      requires Valid() && start < U32_LIMIT
      requires start >= rangeStartIndices[|rangeIdIndexMapper.keys| - 1]
      requires rangeId !in rangeIdIndexMapper.indices
      modifies this, rangeIdIndexMapper
      ensures Valid()
      ensures rangeIdIndexMapper.keys == old(rangeIdIndexMapper.keys) + [rangeId]
      ensures rangeIdIndexMapper.indices == old(rangeIdIndexMapper.indices)[rangeId := old(|rangeIdIndexMapper.keys|)]
      ensures LiveStarts() == old(LiveStarts()) + [start]
    {
      var rangeIdx := rangeIdIndexMapper.Len();
      rangeIdIndexMapper.PushKey(rangeId);
      if rangeIdx == |rangeStartIndices| {
        rangeStartIndices := rangeStartIndices + [start];
      } else {
        rangeStartIndices := rangeStartIndices[rangeIdx := start];
      }
      assert LiveStarts() == old(LiveStarts()) + [start];
    }

    /** `clear`: forgets every range but the initial one. The vector of start
        indices is left as it is. */
    method Clear()
      requires Valid()
      modifies this, rangeIdIndexMapper
      ensures Valid()
      ensures rangeIdIndexMapper.keys == [INITIAL_RANGE_ID] && LiveStarts() == [0]
      ensures rangeStartIndices == old(rangeStartIndices)
    {
      rangeIdIndexMapper.Clear();
      rangeIdIndexMapper.PushKey(INITIAL_RANGE_ID);
    }
  }

  /** `InstanceFeatureBufferRangeMap`: a snapshot of the live ranges. */
  datatype InstanceFeatureBufferRangeMap = InstanceFeatureBufferRangeMap(
    rangeStartIndices: seq<nat>,
    rangeIdIndexMap: map<RangeID, nat>)
  {
    /** `get_range` on the snapshot: the last range is the last stored start. */
    function GetRange(rangeId: RangeID, bufferLength: nat): (r: FeatureRange)
      requires rangeId in rangeIdIndexMap && rangeIdIndexMap[rangeId] < |rangeStartIndices|
      requires rangeIdIndexMap[rangeId] + 1 == |rangeStartIndices| ==>
                 bufferLength >= rangeStartIndices[rangeIdIndexMap[rangeId]]
      ensures r == RangeAt(rangeStartIndices, rangeIdIndexMap[rangeId], bufferLength)
    {
      var rangeIdx := rangeIdIndexMap[rangeId];
      var rangeStartIdx := rangeStartIndices[rangeIdx];
      var rangeEndIdx := if rangeIdx + 1 < |rangeStartIndices| then rangeStartIndices[rangeIdx + 1] else bufferLength;
      FeatureRange(rangeStartIdx, rangeEndIdx)
    }
  }

  /** `InstanceFeatureBufferRangeMap::from_manager`: keeps only the live range
      starts, so it answers every range query as the manager does, including
      closing the last range with the buffer length despite stale entries. */
  function RangeMapFromManager(m: InstanceFeatureBufferRangeManager): (r: InstanceFeatureBufferRangeMap)
    reads m, m.rangeIdIndexMapper
    requires m.Valid()
    ensures r.rangeStartIndices == m.LiveStarts() && r.rangeIdIndexMap == m.rangeIdIndexMapper.indices
    ensures forall id: RangeID, len: nat | id in m.rangeIdIndexMapper.indices
              && (m.rangeIdIndexMapper.indices[id] == |m.rangeIdIndexMapper.keys| - 1 ==>
                   len < U32_LIMIT && len >= m.rangeStartIndices[m.rangeIdIndexMapper.indices[id]])
              :: id in r.rangeIdIndexMap && r.rangeIdIndexMap[id] < |r.rangeStartIndices|
                 && r.GetRange(id, len) == m.GetRange(id, len)
  {
    InstanceFeatureBufferRangeMap(m.rangeStartIndices[..m.rangeIdIndexMapper.Len()], m.rangeIdIndexMapper.indices)
  }

  // ---------------------------------------------------------------------
  // Storage
  // ---------------------------------------------------------------------

  class InstanceFeatureStorage {
    const featureTypeId: FeatureTypeID
    const featureSize: nat
    var bytes: seq<Byte>
    /** Maps the index of each live feature ID to its position in `bytes`. */
    const indexMap: KeyIndexMapper<nat>
    var featureIdCount: nat

    ghost predicate Valid()
      reads this, indexMap
    {
      && indexMap.Valid()
      && |bytes| == featureSize * |indexMap.keys|
      && (forall k | k in indexMap.indices :: k < featureIdCount)
    }

    /** The stored features in storage order. */
    ghost function Features(): (fs: seq<seq<Byte>>)
      reads this, indexMap
      requires Valid()
      ensures |fs| == |indexMap.keys|
    {
      Chunks(bytes, featureSize, |indexMap.keys|)
    }

    /** The value stored under each live feature index. */
    ghost function Values(): map<nat, seq<Byte>>
      reads this, indexMap
      requires Valid()
    {
      map k | k in indexMap.indices :: Features()[indexMap.indices[k]]
    }

    /** `new`: an empty storage for features of the given type and size. */
    constructor (featureTypeId: FeatureTypeID, featureSize: nat)
      ensures Valid() && fresh(indexMap)
      ensures this.featureTypeId == featureTypeId && this.featureSize == featureSize
      ensures bytes == [] && indexMap.keys == [] && featureIdCount == 0
    {
      this.featureTypeId := featureTypeId;
      this.featureSize := featureSize;
      bytes := [];
      indexMap := new KeyIndexMapper();
      featureIdCount := 0;
    }

    /** `feature_count`: the number of live features. */
    function FeatureCount(): (n: nat)
      reads this, indexMap
      requires Valid()
      ensures n == |Values()|
    {
      assert Values().Keys == indexMap.indices.Keys;
      indexMap.Len()
    }

    /** `has_feature`: panics on an ID of another feature type. */
    function HasFeature(id: InstanceFeatureID): (b: bool)
      reads this, indexMap
      requires Valid() && id.featureTypeId == featureTypeId
      ensures b <==> id.idx in Values()
    {
      indexMap.ContainsKey(id.idx)
    }

    /** `feature_bytes`: the bytes of the feature; a missing feature or an ID
        of another type panics. */
    function FeatureBytes(id: InstanceFeatureID): (b: seq<Byte>)
      reads this, indexMap
      requires Valid() && id.featureTypeId == featureTypeId && id.idx in indexMap.indices
      ensures |b| == featureSize && b == Values()[id.idx]
    {
      var i := indexMap.Idx(id.idx);
      MulMono(i + 1, |indexMap.keys|, featureSize);
      Chunk(bytes, featureSize, i)
    }

    /** `add_feature`: appends one feature's bytes and issues the next ID,
        which was never issued before. Bytes of another length are the bytes
        of another type, which the source rejects. */
    method AddFeature(feature: seq<Byte>) returns (id: InstanceFeatureID)
      requires Valid() && |feature| == featureSize
      modifies this, indexMap
      ensures Valid()
      ensures id == InstanceFeatureID(featureTypeId, old(featureIdCount))
      ensures featureIdCount == old(featureIdCount) + 1
      ensures id.idx !in old(Values())
      ensures bytes == old(bytes) + feature
      ensures Features() == old(Features()) + [feature]
      ensures Values() == old(Values())[id.idx := feature]
    {
      ghost var oldFeatures := Features();
      ghost var oldValues := Values();
      ChunksAppend(bytes, featureSize, |indexMap.keys|, feature);
      bytes := bytes + feature;
      id := InstanceFeatureID(featureTypeId, featureIdCount);
      featureIdCount := featureIdCount + 1;
      indexMap.PushKey(id.idx);
      assert Features() == oldFeatures + [feature];
    }

    /** `remove_feature`: swap-removes the feature. The last feature's bytes
        move into the freed slot, the byte length shrinks by the feature size,
        and every other ID still reads its own value. */
    method RemoveFeature(id: InstanceFeatureID)
      requires Valid() && id.featureTypeId == featureTypeId && id.idx in indexMap.indices
      modifies this, indexMap
      ensures Valid()
      ensures |bytes| == |old(bytes)| - featureSize
      ensures Features() == SwapRemove(old(Features()), old(indexMap.indices[id.idx]))
      ensures Values() == old(Values()) - {id.idx}
      ensures featureIdCount == old(featureIdCount)
    {
      ghost var oldValues := Values();
      ghost var oldFeatures := Features();
      ghost var oldKeys := indexMap.keys;
      ghost var oldIndices := indexMap.indices;
      var n := |indexMap.keys|;
      var featureIdx := indexMap.SwapRemoveKey(id.idx);
      bytes := RemoveFeatureBytes(bytes, featureSize, n, featureIdx);
      CopyLastOverAndTruncateIsSwapRemove(old(bytes), featureSize, n, featureIdx);
      SwapRemoveKeepsLookups(oldIndices, oldKeys, oldFeatures, indexMap.indices, indexMap.keys, featureIdx);
      assert Features() == SwapRemove(oldFeatures, featureIdx);
      LookupsAfterRemoval(oldIndices, oldFeatures, indexMap.indices, Features(), id.idx);
    }

    /** `remove_all_features`: empties the storage but keeps the ID counter,
        so IDs are never reused. */
    method RemoveAllFeatures()
      requires Valid()
      modifies this, indexMap
      ensures Valid()
      ensures bytes == [] && Values() == map[] && FeatureCount() == 0
      ensures featureIdCount == old(featureIdCount)
    {
      bytes := [];
      indexMap.Clear();
    }
  }

  // ---------------------------------------------------------------------
  // Dynamic buffer
  // ---------------------------------------------------------------------

  class DynamicInstanceFeatureBuffer {
    const featureTypeId: FeatureTypeID
    const featureSize: nat
    var bytes: seq<Byte>
    var nValidBytes: nat
    /** The number of valid features; the source derives it by dividing. */
    ghost var validCount: nat
    const rangeManager: InstanceFeatureBufferRangeManager

    ghost predicate Valid()
      reads this, rangeManager, rangeManager.rangeIdIndexMapper
    {
      && nValidBytes <= |bytes|
      && nValidBytes == featureSize * validCount
      && (featureSize == 0 ==> validCount == 0)
      && rangeManager.Valid()
      && rangeManager.rangeStartIndices[|rangeManager.rangeIdIndexMapper.keys| - 1] <= validCount
    }

    /** The valid prefix of the buffer, `valid_bytes`. */
    ghost function ValidBytes(): seq<Byte>
      reads this
      requires nValidBytes <= |bytes|
    {
      bytes[..nValidBytes]
    }

    /** `new` and `new_for_storage`: room for one zeroed feature, no valid
        bytes, and the initial range. */
    constructor (featureTypeId: FeatureTypeID, featureSize: nat)
      ensures Valid() && fresh(rangeManager) && fresh(rangeManager.rangeIdIndexMapper)
      ensures this.featureTypeId == featureTypeId && this.featureSize == featureSize
      ensures bytes == Zeros(featureSize * INITIAL_ALLOCATED_FEATURE_COUNT) && nValidBytes == 0
      ensures rangeManager.LiveStarts() == [0]
    {
      this.featureTypeId := featureTypeId;
      this.featureSize := featureSize;
      bytes := Zeros(featureSize * INITIAL_ALLOCATED_FEATURE_COUNT);
      nValidBytes := 0;
      validCount := 0;
      rangeManager := new InstanceFeatureBufferRangeManager.NewWithInitialRange();
    }

    /** `n_valid_features`: panics for zero-sized features. */
    function NValidFeatures(): (n: nat)
      reads this, rangeManager, rangeManager.rangeIdIndexMapper
      requires Valid() && featureSize != 0
      ensures n == validCount && n * featureSize == nValidBytes
    {
      DivExact(validCount, featureSize);
      nValidBytes / featureSize
    }

    /** `valid_feature_range`: the buffer's own ranges always close within the
        valid features, so only an unknown range ID (or a feature count past
        `u32`) panics. */
    function ValidFeatureRange(rangeId: RangeID): (r: FeatureRange)
      reads this, rangeManager, rangeManager.rangeIdIndexMapper
      requires Valid() && featureSize != 0 && rangeId in rangeManager.rangeIdIndexMapper.indices
      requires rangeManager.rangeIdIndexMapper.indices[rangeId] == |rangeManager.rangeIdIndexMapper.keys| - 1 ==>
                 NValidFeatures() < U32_LIMIT
      ensures r.start <= r.end <= NValidFeatures()
      ensures r == RangeAt(rangeManager.LiveStarts(), rangeManager.rangeIdIndexMapper.indices[rangeId], NValidFeatures())
    {
      var n := NValidFeatures();
      RangesTile(rangeManager.LiveStarts(), n);
      rangeManager.GetRange(rangeId, n)
    }

    /** `grow_buffer`: resizes with zeros to the doubled size. */
    method GrowBuffer(minSize: nat)
      requires Valid()
      modifies this
      ensures Valid()
      ensures |bytes| >= minSize && |bytes| > |old(bytes)|
      ensures |bytes| == DoubledUntil((|old(bytes)| + 1) * 2, minSize)
      ensures bytes[..|old(bytes)|] == old(bytes)
      ensures forall i | |old(bytes)| <= i < |bytes| :: bytes[i] == 0
      ensures nValidBytes == old(nValidBytes) && validCount == old(validCount)
    {
      var newSize := NewBufferSize(|bytes|, minSize);
      bytes := bytes + Zeros(newSize - |bytes|);
    }

    /** Writes `count` features' bytes just past the valid bytes, growing the
        buffer first when the end reaches its length, and counts them as
        valid. */
    method AppendValidBytes(b: seq<Byte>, count: nat)
      requires Valid() && featureSize > 0 && count > 0 && |b| == featureSize * count
      modifies this
      ensures Valid()
      ensures ValidBytes() == old(ValidBytes()) + b
      ensures nValidBytes == old(nValidBytes) + |b| && validCount == old(validCount) + count
      ensures |bytes| >= |old(bytes)| && rangeManager.LiveStarts() == old(rangeManager.LiveStarts())
    {
      var start := nValidBytes;
      var end := nValidBytes + |b|;
      if end >= |bytes| {
        GrowBuffer(end);
      }
      ghost var prefix := bytes[..start];
      bytes := bytes[..start] + b + bytes[end..];
      nValidBytes := end;
      validCount := validCount + count;
      assert ValidBytes() == prefix + b;
    }

    /** `add_feature` and `add_feature_bytes`: bytes of the wrong length are
        rejected by the source's assertion; a zero-sized feature adds nothing. */
    method AddFeatureBytes(feature: seq<Byte>)
      requires Valid() && |feature| == featureSize
      modifies this
      ensures Valid()
      ensures ValidBytes() == old(ValidBytes()) + feature
      ensures nValidBytes == old(nValidBytes) + featureSize
      ensures featureSize > 0 ==> validCount == old(validCount) + 1
      ensures rangeManager.LiveStarts() == old(rangeManager.LiveStarts())
    {
      if featureSize > 0 {
        AppendValidBytes(feature, 1);
      }
    }

    /** `add_feature_from_storage_repeatedly` and
        `add_feature_bytes_repeatedly`: `n` copies of one feature. */
    method AddFeatureBytesRepeatedly(feature: seq<Byte>, nCopies: nat)
      requires Valid() && |feature| == featureSize
      modifies this
      ensures Valid()
      ensures ValidBytes() == old(ValidBytes()) + Repeat(feature, nCopies)
      ensures nValidBytes == old(nValidBytes) + featureSize * nCopies
      ensures rangeManager.LiveStarts() == old(rangeManager.LiveStarts())
    {
      if featureSize > 0 && nCopies > 0 {
        AppendValidBytes(Repeat(feature, nCopies), nCopies);
      } else {
        RepeatEmpty(feature, nCopies);
      }
    }

    /** `add_feature_slice` and `add_feature_slice_bytes`. */
    method AddFeatureSliceBytes(featureCount: nat, featureBytes: seq<Byte>)
      requires Valid() && |featureBytes| == featureSize * featureCount
      modifies this
      ensures Valid()
      ensures ValidBytes() == old(ValidBytes()) + featureBytes
      ensures rangeManager.LiveStarts() == old(rangeManager.LiveStarts())
    {
      if featureSize * featureCount > 0 {
        AppendValidBytes(featureBytes, featureCount);
      }
    }

    /** `add_features_from_iterator`: the features are written in order. */
    method AddFeaturesFromIterator(features: seq<seq<Byte>>)
      requires Valid() && forall i | 0 <= i < |features| :: |features[i]| == featureSize
      modifies this
      ensures Valid()
      ensures ValidBytes() == old(ValidBytes()) + Flatten(features)
      ensures nValidBytes == old(nValidBytes) + featureSize * |features|
      ensures rangeManager.LiveStarts() == old(rangeManager.LiveStarts())
    {
      FlattenLength(features, featureSize);
      if featureSize > 0 && |features| > 0 {
        AppendValidBytes(Flatten(features), |features|);
      } else {
        assert Flatten(features) == [];
      }
    }

    /** `add_feature_from_storage`: the stored feature's bytes are appended;
        a storage of another type or a missing feature panics. */
    method AddFeatureFromStorage(storage: InstanceFeatureStorage, id: InstanceFeatureID)
      requires Valid() && storage.Valid()
      requires storage.featureTypeId == featureTypeId && storage.featureSize == featureSize
      requires id.featureTypeId == storage.featureTypeId && id.idx in storage.indexMap.indices
      modifies this
      ensures Valid()
      ensures ValidBytes() == old(ValidBytes()) + old(storage.Values()[id.idx])
    {
      var b := storage.FeatureBytes(id);
      AddFeatureBytes(b);
    }

    /** `begin_range`: a range starting after the current last feature, empty
        until features are added. It panics for zero-sized features and for an
        ID already in use. */
    method BeginRange(rangeId: RangeID)
      requires Valid() && featureSize != 0 && NValidFeatures() < U32_LIMIT
      requires rangeId !in rangeManager.rangeIdIndexMapper.indices
      modifies rangeManager, rangeManager.rangeIdIndexMapper
      ensures Valid()
      ensures rangeManager.LiveStarts() == old(rangeManager.LiveStarts()) + [old(NValidFeatures())]
      ensures rangeId in rangeManager.rangeIdIndexMapper.indices
      ensures ValidFeatureRange(rangeId) == FeatureRange(NValidFeatures(), NValidFeatures())
    {
      rangeManager.BeginRange(NValidFeatures(), rangeId);
    }

    /** `clear`: no valid bytes and only the initial range; the allocation
        is kept. */
    method Clear()
      requires Valid()
      modifies this, rangeManager, rangeManager.rangeIdIndexMapper
      ensures Valid()
      ensures nValidBytes == 0 && bytes == old(bytes)
      ensures rangeManager.rangeIdIndexMapper.keys == [INITIAL_RANGE_ID] && rangeManager.LiveStarts() == [0]
    {
      nValidBytes := 0;
      validCount := 0;
      rangeManager.Clear();
    }

    /** `create_range_map`. */
    function CreateRangeMap(): (m: InstanceFeatureBufferRangeMap)
      reads this, rangeManager, rangeManager.rangeIdIndexMapper
      requires Valid()
      ensures m.rangeStartIndices == rangeManager.LiveStarts()
    {
      RangeMapFromManager(rangeManager)
    }
  }

  lemma RepeatEmpty(b: seq<Byte>, n: nat)
    requires |b| == 0 || n == 0
    ensures Repeat(b, n) == []
  {
  }
}
