/** Model of the older top-level `InstanceFeatureManager`: per model an entry
    `(count, buffers)` whose first buffer holds instance transforms and whose
    other buffers hold, in the order of the material's feature types, copies
    of features taken from the per-type storages. Storages and buffers are
    represented by their contents (a storage by the value under each live
    feature index, a buffer by the features it holds); the byte-level
    behaviour of both is the one of `InstanceFeatures`. */
module LegacyModel {
  import opened Wrappers
  import opened Sequences
  import opened InstanceFeatures

  /** What a `DynamicInstanceFeatureBuffer` holds: its feature type and the
      valid features in order. */
  datatype BufferContents = BufferContents(featureTypeId: FeatureTypeID, features: seq<seq<Byte>>)

  /** `(count, buffers)` of one model. */
  datatype ModelEntry = ModelEntry(count: nat, buffers: seq<BufferContents>)

  /** `InstanceFeatureID::not_applicable` of the older code: the zero hash
      and `usize::MAX`, which is `u64::MAX` on the 64-bit targets. */
  lemma NotApplicableIsNotApplicable()
    ensures IsNotApplicable(NotApplicable()) && NotApplicable().idx == U64_MAX
  {
  }

  /** The value appended for each feature ID of one buffer by
      `buffer_multiple_instances`: the single ID repeated when it stands for
      all instances, otherwise one ID per instance. */
  function FeaturesForBuffer(storage: map<nat, seq<Byte>>, ids: seq<InstanceFeatureID>, nInstances: nat): (fs: seq<seq<Byte>>)
    requires forall i | 0 <= i < |ids| :: ids[i].idx in storage
    requires (|ids| == 1 && nInstances > 1) || |ids| == nInstances
    ensures |fs| == nInstances
    ensures |ids| == 1 && nInstances > 1 ==> forall k | 0 <= k < nInstances :: fs[k] == storage[ids[0].idx]
    ensures |ids| == nInstances ==> forall k | 0 <= k < nInstances :: fs[k] == storage[ids[k].idx]
  {
    if |ids| == 1 && nInstances > 1 then seq(nInstances, _ => storage[ids[0].idx])
    else seq(nInstances, k requires 0 <= k < nInstances => storage[ids[k].idx])
  }

  /** The feature types of the non-transform buffers, in order. */
  function FeatureTypesOf(buffers: seq<BufferContents>): (ts: seq<FeatureTypeID>)
    requires |buffers| >= 1
    ensures |ts| + 1 == |buffers| && forall i | 0 <= i < |ts| :: ts[i] == buffers[i + 1].featureTypeId
  {
    seq(|buffers| - 1, i requires 0 <= i < |buffers| - 1 => buffers[i + 1].featureTypeId)
  }

  /** What `buffer_instance` demands of its feature IDs: the one for
      buffer `i` (the `i - 1`th) has the buffer's type and is stored. */
  ghost predicate SingleIdsStored(buffers: seq<BufferContents>, storages: map<FeatureTypeID, map<nat, seq<Byte>>>,
                                  featureIds: seq<InstanceFeatureID>)
    requires |featureIds| + 1 == |buffers|
  {
    forall i | 1 <= i < |buffers| ::
      && featureIds[i - 1].featureTypeId == buffers[i].featureTypeId
      && buffers[i].featureTypeId in storages
      && featureIds[i - 1].idx in storages[buffers[i].featureTypeId]
  }

  /** What `buffer_multiple_instances` demands: for each non-transform buffer
      either a lone ID (with more than one instance) or one ID per instance,
      each of the buffer's type and stored. */
  ghost predicate MultipleIdsStored(buffers: seq<BufferContents>, storages: map<FeatureTypeID, map<nat, seq<Byte>>>,
                                    featureIds: seq<seq<InstanceFeatureID>>, nInstances: nat)
    requires |featureIds| + 1 == |buffers|
  {
    forall i | 1 <= i < |buffers| ::
      && ((|featureIds[i - 1]| == 1 && nInstances > 1) || |featureIds[i - 1]| == nInstances)
      && buffers[i].featureTypeId in storages
      && var ids := featureIds[i - 1];
         forall k | 0 <= k < |ids| ::
           && ids[k].featureTypeId == buffers[i].featureTypeId
           && ids[k].idx in storages[buffers[i].featureTypeId]
  }

  /** The buffers after `buffer_instance`: every buffer gains exactly one
      feature, the transform in buffer 0 and the `i`th stored feature in
      buffer `i + 1`, and keeps its type. */
  function BufferedInstance(buffers: seq<BufferContents>, storages: map<FeatureTypeID, map<nat, seq<Byte>>>,
                            transform: seq<Byte>, featureIds: seq<InstanceFeatureID>): (r: seq<BufferContents>)
    requires |featureIds| + 1 == |buffers| && SingleIdsStored(buffers, storages, featureIds)
    ensures |r| == |buffers| && FeatureTypesOf(r) == FeatureTypesOf(buffers)
    ensures r[0] == buffers[0].(features := buffers[0].features + [transform])
    ensures forall i | 0 <= i < |featureIds| ::
              r[i + 1] == buffers[i + 1].(features := buffers[i + 1].features
                                             + [storages[featureIds[i].featureTypeId][featureIds[i].idx]])
  {
    seq(|buffers|, i requires 0 <= i < |buffers| =>
          if i == 0 then buffers[0].(features := buffers[0].features + [transform])
          else buffers[i].(features := buffers[i].features + [storages[buffers[i].featureTypeId][featureIds[i - 1].idx]]))
  }

  /** The buffers after `buffer_multiple_instances` with `n` transforms:
      buffer 0 gains the transforms and buffer `i + 1` the features chosen by
      `FeaturesForBuffer` for the `i`th list of IDs. */
  function BufferedMultipleInstances(buffers: seq<BufferContents>, storages: map<FeatureTypeID, map<nat, seq<Byte>>>,
                                     transforms: seq<seq<Byte>>, featureIds: seq<seq<InstanceFeatureID>>): (r: seq<BufferContents>)
    requires |featureIds| + 1 == |buffers| && MultipleIdsStored(buffers, storages, featureIds, |transforms|)
    ensures |r| == |buffers| && FeatureTypesOf(r) == FeatureTypesOf(buffers)
    ensures r[0] == buffers[0].(features := buffers[0].features + transforms)
    ensures forall i | 0 <= i < |featureIds| ::
              r[i + 1] == buffers[i + 1].(features := buffers[i + 1].features
                                             + FeaturesForBuffer(storages[buffers[i + 1].featureTypeId], featureIds[i], |transforms|))
  {
    seq(|buffers|, i requires 0 <= i < |buffers| =>
          if i == 0 then buffers[0].(features := buffers[0].features + transforms)
          else buffers[i].(features := buffers[i].features
                                       + FeaturesForBuffer(storages[buffers[i].featureTypeId], featureIds[i - 1], |transforms|)))
  }

  /** Buffering several instances at once adds the same number of features,
      one per instance, to every buffer of the model. */
  lemma BufferedMultipleInstancesGrowsUniformly(buffers: seq<BufferContents>, storages: map<FeatureTypeID, map<nat, seq<Byte>>>,
                                                transforms: seq<seq<Byte>>, featureIds: seq<seq<InstanceFeatureID>>)
    requires |featureIds| + 1 == |buffers| && MultipleIdsStored(buffers, storages, featureIds, |transforms|)
    ensures forall i | 0 <= i < |buffers| ::
              |BufferedMultipleInstances(buffers, storages, transforms, featureIds)[i].features|
                == |buffers[i].features| + |transforms|
  {
    var r := BufferedMultipleInstances(buffers, storages, transforms, featureIds);
    forall i | 1 <= i < |buffers| ensures |r[i].features| == |buffers[i].features| + |transforms| {
      assert r[(i - 1) + 1] == r[i];
    }
  }

  /** The stored value of each ID, in order: the loop of
      `add_feature_from_storage` calls. */
  method StoredFeatures(storage: map<nat, seq<Byte>>, ids: seq<InstanceFeatureID>) returns (fs: seq<seq<Byte>>)
    requires forall i | 0 <= i < |ids| :: ids[i].idx in storage
    ensures |fs| == |ids| && forall i | 0 <= i < |ids| :: fs[i] == storage[ids[i].idx]
  {
    fs := [];
    var k := 0;
    while k < |ids|
      invariant 0 <= k <= |ids| && |fs| == k
      invariant forall l | 0 <= l < k :: fs[l] == storage[ids[l].idx]
    {
      fs := fs + [storage[ids[k].idx]];
      k := k + 1;
    }
  }

  /** The loop of `buffer_instance` over the buffers of one model. */
  method AppendInstance(buffers: seq<BufferContents>, storages: map<FeatureTypeID, map<nat, seq<Byte>>>,
                        transform: seq<Byte>, featureIds: seq<InstanceFeatureID>) returns (r: seq<BufferContents>)
    requires |featureIds| + 1 == |buffers| && SingleIdsStored(buffers, storages, featureIds)
    ensures r == BufferedInstance(buffers, storages, transform, featureIds)
  {
    ghost var expected := BufferedInstance(buffers, storages, transform, featureIds);
    r := buffers[0 := buffers[0].(features := buffers[0].features + [transform])];
    var i := 0;
    while i < |featureIds|
      invariant 0 <= i <= |featureIds| && |r| == |buffers|
      invariant forall j | 0 <= j <= i :: r[j] == expected[j]
      invariant forall j | i < j < |r| :: r[j] == buffers[j]
    {
      var id := featureIds[i];
      var b := r[i + 1];
      r := r[i + 1 := b.(features := b.features + [storages[b.featureTypeId][id.idx]])];
      i := i + 1;
    }
  }

  /** What `MultipleIdsStored` says of buffer `i + 1`. */
  lemma IdsStoredAt(buffers: seq<BufferContents>, storages: map<FeatureTypeID, map<nat, seq<Byte>>>,
                    featureIds: seq<seq<InstanceFeatureID>>, nInstances: nat, i: nat)
    requires |featureIds| + 1 == |buffers| && i < |featureIds|
    requires MultipleIdsStored(buffers, storages, featureIds, nInstances)
    ensures buffers[i + 1].featureTypeId in storages
    ensures (|featureIds[i]| == 1 && nInstances > 1) || |featureIds[i]| == nInstances
    ensures forall k | 0 <= k < |featureIds[i]| :: featureIds[i][k].idx in storages[buffers[i + 1].featureTypeId]
  {
  }

  /** The features `buffer_multiple_instances` pushes onto one buffer: the
      lone feature `n` times when there is one ID and more than one
      instance, otherwise the feature of each ID. */
  method FeaturesToBuffer(storage: map<nat, seq<Byte>>, ids: seq<InstanceFeatureID>, n: nat) returns (added: seq<seq<Byte>>)
    requires forall i | 0 <= i < |ids| :: ids[i].idx in storage
    requires (|ids| == 1 && n > 1) || |ids| == n
    ensures added == FeaturesForBuffer(storage, ids, n)
  {
    if |ids| == 1 && n > 1 {
      added := seq(n, _ => storage[ids[0].idx]);
    } else {
      added := StoredFeatures(storage, ids);
    }
  }

  /** The loop of `buffer_multiple_instances` over the buffers of one model. */
  method AppendMultipleInstances(buffers: seq<BufferContents>, storages: map<FeatureTypeID, map<nat, seq<Byte>>>,
                                 transforms: seq<seq<Byte>>, featureIds: seq<seq<InstanceFeatureID>>)
    returns (r: seq<BufferContents>)
    requires |featureIds| + 1 == |buffers| && MultipleIdsStored(buffers, storages, featureIds, |transforms|)
    ensures r == BufferedMultipleInstances(buffers, storages, transforms, featureIds)
  {
    ghost var expected := BufferedMultipleInstances(buffers, storages, transforms, featureIds);
    var n := |transforms|;
    r := buffers[0 := buffers[0].(features := buffers[0].features + transforms)];
    var i := 0;
    while i < |featureIds|
      invariant 0 <= i <= |featureIds| && |r| == |buffers|
      invariant forall j | 0 <= j <= i :: r[j] == expected[j]
      invariant forall j | i < j < |r| :: r[j] == buffers[j]
    {
      var b := r[i + 1];
      IdsStoredAt(buffers, storages, featureIds, n, i);
      var storage := storages[b.featureTypeId];
      var added := FeaturesToBuffer(storage, featureIds[i], n);
      r := r[i + 1 := b.(features := b.features + added)];
      i := i + 1;
    }
  }

  class InstanceFeatureManager<ModelID(==, !new)> {
    /** The feature type of instance transforms, the type of every buffer 0. */
    const transformTypeId: FeatureTypeID
    /** `feature_storages`, as the value under each live index per type. */
    var storages: map<FeatureTypeID, map<nat, seq<Byte>>>
    /** `instance_feature_buffers`. */
    var entries: map<ModelID, ModelEntry>

    ghost predicate Valid()
      reads this
    {
      forall m | m in entries ::
        && entries[m].count > 0
        && |entries[m].buffers| >= 1
        && entries[m].buffers[0].featureTypeId == transformTypeId
        && forall i | 1 <= i < |entries[m].buffers| :: entries[m].buffers[i].featureTypeId in storages
    }

    constructor (transformTypeId: FeatureTypeID)
      ensures Valid() && this.transformTypeId == transformTypeId
      ensures storages == map[] && entries == map[]
    {
      this.transformTypeId := transformTypeId;
      storages := map[];
      entries := map[];
    }

    /** `register_feature_type`: an existing storage is kept. */
    method RegisterFeatureType(featureTypeId: FeatureTypeID)
      requires Valid()
      modifies this
      ensures Valid() && entries == old(entries)
      ensures featureTypeId in old(storages) ==> storages == old(storages)
      ensures featureTypeId !in old(storages) ==> storages == old(storages)[featureTypeId := map[]]
    {
      if featureTypeId !in storages {
        storages := storages[featureTypeId := map[]];
      }
    }

    /** `register_instance_with_feature_type_ids`: the first instance creates
        the transform buffer followed by one empty buffer per feature type,
        with count 1; a later one asserts the same number of buffers and adds
        one to the count. */
    method RegisterInstanceWithFeatureTypeIds(modelId: ModelID, featureTypeIds: seq<FeatureTypeID>)
      requires Valid()
      requires modelId in entries ==> |entries[modelId].buffers| == |featureTypeIds| + 1
      requires modelId !in entries ==> forall i | 0 <= i < |featureTypeIds| :: featureTypeIds[i] in storages
      modifies this
      ensures Valid() && storages == old(storages)
      ensures old(modelId in entries) ==>
                entries == old(entries)[modelId := old(entries[modelId]).(count := old(entries[modelId].count) + 1)]
      ensures old(modelId !in entries) ==> modelId in entries && entries[modelId].count == 1
      ensures old(modelId !in entries) ==> entries == old(entries)[modelId := entries[modelId]]
      ensures FeatureTypesOf(entries[modelId].buffers) == (if old(modelId in entries) then FeatureTypesOf(old(entries[modelId].buffers)) else featureTypeIds)
      ensures forall i | 0 <= i < |entries[modelId].buffers| ::
                old(modelId !in entries) ==> entries[modelId].buffers[i].features == []
    {
      if modelId in entries {
        var e := entries[modelId];
        entries := entries[modelId := e.(count := e.count + 1)];
      } else {
        var buffers := [BufferContents(transformTypeId, [])]
          + seq(|featureTypeIds|, i requires 0 <= i < |featureTypeIds| => BufferContents(featureTypeIds[i], []));
        entries := entries[modelId := ModelEntry(1, buffers)];
      }
    }

    /** `register_instance`: the material's feature types, looked up by the
        caller, are registered; a prepass material that uses feature types
        must use the same ones. */
    method RegisterInstance(modelId: ModelID, materialFeatureTypeIds: seq<FeatureTypeID>,
                            prepassFeatureTypeIds: Option<seq<FeatureTypeID>>)
      requires Valid()
      requires prepassFeatureTypeIds.Some? && prepassFeatureTypeIds.value != [] ==>
                 prepassFeatureTypeIds.value == materialFeatureTypeIds
      requires modelId in entries ==> |entries[modelId].buffers| == |materialFeatureTypeIds| + 1
      requires modelId !in entries ==> forall i | 0 <= i < |materialFeatureTypeIds| :: materialFeatureTypeIds[i] in storages
      modifies this
      ensures Valid() && storages == old(storages)
      ensures modelId in entries
      ensures entries[modelId].count == (if old(modelId in entries) then old(entries[modelId].count) + 1 else 1)
      ensures FeatureTypesOf(entries[modelId].buffers) == (if old(modelId in entries) then FeatureTypesOf(old(entries[modelId].buffers)) else materialFeatureTypeIds)
    {
      RegisterInstanceWithFeatureTypeIds(modelId, materialFeatureTypeIds);
    }

    /** `unregister_instance`: panics for a model without an entry; the count
        drops by one and the entry is removed when it reaches zero. */
    method UnregisterInstance(modelId: ModelID)
      requires Valid() && modelId in entries
      modifies this
      ensures Valid() && storages == old(storages)
      ensures old(entries[modelId].count) == 1 ==> entries == old(entries) - {modelId}
      ensures old(entries[modelId].count) > 1 ==>
                entries == old(entries)[modelId := old(entries[modelId]).(count := old(entries[modelId].count) - 1)]
    {
      var e := entries[modelId];
      if e.count - 1 == 0 {
        entries := entries - {modelId};
      } else {
        entries := entries[modelId := e.(count := e.count - 1)];
      }
    }

    /** `buffer_instance`: pushes the transform onto buffer 0 and the stored
        value of the `i`th feature ID onto buffer `i + 1`. */
    method BufferInstance(modelId: ModelID, transform: seq<Byte>, featureIds: seq<InstanceFeatureID>)
      requires Valid() && modelId in entries
      requires |featureIds| + 1 == |entries[modelId].buffers|
      requires SingleIdsStored(entries[modelId].buffers, storages, featureIds)
      modifies this
      ensures Valid() && storages == old(storages)
      ensures entries == old(entries)[modelId := old(entries[modelId]).(buffers :=
                BufferedInstance(old(entries[modelId].buffers), storages, transform, featureIds))]
    {
      var e := entries[modelId];
      var buffers := AppendInstance(e.buffers, storages, transform, featureIds);
      entries := entries[modelId := e.(buffers := buffers)];
    }

    /** `buffer_multiple_instances`: pushes every transform onto buffer 0
        and, for each other buffer, either `n` copies of a lone feature (when
        `n > 1`) or one feature per instance; any other number of IDs
        panics. */
    method BufferMultipleInstances(modelId: ModelID, transforms: seq<seq<Byte>>, featureIds: seq<seq<InstanceFeatureID>>)
      requires Valid() && modelId in entries
      requires |featureIds| + 1 == |entries[modelId].buffers|
      requires MultipleIdsStored(entries[modelId].buffers, storages, featureIds, |transforms|)
      modifies this
      ensures Valid() && storages == old(storages)
      ensures entries == old(entries)[modelId := old(entries[modelId]).(buffers :=
                BufferedMultipleInstances(old(entries[modelId].buffers), storages, transforms, featureIds))]
    {
      var e := entries[modelId];
      var buffers := AppendMultipleInstances(e.buffers, storages, transforms, featureIds);
      entries := entries[modelId := e.(buffers := buffers)];
    }

    /** `buffer_instance_transform`: only buffer 0 changes. */
    method BufferInstanceTransform(modelId: ModelID, transform: seq<Byte>)
      requires Valid() && modelId in entries
      modifies this
      ensures Valid() && storages == old(storages)
      ensures entries == old(entries)[modelId := old(entries[modelId]).(buffers := old(entries[modelId].buffers)[0 := BufferContents(transformTypeId, old(entries[modelId].buffers[0].features) + [transform])])]
    {
      var e := entries[modelId];
      entries := entries[modelId := e.(buffers := e.buffers[0 := e.buffers[0].(features := e.buffers[0].features + [transform])])];
    }

    /** `buffer_multiple_instance_transforms`: only buffer 0 changes. */
    method BufferMultipleInstanceTransforms(modelId: ModelID, transforms: seq<seq<Byte>>)
      requires Valid() && modelId in entries
      modifies this
      ensures Valid() && storages == old(storages)
      ensures entries == old(entries)[modelId := old(entries[modelId]).(buffers := old(entries[modelId].buffers)[0 := BufferContents(transformTypeId, old(entries[modelId].buffers[0].features) + transforms)])]
    {
      var e := entries[modelId];
      entries := entries[modelId := e.(buffers := e.buffers[0 := e.buffers[0].(features := e.buffers[0].features + transforms)])];
    }

    /** `clear_storages_and_buffers`: forgets every model and empties every
        storage, keeping the registered feature types. */
    method ClearStoragesAndBuffers()
      requires Valid()
      modifies this
      ensures Valid() && entries == map[]
      ensures storages.Keys == old(storages).Keys && forall t | t in storages :: storages[t] == map[]
    {
      entries := map[];
      storages := map t | t in storages :: map[];
    }
  }
}
