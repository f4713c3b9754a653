/** Model of the engine crate's `InstanceFeatureManager`: which feature types
    have a storage, and for each model the `ModelInstanceBuffer` that counts
    its registered instances. The entry of a model exists exactly while its
    count is positive. The contents of the per-model feature buffers are
    those of `DynamicInstanceFeatureBuffer` and are not repeated here. */
module InstanceFeatureManagement {
  import opened Sequences
  import opened InstanceFeatures

  /** `ModelInstanceBuffer`, as the feature types of its buffers (in the
      order they were given) and its instance count. */
  datatype ModelInstanceBuffer = ModelInstanceBuffer(featureTypeIds: seq<FeatureTypeID>, instanceCount: nat)

  /** `ModelInstanceBuffer::new`: one buffer per feature type, one instance.
      A repeated feature type panics in `push_key`. */
  function NewModelInstanceBuffer(featureTypeIds: seq<FeatureTypeID>): (b: ModelInstanceBuffer)
    requires Distinct(featureTypeIds)
    ensures b.featureTypeIds == featureTypeIds && NFeatureTypes(b) == |featureTypeIds|
    ensures HasInstances(b) && b.instanceCount == 1
  {
    ModelInstanceBuffer(featureTypeIds, 1)
  }

  /** `n_feature_types`. */
  function NFeatureTypes(b: ModelInstanceBuffer): nat {
    |b.featureTypeIds|
  }

  /** `has_instances`. */
  predicate HasInstances(b: ModelInstanceBuffer) {
    b.instanceCount > 0
  }

  /** `ModelInstanceBuffer::register_instance`. */
  function RegisterModelInstance(b: ModelInstanceBuffer): (r: ModelInstanceBuffer)
    ensures r.featureTypeIds == b.featureTypeIds && HasInstances(r)
    ensures UnregisterModelInstance(r) == b
  {
    b.(instanceCount := b.instanceCount + 1)
  }

  /** `ModelInstanceBuffer::unregister_instance`: asserts an instance exists. */
  function UnregisterModelInstance(b: ModelInstanceBuffer): (r: ModelInstanceBuffer)
    requires HasInstances(b)
    ensures r.featureTypeIds == b.featureTypeIds && r.instanceCount + 1 == b.instanceCount
    ensures HasInstances(r) <==> b.instanceCount > 1
  {
    b.(instanceCount := b.instanceCount - 1)
  }

  class InstanceFeatureManager<MID(==, !new)> {
    /** The feature types that have a storage. */
    var featureStorageTypes: set<FeatureTypeID>
    var instanceBuffers: map<MID, ModelInstanceBuffer>

    ghost predicate Valid()
      reads this
    {
      forall m | m in instanceBuffers ::
        && HasInstances(instanceBuffers[m])
        && Distinct(instanceBuffers[m].featureTypeIds)
        && Elements(instanceBuffers[m].featureTypeIds) <= featureStorageTypes
    }

    /** `new`: no storages and no models. */
    constructor ()
      ensures Valid() && featureStorageTypes == {} && instanceBuffers == map[]
    {
      featureStorageTypes := {};
      instanceBuffers := map[];
    }

    /** `register_feature_type`: a storage exists afterwards; an existing one
        is kept. */
    method RegisterFeatureType(featureTypeId: FeatureTypeID)
      requires Valid()
      modifies this
      ensures Valid()
      ensures featureStorageTypes == old(featureStorageTypes) + {featureTypeId}
      ensures instanceBuffers == old(instanceBuffers)
    {
      featureStorageTypes := featureStorageTypes + {featureTypeId};
    }

    /** `has_model_id`. */
    function HasModelId(modelId: MID): (b: bool)
      reads this
      requires Valid()
      ensures b <==> modelId in instanceBuffers && HasInstances(instanceBuffers[modelId])
    {
      modelId in instanceBuffers
    }

    /** `record_state`: the models that currently have buffers. */
    function RecordState(): (state: set<MID>)
      reads this
      ensures forall m :: m in state <==> m in instanceBuffers
    {
      instanceBuffers.Keys
    }

    /** `initialize_instance_buffer`: creates the model's buffers with one
        instance if it has none; an existing entry must have as many feature
        types and is left untouched. */
    method InitializeInstanceBuffer(modelId: MID, featureTypeIds: seq<FeatureTypeID>)
      requires Valid()
      requires modelId in instanceBuffers ==> NFeatureTypes(instanceBuffers[modelId]) == |featureTypeIds|
      requires modelId !in instanceBuffers ==> Distinct(featureTypeIds) && Elements(featureTypeIds) <= featureStorageTypes
      modifies this
      ensures Valid() && featureStorageTypes == old(featureStorageTypes)
      ensures old(modelId in instanceBuffers) ==> instanceBuffers == old(instanceBuffers)
      ensures old(modelId !in instanceBuffers) ==> instanceBuffers == old(instanceBuffers)[modelId := NewModelInstanceBuffer(featureTypeIds)]
    {
      if modelId !in instanceBuffers {
        instanceBuffers := instanceBuffers[modelId := NewModelInstanceBuffer(featureTypeIds)];
      }
    }

    /** `register_instance`: the first instance creates the model's buffers
        with count 1; later ones must give as many feature types and add one
        to the count. Other models are unaffected. */
    method RegisterInstance(modelId: MID, featureTypeIds: seq<FeatureTypeID>)
      requires Valid()
      requires modelId in instanceBuffers ==> NFeatureTypes(instanceBuffers[modelId]) == |featureTypeIds|
      requires modelId !in instanceBuffers ==> Distinct(featureTypeIds) && Elements(featureTypeIds) <= featureStorageTypes
      modifies this
      ensures Valid() && featureStorageTypes == old(featureStorageTypes)
      ensures modelId in instanceBuffers
      ensures old(modelId in instanceBuffers) ==> instanceBuffers == old(instanceBuffers)[modelId := RegisterModelInstance(old(instanceBuffers[modelId]))]
      ensures old(modelId !in instanceBuffers) ==> instanceBuffers == old(instanceBuffers)[modelId := NewModelInstanceBuffer(featureTypeIds)]
    {
      if modelId in instanceBuffers {
        instanceBuffers := instanceBuffers[modelId := RegisterModelInstance(instanceBuffers[modelId])];
      } else {
        instanceBuffers := instanceBuffers[modelId := NewModelInstanceBuffer(featureTypeIds)];
      }
    }

    /** `unregister_instance`: panics for a model without instances; the
        count drops by one and the entry is removed when it reaches zero. */
    method UnregisterInstance(modelId: MID)
      requires Valid() && modelId in instanceBuffers
      modifies this
      ensures Valid() && featureStorageTypes == old(featureStorageTypes)
      ensures old(instanceBuffers[modelId].instanceCount) == 1 ==> instanceBuffers == old(instanceBuffers) - {modelId}
      ensures old(instanceBuffers[modelId].instanceCount) > 1 ==>
                instanceBuffers == old(instanceBuffers)[modelId := UnregisterModelInstance(old(instanceBuffers[modelId]))]
    {
      var b := UnregisterModelInstance(instanceBuffers[modelId]);
      if HasInstances(b) {
        instanceBuffers := instanceBuffers[modelId := b];
      } else {
        instanceBuffers := instanceBuffers - {modelId};
      }
    }

    /** `reset_to_state`: keeps exactly the models of the recorded state.
        The feature storages are also emptied; this model of the manager holds
        only their feature types, so that effect is not stated here. */
    method ResetToState(state: set<MID>)
      requires Valid()
      modifies this
      ensures Valid() && featureStorageTypes == old(featureStorageTypes)
      ensures instanceBuffers == map m | m in old(instanceBuffers) && m in state :: old(instanceBuffers)[m]
      ensures state == old(RecordState()) ==> instanceBuffers == old(instanceBuffers)
    {
      instanceBuffers := map m | m in instanceBuffers && m in state :: instanceBuffers[m];
    }
  }
}
