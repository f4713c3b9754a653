/** Model of `KeyIndexMapper`: a bijection between hashable keys and the dense
    indices `0 .. len` of an underlying vector, kept up to date while keys are
    pushed and swap-removed. */
module KeyIndexMapping {
  import opened Wrappers
  import opened Sequences

  /** The invariant of the mapper: the map sends each key to the position it
      occupies in the vector and knows no other key. */
  ghost predicate Consistent<K>(indices: map<K, nat>, keys: seq<K>) {
    && (forall k | k in indices :: indices[k] < |keys| && keys[indices[k]] == k)
    && (forall i | 0 <= i < |keys| :: keys[i] in indices && indices[keys[i]] == i)
  }

  /** The consistent map has exactly as many entries as the vector has keys,
      which is why `len` can be read off either of them. */
  lemma {:induction false} ConsistentSizes<K>(indices: map<K, nat>, keys: seq<K>)
    requires Consistent(indices, keys)
    ensures |indices| == |keys|
    ensures Distinct(keys)
  {
    if |keys| > 0 {
      var last := |keys| - 1;
      var k := keys[last];
      var rest := indices - {k};
      forall kk | kk in rest ensures rest[kk] < |keys[..last]| && keys[..last][rest[kk]] == kk {
        assert indices[kk] != last;
      }
      ConsistentSizes(rest, keys[..last]);
      assert indices.Keys == rest.Keys + {k};
    }
  }

  /** Swap-removing position `idx` keeps the mapper consistent once the
      removed key leaves the map and the last key, if it is another one, is
      re-pointed at `idx`. */
  lemma SwapRemoveConsistent<K>(indices: map<K, nat>, keys: seq<K>, idx: nat)
    requires Consistent(indices, keys) && idx < |keys|
    ensures var last := keys[|keys| - 1];
            var removed := indices - {keys[idx]};
            Consistent(if keys[idx] != last then removed[last := idx] else removed, SwapRemove(keys, idx))
  {
    ConsistentSizes(indices, keys);
    var last := |keys| - 1;
    var removed := indices - {keys[idx]};
    var newIndices := if keys[idx] != keys[last] then removed[keys[last] := idx] else removed;
    var newKeys := SwapRemove(keys, idx);
    forall k | k in newIndices
      ensures newIndices[k] < |newKeys| && newKeys[newIndices[k]] == k
    {
      if k != keys[last] {
        assert indices[k] != idx && indices[k] != last;
      }
    }
    forall i | 0 <= i < |newKeys|
      ensures newKeys[i] in newIndices && newIndices[newKeys[i]] == i
    {
      if i != idx {
        assert keys[i] != keys[idx] && keys[i] != keys[last];
      }
    }
  }

  /** A vector kept parallel to the mapper and swap-removed at the same index
      still gives every surviving key the value it had before: this is how the
      owners of a mapper remove an element without disturbing the others. */
  lemma SwapRemoveKeepsLookups<K, V>(oldIndices: map<K, nat>, oldKeys: seq<K>, oldValues: seq<V>,
                                     indices: map<K, nat>, keys: seq<K>, idx: nat)
    requires Consistent(oldIndices, oldKeys) && |oldValues| == |oldKeys| && idx < |oldKeys|
    requires Consistent(indices, keys) && keys == SwapRemove(oldKeys, idx)
    ensures forall k | k in indices ::
              k in oldIndices && indices[k] < |SwapRemove(oldValues, idx)|
              && SwapRemove(oldValues, idx)[indices[k]] == oldValues[oldIndices[k]]
  {
    var values := SwapRemove(oldValues, idx);
    forall k | k in indices
      ensures k in oldIndices && indices[k] < |values| && values[indices[k]] == oldValues[oldIndices[k]]
    {
      var p := indices[k];
      var q := if p == idx then |oldKeys| - 1 else p;
      assert oldKeys[q] == k;
    }
  }

  /** Removing a key from a lookup map whose remaining keys still find their
      old values removes exactly that key from the map of looked-up values. */
  lemma LookupsAfterRemoval<K, V>(oldIndices: map<K, nat>, oldValues: seq<V>,
                                  indices: map<K, nat>, values: seq<V>, key: K)
    requires forall k | k in oldIndices :: oldIndices[k] < |oldValues|
    requires indices.Keys == oldIndices.Keys - {key}
    requires forall k | k in indices :: k in oldIndices && indices[k] < |values| && values[indices[k]] == oldValues[oldIndices[k]]
    ensures (map k | k in indices :: values[indices[k]]) == (map k | k in oldIndices :: oldValues[oldIndices[k]]) - {key}
  {
  }

  class KeyIndexMapper<K(==)> {
    var indices: map<K, nat>
    var keys: seq<K>

    ghost predicate Valid()
      reads this
    {
      Consistent(indices, keys)
    }

    /** `new`: a mapper with no keys. */
    constructor ()
      ensures Valid() && keys == [] && indices == map[]
    {
      indices := map[];
      keys := [];
    }

    /** `new_with_keys`: pushes the keys in order; the source panics on a
        repeated key, so distinctness is demanded of the caller. */
    constructor NewWithKeys(ks: seq<K>)
      requires Distinct(ks)
      ensures Valid() && keys == ks
      ensures forall i | 0 <= i < |ks| :: ks[i] in indices && indices[ks[i]] == i
    {
      indices := map[];
      keys := [];
      new;
      var n := 0;
      while n < |ks|
        invariant n <= |ks|
        invariant Valid() && keys == ks[..n]
      {
        PushKey(ks[n]);
        n := n + 1;
      }
      assert ks[..n] == ks;
    }

    /** `len`: the number of keys, which is also the size of the map. */
    function Len(): (n: nat)
      reads this
      requires Valid()
      ensures n == |keys| && n == |indices|
    {
      ConsistentSizes(indices, keys);
      |keys|
    }

    /** `contains_key`. */
    function ContainsKey(key: K): (b: bool)
      reads this
      requires Valid()
      ensures b <==> key in keys
    {
      key in indices
    }

    /** `get`: the index of `key`, or `None` when it is absent. */
    function Get(key: K): (r: Option<nat>)
      reads this
      requires Valid()
      ensures r.Some? <==> key in keys
      ensures r.Some? ==> r.value < |keys| && keys[r.value] == key
    {
      if key in indices then Some(indices[key]) else None
    }

    /** `idx`: panics on a missing key. */
    function Idx(key: K): (i: nat)
      reads this
      requires Valid() && key in indices
      ensures i < |keys| && keys[i] == key
    {
      indices[key]
    }

    /** `key_at_idx`: panics on an index out of bounds. */
    function KeyAtIdx(i: nat): (key: K)
      reads this
      requires Valid() && i < |keys|
      ensures key in indices && indices[key] == i
    {
      keys[i]
    }

    /** `try_push_key`: a fresh key is mapped to the old length and appended;
        an existing key yields `Err` with its index and changes nothing. */
    method TryPushKey(key: K) returns (r: Result<(), nat>)
      requires Valid()
      modifies this
      ensures Valid()
      ensures r.Ok? <==> key !in old(indices)
      ensures r.Ok? ==> keys == old(keys) + [key] && indices == old(indices)[key := old(|keys|)]
      ensures r.Err? ==> keys == old(keys) && indices == old(indices) && r.error == indices[key]
    {
      if key in indices {
        r := Err(indices[key]);
      } else {
        indices := indices[key := |keys|];
        keys := keys + [key];
        r := Ok(());
      }
    }

    /** `push_key`: panics when the key already exists. */
    method PushKey(key: K)
      requires Valid() && key !in indices
      modifies this
      ensures Valid()
      ensures keys == old(keys) + [key] && indices == old(indices)[key := old(|keys|)]
    {
      var r := TryPushKey(key);
    }

    /** `push_keys`: pushes the keys in order; panics on a key that is
        already present, also one pushed earlier by the same call. */
    method PushKeys(ks: seq<K>)
      requires Valid() && Distinct(ks) && forall i | 0 <= i < |ks| :: ks[i] !in indices
      modifies this
      ensures Valid() && keys == old(keys) + ks
      ensures forall i | 0 <= i < |ks| :: ks[i] in indices && indices[ks[i]] == old(|keys|) + i
    {
      for i := 0 to |ks|
        invariant Valid() && keys == old(keys) + ks[..i]
        invariant forall j | i <= j < |ks| :: ks[j] !in indices
      {
        PushKey(ks[i]);
        assert ks[..i + 1] == ks[..i] + [ks[i]];
      }
      assert ks[..|ks|] == ks;
      forall i | 0 <= i < |ks|
        ensures ks[i] in indices && indices[ks[i]] == old(|keys|) + i
      {
        assert keys[old(|keys|) + i] == ks[i];
      }
    }

    /** `try_swap_remove_key`: removes `key`, moves the last key into its
        slot and returns the freed index; an absent key is an error. */
    method TrySwapRemoveKey(key: K) returns (r: Result<nat, string>)
      requires Valid()
      modifies this
      ensures Valid()
      ensures r.Err? <==> key !in old(indices)
      ensures r.Err? ==> keys == old(keys) && indices == old(indices)
      ensures r.Ok? ==> r.value == old(indices)[key] && keys == SwapRemove(old(keys), r.value)
      ensures r.Ok? ==> indices.Keys == old(indices).Keys - {key}
    {
      if key !in indices {
        return Err("Tried to remove key that does not exist");
      }
      var idx := indices[key];
      SwapRemoveKeyAtIdx(idx);
      r := Ok(idx);
    }

    /** `swap_remove_key`: panics when the key does not exist. */
    method SwapRemoveKey(key: K) returns (idx: nat)
      requires Valid() && key in indices
      modifies this
      ensures Valid()
      ensures idx == old(indices)[key] && keys == SwapRemove(old(keys), idx)
      ensures indices.Keys == old(indices).Keys - {key}
    {
      idx := indices[key];
      SwapRemoveKeyAtIdx(idx);
    }

    /** `swap_remove_key_at_idx`: panics on an empty mapper or an index out
        of bounds. The removed key leaves the map; the last key, if it was
        another one, is re-pointed at `idx`; every other key keeps its
        index. */
    method SwapRemoveKeyAtIdx(idx: nat)
      requires Valid() && idx < |keys|
      modifies this
      ensures Valid()
      ensures keys == SwapRemove(old(keys), idx)
      ensures indices.Keys == old(indices).Keys - {old(keys)[idx]}
      ensures forall k | k in indices && k != old(keys)[|old(keys)| - 1] :: indices[k] == old(indices)[k]
      ensures old(keys)[|old(keys)| - 1] in indices ==> indices[old(keys)[|old(keys)| - 1]] == idx
    {
      SwapRemoveConsistent(indices, keys, idx);
      var last := |keys| - 1;
      var lastKey := keys[last];
      var removedKey := keys[idx];
      keys := SwapRemove(keys, idx);
      indices := indices - {removedKey};
      if removedKey != lastKey {
        indices := indices[lastKey := idx];
      }
    }

    /** `clear`: empties both the map and the vector. */
    method Clear()
      requires Valid()
      modifies this
      ensures Valid() && keys == [] && indices == map[]
    {
      indices := map[];
      keys := [];
    }
  }
}
