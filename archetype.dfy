/** Model of the ECS archetypes: an archetype is the set of component types
    an entity has; `ArchetypeComponents` holds one array of instances per
    component type; `ArchetypeTable` stores the components of every entity
    of one archetype column by column. */
module Archetypes {
  import opened Wrappers
  import opened Sequences
  import KeyIndexMapping

  /** `ComponentID`: a 64-bit hash of the component type. */
  type ComponentID = nat

  type EntityID = nat

  /** The bytes of one component instance. */
  type ComponentBytes = seq<bv8>

  /** Why an archetype operation failed. */
  datatype ArchetypeError =
    | DuplicateComponentID
    | InconsistentComponentCount
    | ComponentTypeExists
    | MissingComponentType
    | MissingEntity

  // ---------------------------------------------------------------------
  // Sorted component IDs
  // ---------------------------------------------------------------------

  predicate Sorted(s: seq<ComponentID>)
  {
    forall i, j | 0 <= i < j < |s| :: s[i] <= s[j]
  }

  /** `x` inserted into the sorted `s` before its first larger element. */
  function Insert(x: ComponentID, s: seq<ComponentID>): (r: seq<ComponentID>)
    requires Sorted(s)
    ensures Sorted(r) && multiset(r) == multiset(s) + multiset{x} && |r| == |s| + 1
  {
    if s == [] || x <= s[0] then [x] + s
    else
      var rest := Insert(x, s[1..]);
      InsertBehindHead(x, s, rest);
      [s[0]] + rest
  }

  lemma InsertBehindHead(x: ComponentID, s: seq<ComponentID>, rest: seq<ComponentID>)
    requires Sorted(s) && s != [] && s[0] < x
    requires Sorted(rest) && multiset(rest) == multiset(s[1..]) + multiset{x}
    ensures Sorted([s[0]] + rest) && multiset([s[0]] + rest) == multiset(s) + multiset{x}
  {
    assert s == [s[0]] + s[1..];
    forall k | 0 <= k < |rest|
      ensures s[0] <= rest[k]
    {
      assert rest[k] in multiset(rest);
      if rest[k] != x {
        assert rest[k] in multiset(s[1..]);
        var m :| 0 <= m < |s[1..]| && s[1..][m] == rest[k];
        assert s[m + 1] == rest[k];
      }
    }
  }

  /** The component IDs in ascending order, as `sort` leaves them. */
  function SortIds(s: seq<ComponentID>): (r: seq<ComponentID>)
    ensures Sorted(r) && multiset(r) == multiset(s)
  {
    if s == [] then []
    else
      assert s == s[..|s| - 1] + [s[|s| - 1]];
      Insert(s[|s| - 1], SortIds(s[..|s| - 1]))
  }

  lemma TailMultiset(s: seq<ComponentID>)
    requires s != []
    ensures multiset(s[1..]) == multiset(s) - multiset{s[0]}
  {
    assert s == [s[0]] + s[1..];
  }

  /** The head of a sorted sequence is its least element. */
  lemma HeadIsLeast(s: seq<ComponentID>, x: ComponentID)
    requires Sorted(s) && x in multiset(s)
    ensures s != [] && s[0] <= x
  {
    var i :| 0 <= i < |s| && s[i] == x;
  }

  /** Two sorted sequences with the same elements are equal: there is only
      one sorted order of a multiset. */
  lemma {:induction false} SortedUnique(a: seq<ComponentID>, b: seq<ComponentID>)
    requires Sorted(a) && Sorted(b) && multiset(a) == multiset(b)
    ensures a == b
    decreases |a|
  {
    if a != [] {
      assert a[0] in multiset(a);
      HeadIsLeast(b, a[0]);
      HeadIsLeast(a, b[0]);
      TailMultiset(a);
      TailMultiset(b);
      SortedTail(a);
      SortedTail(b);
      SortedUnique(a[1..], b[1..]);
      SameHeadAndTail(a, b);
    } else {
      assert |b| == |multiset(b)| == 0;
    }
  }

  lemma SortedTail(s: seq<ComponentID>)
    requires Sorted(s) && s != []
    ensures Sorted(s[1..])
  {
  }

  lemma SameHeadAndTail(a: seq<ComponentID>, b: seq<ComponentID>)
    requires a != [] && b != [] && a[0] == b[0] && a[1..] == b[1..]
    ensures a == b
  {
    assert a == [a[0]] + a[1..] && b == [b[0]] + b[1..];
  }

  /** Sorting does not depend on the order of its input. */
  lemma SortIgnoresOrder(a: seq<ComponentID>, b: seq<ComponentID>)
    requires multiset(a) == multiset(b)
    ensures SortIds(a) == SortIds(b)
  {
    SortedUnique(SortIds(a), SortIds(b));
  }

  // ---------------------------------------------------------------------
  // Archetype
  // ---------------------------------------------------------------------

  /** `Archetype`: the ID derived from the sorted component IDs, and the set
      of those IDs. The ID is kept as the sorted sequence it is hashed
      from. */
  datatype Archetype = Archetype(id: seq<ComponentID>, componentIds: set<ComponentID>)

  /** `new_from_sorted_component_ids_unchecked` after sorting, as
      `find_archetype` does it. */
  function ArchetypeOfIds(ids: seq<ComponentID>): (a: Archetype)
    ensures Sorted(a.id) && multiset(a.id) == multiset(ids) && a.componentIds == Elements(ids)
  {
    Archetype(SortIds(ids), Elements(ids))
  }

  /** The duplicate check of `new_from_sorted_component_ids`: some ID occurs
      again after its own position. */
  function DuplicatesExist(ids: seq<ComponentID>): (r: bool)
  {
    exists idx | 1 <= idx < |ids| :: ids[idx - 1] in ids[idx..]
  }

  /** The check finds a duplicate exactly when one exists. */
  lemma DuplicatesExistIffNotDistinct(ids: seq<ComponentID>)
    ensures DuplicatesExist(ids) <==> !Distinct(ids)
  {
    if !Distinct(ids) {
      var i, j :| 0 <= i < j < |ids| && ids[i] == ids[j];
      assert ids[i + 1..][j - i - 1] == ids[j];
      assert ids[i] in ids[i + 1..];
    }
    if DuplicatesExist(ids) {
      var idx :| 1 <= idx < |ids| && ids[idx - 1] in ids[idx..];
      var k :| 0 <= k < |ids[idx..]| && ids[idx..][k] == ids[idx - 1];
      assert ids[idx - 1] == ids[idx + k];
    }
  }

  /** `new_from_component_id_arr` / `new_from_component_ids`: the IDs are
      sorted and checked for duplicates. */
  function NewArchetype(ids: seq<ComponentID>): (r: Result<Archetype, ArchetypeError>)
    ensures r.Err? <==> !Distinct(ids)
    ensures r.Err? ==> r.error == DuplicateComponentID
    ensures r.Ok? ==> r.value.componentIds == Elements(ids) && |r.value.componentIds| == |ids|
    ensures r.Ok? ==> Sorted(r.value.id) && multiset(r.value.id) == multiset(ids)
    ensures r.Ok? ==> r.value == ArchetypeOfIds(ids)
  {
    var sorted := SortIds(ids);
    DuplicatesExistIffNotDistinct(sorted);
    DistinctUnderPermutation(ids, sorted);
    if |sorted| > 0 && DuplicatesExist(sorted) then Err(DuplicateComponentID)
    else
      DistinctCardinality(ids);
      Ok(Archetype(sorted, Elements(sorted)))
  }

  /** Duplicate-freedom is a property of the multiset of elements. */
  lemma DistinctUnderPermutation(a: seq<ComponentID>, b: seq<ComponentID>)
    requires multiset(a) == multiset(b)
    ensures Distinct(a) <==> Distinct(b)
    ensures Elements(a) == Elements(b)
  {
    forall x ensures x in a <==> x in b {
      assert x in a <==> x in multiset(a);
      assert x in b <==> x in multiset(b);
    }
    DistinctIffCounts(a);
    DistinctIffCounts(b);
  }

  /** A sequence is duplicate-free exactly when every element occurs once. */
  lemma {:induction false} DistinctIffCounts(s: seq<ComponentID>)
    ensures Distinct(s) <==> forall x | x in multiset(s) :: multiset(s)[x] == 1
    decreases |s|
  {
    if s != [] {
      var init := s[..|s| - 1];
      var last := s[|s| - 1];
      assert s == init + [last];
      DistinctIffCounts(init);
      if Distinct(s) {
        assert Distinct(init);
        assert last !in init;
      } else {
        var i, j :| 0 <= i < j < |s| && s[i] == s[j];
        if j < |s| - 1 {
          assert init[i] == init[j];
          assert !Distinct(init);
          var x :| x in multiset(init) && multiset(init)[x] != 1;
          assert multiset(s)[x] >= multiset(init)[x] >= 2;
        } else {
          assert init[i] == last && last in multiset(init);
          assert multiset(s)[last] >= 2;
        }
      }
    }
  }

  /** Building an archetype does not depend on the order of the IDs. */
  lemma NewArchetypeIgnoresOrder(a: seq<ComponentID>, b: seq<ComponentID>)
    requires multiset(a) == multiset(b)
    ensures NewArchetype(a) == NewArchetype(b)
  {
    SortIgnoresOrder(a, b);
  }

  /** `n_components`. */
  function NComponents(a: Archetype): nat
  {
    |a.componentIds|
  }

  /** `contains_component_id`. */
  predicate ContainsComponentId(a: Archetype, id: ComponentID)
  {
    id in a.componentIds
  }

  /** `contains`: `a` includes every component type of `b`. */
  predicate Contains(a: Archetype, b: Archetype)
  {
    b.componentIds <= a.componentIds
  }

  /** Containment is a preorder, the empty archetype is contained in every
      archetype, and it is exactly inclusion of every component type. */
  lemma ContainsProperties(a: Archetype, b: Archetype, c: Archetype)
    ensures Contains(a, a)
    ensures Contains(a, b) && Contains(b, c) ==> Contains(a, c)
    ensures Contains(a, ArchetypeOfIds([]))
    ensures Contains(a, b) <==> forall id | ContainsComponentId(b, id) :: ContainsComponentId(a, id)
  {
    if forall id | ContainsComponentId(b, id) :: ContainsComponentId(a, id) {
      forall id | id in b.componentIds
        ensures id in a.componentIds
      {
        assert ContainsComponentId(b, id);
      }
    }
  }

  /** `contains_none_of`: no ID of `ids` is a component type of `a`, which
      holds for an empty `ids`. */
  function ContainsNoneOf(a: Archetype, ids: seq<ComponentID>): (r: bool)
    ensures ids == [] ==> r
  {
    !(exists idx | 0 <= idx < |ids| :: ContainsComponentId(a, ids[idx]))
  }

  /** `contains_none_of` holds exactly when the IDs and the archetype's
      component types are disjoint. */
  lemma ContainsNoneOfIsDisjoint(a: Archetype, ids: seq<ComponentID>)
    ensures ContainsNoneOf(a, ids) <==> Elements(ids) !! a.componentIds
  {
    if !(Elements(ids) !! a.componentIds) {
      var x :| x in Elements(ids) && x in a.componentIds;
      var idx :| 0 <= idx < |ids| && ids[idx] == x;
      assert ContainsComponentId(a, ids[idx]);
    }
  }

  // ---------------------------------------------------------------------
  // Component arrays
  // ---------------------------------------------------------------------

  /** A component array: the component type and its instances, one per
      entity. */
  datatype ComponentArray = ComponentArray(componentId: ComponentID, instances: seq<ComponentBytes>)

  /** The component IDs of the arrays, in order. */
  function IdsOf(arrays: seq<ComponentArray>): (r: seq<ComponentID>)
    ensures |r| == |arrays| && forall i | 0 <= i < |arrays| :: r[i] == arrays[i].componentId
  {
    seq(|arrays|, i requires 0 <= i < |arrays| => arrays[i].componentId)
  }

  /** The position of `id` among the IDs. */
  function PositionOf(ids: seq<ComponentID>, id: ComponentID): (p: nat)
    requires id in ids
    ensures p < |ids| && ids[p] == id && id !in ids[..p]
  {
    if ids[0] == id then 0
    else
      assert id in ids[1..];
      var p := PositionOf(ids[1..], id);
      assert ids[..p + 1] == [ids[0]] + ids[1..][..p];
      p + 1
  }

  /** In a duplicate-free sequence the position of an element is the only
      index holding it. */
  lemma PositionOfDistinct(ids: seq<ComponentID>, i: nat)
    requires Distinct(ids) && i < |ids|
    ensures PositionOf(ids, ids[i]) == i
  {
  }

  /** The instances of the array of type `id`. */
  function ColumnOf(arrays: seq<ComponentArray>, id: ComponentID): (c: seq<ComponentBytes>)
    requires id in IdsOf(arrays)
  {
    arrays[PositionOf(IdsOf(arrays), id)].instances
  }

  /** The instance count of the first array, or 0 without arrays. */
  function FirstCount(arrays: seq<ComponentArray>): nat
  {
    if arrays == [] then 0 else |arrays[0].instances|
  }

  /** The count check of `try_from_*_of_component_arrays`: some array after
      the first has another number of instances. */
  function CountsDiffer(arrays: seq<ComponentArray>): bool
  {
    exists i | 1 <= i < |arrays| :: |arrays[i].instances| != FirstCount(arrays)
  }

  /** The check fails exactly when two arrays disagree on their count;
      otherwise every array has the first array's count. */
  lemma CountsDifferIffUnequal(arrays: seq<ComponentArray>)
    ensures CountsDiffer(arrays) <==>
      exists i, j | 0 <= i < j < |arrays| :: |arrays[i].instances| != |arrays[j].instances|
    ensures !CountsDiffer(arrays) ==> forall i | 0 <= i < |arrays| :: |arrays[i].instances| == FirstCount(arrays)
  {
    if exists i, j | 0 <= i < j < |arrays| :: |arrays[i].instances| != |arrays[j].instances| {
      var i, j :| 0 <= i < j < |arrays| && |arrays[i].instances| != |arrays[j].instances|;
      if |arrays[j].instances| == FirstCount(arrays) {
        assert |arrays[i].instances| != FirstCount(arrays) && i >= 1;
      }
    }
  }

  /** The index map a consistent mapper holds for duplicate-free keys. */
  function IndexMapOf(ids: seq<ComponentID>): (m: map<ComponentID, nat>)
    requires Distinct(ids)
    ensures KeyIndexMapping.Consistent(m, ids)
  {
    map i | 0 <= i < |ids| :: ids[i] := i
  }

  lemma ConsistentMembership<K>(m: map<K, nat>, ks: seq<K>, k: K)
    requires KeyIndexMapping.Consistent(m, ks)
    ensures k in m <==> k in ks
  {
    if k in ks {
      var i :| 0 <= i < |ks| && ks[i] == k;
    }
  }

  lemma ConsistentPush<K>(m: map<K, nat>, ks: seq<K>, k: K)
    requires KeyIndexMapping.Consistent(m, ks) && k !in m
    ensures KeyIndexMapping.Consistent(m[k := |ks|], ks + [k])
  {
    ConsistentMembership(m, ks, k);
  }

  lemma ConsistentDistinct(m: map<ComponentID, nat>, ks: seq<ComponentID>)
    requires KeyIndexMapping.Consistent(m, ks)
    ensures Distinct(ks)
  {
    KeyIndexMapping.ConsistentSizes(m, ks);
  }

  lemma IdsOfAppend(arrays: seq<ComponentArray>, a: ComponentArray)
    ensures IdsOf(arrays + [a]) == IdsOf(arrays) + [a.componentId]
  {
  }

  lemma IdsOfReplace(arrays: seq<ComponentArray>, i: nat, a: ComponentArray)
    requires i < |arrays| && a.componentId == arrays[i].componentId
    ensures IdsOf(arrays[i := a]) == IdsOf(arrays)
  {
  }

  lemma IdsOfSwapRemove(arrays: seq<ComponentArray>, i: nat)
    requires i < |arrays|
    ensures IdsOf(SwapRemove(arrays, i)) == SwapRemove(IdsOf(arrays), i)
  {
  }

  /** Every array holds `count` instances, when there are arrays at all. */
  ghost predicate CountsMatch(arrays: seq<ComponentArray>, count: nat)
  {
    arrays != [] ==> forall i | 0 <= i < |arrays| :: |arrays[i].instances| == count
  }

  // ---------------------------------------------------------------------
  // Including component arrays
  // ---------------------------------------------------------------------

  /** The arrays and the common count of an `ArchetypeComponents`. */
  datatype Contents = Contents(arrays: seq<ComponentArray>, count: nat)

  /** What including one array does (`add_or_overwrite_component_type_without_updating_archetype`):
      a count that differs from non-empty contents is an error and changes
      nothing; an array of a present type replaces it in place; an array
      of a new type is appended and sets the count. The flags say whether
      the inclusion failed and whether it added a type. */
  function IncludeOne(c: Contents, a: ComponentArray): (r: (Contents, bool, bool))
    requires Distinct(IdsOf(c.arrays))
    ensures Distinct(IdsOf(r.0.arrays))
    ensures r.1 <==> c.arrays != [] && |a.instances| != c.count
    ensures r.1 ==> r.0 == c && !r.2
    ensures !r.1 ==> (r.2 <==> a.componentId !in IdsOf(c.arrays))
    ensures !r.1 && r.2 ==> r.0 == Contents(c.arrays + [a], |a.instances|)
    ensures !r.1 && !r.2 ==>
      (r.0.count == c.count && IdsOf(r.0.arrays) == IdsOf(c.arrays) &&
       r.0.arrays == c.arrays[PositionOf(IdsOf(c.arrays), a.componentId) := a])
  {
    var ids := IdsOf(c.arrays);
    if c.arrays != [] && |a.instances| != c.count then (c, true, false)
    else if a.componentId in ids then
      var p := PositionOf(ids, a.componentId);
      IdsOfReplace(c.arrays, p, a);
      (Contents(c.arrays[p := a], c.count), false, false)
    else
      IdsOfAppend(c.arrays, a);
      assert Distinct(ids + [a.componentId]);
      (Contents(c.arrays + [a], |a.instances|), false, true)
  }

  /** `add_or_overwrite_component_types` on values: every array is included
      in order, a failed inclusion does not stop the others. */
  function IncludeAll(c: Contents, arrays: seq<ComponentArray>): (r: (Contents, bool, bool))
    requires Distinct(IdsOf(c.arrays))
    ensures Distinct(IdsOf(r.0.arrays))
    decreases |arrays|
  {
    if arrays == [] then (c, false, false)
    else
      var prev := IncludeAll(c, arrays[..|arrays| - 1]);
      var step := IncludeOne(prev.0, arrays[|arrays| - 1]);
      (step.0, prev.1 || step.1, prev.2 || step.2)
  }

  /** One inclusion keeps every present type at its position, adds at most
      the included type, keeps the counts consistent and, when it does not
      fail, leaves the included type present. */
  lemma IncludeOneProperties(c: Contents, a: ComponentArray)
    requires Distinct(IdsOf(c.arrays)) && CountsMatch(c.arrays, c.count)
    ensures var r := IncludeOne(c, a);
      IdsOf(c.arrays) <= IdsOf(r.0.arrays) &&
      Elements(IdsOf(r.0.arrays)) <= Elements(IdsOf(c.arrays)) + {a.componentId} &&
      CountsMatch(r.0.arrays, r.0.count) &&
      (!r.1 ==> a.componentId in IdsOf(r.0.arrays))
  {
    var r := IncludeOne(c, a);
    if !r.1 && r.2 {
      IdsOfAppend(c.arrays, a);
      assert r.0.arrays[|c.arrays|] == a;
    } else if !r.1 {
      var p := PositionOf(IdsOf(c.arrays), a.componentId);
      assert r.0.arrays[p] == a;
      forall i | 0 <= i < |r.0.arrays|
        ensures |r.0.arrays[i].instances| == r.0.count
      {
        if i != p {
          assert r.0.arrays[i] == c.arrays[i];
        }
      }
    }
  }

  lemma ElementsOfPrefix<K>(s: seq<K>, t: seq<K>)
    requires s <= t
    ensures Elements(s) <= Elements(t)
  {
    forall x | x in s
      ensures x in t
    {
      var i :| 0 <= i < |s| && s[i] == x;
      assert t[i] == x;
    }
  }

  /** Including arrays keeps every present type at its position, adds only
      types of the included arrays, keeps the type list unchanged when no
      type was added, keeps the counts consistent, and without errors
      leaves every included type present. */
  lemma {:induction false} IncludeAllProperties(c: Contents, arrays: seq<ComponentArray>)
    requires Distinct(IdsOf(c.arrays)) && CountsMatch(c.arrays, c.count)
    ensures var r := IncludeAll(c, arrays);
      IdsOf(c.arrays) <= IdsOf(r.0.arrays) &&
      Elements(IdsOf(r.0.arrays)) <= Elements(IdsOf(c.arrays)) + Elements(IdsOf(arrays)) &&
      (!r.2 ==> IdsOf(r.0.arrays) == IdsOf(c.arrays)) &&
      CountsMatch(r.0.arrays, r.0.count) &&
      (!r.1 ==> Elements(IdsOf(arrays)) <= Elements(IdsOf(r.0.arrays)))
    decreases |arrays|
  {
    if arrays != [] {
      var init := arrays[..|arrays| - 1];
      var a := arrays[|arrays| - 1];
      IncludeAllProperties(c, init);
      var prev := IncludeAll(c, init);
      IncludeOneProperties(prev.0, a);
      var step := IncludeOne(prev.0, a);
      assert IdsOf(arrays) == IdsOf(init) + [a.componentId];
      assert Elements(IdsOf(arrays)) == Elements(IdsOf(init)) + {a.componentId};
      ElementsOfPrefix(IdsOf(prev.0.arrays), IdsOf(step.0.arrays));
    }
  }

  // ---------------------------------------------------------------------
  // The invariant of the index map, the arrays and the count
  // ---------------------------------------------------------------------

  /** The index map finds every array at its position, no type appears
      twice and every array holds the common count. */
  ghost predicate ArraysValid(m: map<ComponentID, nat>, arrays: seq<ComponentArray>, count: nat)
  {
    KeyIndexMapping.Consistent(m, IdsOf(arrays)) && Distinct(IdsOf(arrays)) && CountsMatch(arrays, count)
  }

  /** Appending an array of a new type with a fitting count keeps the
      invariant and adds the type. */
  lemma PushKeepsArraysValid(m: map<ComponentID, nat>, arrays: seq<ComponentArray>, count: nat, a: ComponentArray)
    requires ArraysValid(m, arrays, count) && a.componentId !in m
    requires arrays == [] || |a.instances| == count
    ensures ArraysValid(m[a.componentId := |arrays|], arrays + [a], |a.instances|)
    ensures Elements(IdsOf(arrays + [a])) == Elements(IdsOf(arrays)) + {a.componentId}
  {
    ConsistentMembership(m, IdsOf(arrays), a.componentId);
    ConsistentPush(m, IdsOf(arrays), a.componentId);
    IdsOfAppend(arrays, a);
    assert Distinct(IdsOf(arrays) + [a.componentId]);
    assert Elements(IdsOf(arrays) + [a.componentId]) == Elements(IdsOf(arrays)) + {a.componentId};
  }

  /** Replacing the array of a present type by one with a fitting count
      keeps the invariant and the type list. */
  lemma ReplaceKeepsArraysValid(m: map<ComponentID, nat>, arrays: seq<ComponentArray>, count: nat, a: ComponentArray)
    requires ArraysValid(m, arrays, count) && a.componentId in m
    requires arrays == [] || |a.instances| == count
    ensures m[a.componentId] < |arrays| && m[a.componentId] == PositionOf(IdsOf(arrays), a.componentId)
    ensures ArraysValid(m, arrays[m[a.componentId] := a], count)
    ensures IdsOf(arrays[m[a.componentId] := a]) == IdsOf(arrays)
  {
    var p := m[a.componentId];
    PositionOfDistinct(IdsOf(arrays), p);
    IdsOfReplace(arrays, p, a);
    var arrays' := arrays[p := a];
    forall i | 0 <= i < |arrays'|
      ensures |arrays'[i].instances| == count
    {
      if i != p {
        assert arrays'[i] == arrays[i];
      }
    }
  }

  /** `try_swap_remove_key` on the index map together with `swap_remove` on
      the arrays: the array of a present type is swap-removed, the index
      map follows the moved last array, and the invariant and count are
      kept. */
  function SwapRemoveType(m: map<ComponentID, nat>, arrays: seq<ComponentArray>, count: nat, id: ComponentID):
    (r: (map<ComponentID, nat>, seq<ComponentArray>))
    requires ArraysValid(m, arrays, count) && id in m
    ensures m[id] < |arrays| && r.1 == SwapRemove(arrays, m[id])
    ensures ArraysValid(r.0, r.1, count)
    ensures Elements(IdsOf(r.1)) == Elements(IdsOf(arrays)) - {id}
  {
    var idx := m[id];
    KeyIndexMapping.SwapRemoveConsistent(m, IdsOf(arrays), idx);
    SwapRemoveDistinct(IdsOf(arrays), idx);
    IdsOfSwapRemove(arrays, idx);
    var last := IdsOf(arrays)[|arrays| - 1];
    var removed := m - {id};
    (if id != last then removed[last := idx] else removed, SwapRemove(arrays, idx))
  }

  /** The loop of `remove_component_types_with_ids`: the types are removed
      in order until one is missing, which stops the loop with an error
      (the third component). */
  function RemoveTypes(m: map<ComponentID, nat>, arrays: seq<ComponentArray>, count: nat, ids: seq<ComponentID>):
    (r: (map<ComponentID, nat>, seq<ComponentArray>, bool))
    requires ArraysValid(m, arrays, count)
    ensures ArraysValid(r.0, r.1, count)
    decreases |ids|
  {
    if ids == [] then (m, arrays, false)
    else if ids[0] !in m then (m, arrays, true)
    else
      var next := SwapRemoveType(m, arrays, count, ids[0]);
      RemoveTypes(next.0, next.1, count, ids[1..])
  }

  /** Removing a list of types succeeds exactly when every type is present
      and none is listed twice, and then exactly those types are gone. */
  lemma {:induction false} RemoveTypesSucceeds(m: map<ComponentID, nat>, arrays: seq<ComponentArray>, count: nat,
                                               ids: seq<ComponentID>)
    requires ArraysValid(m, arrays, count)
    ensures var r := RemoveTypes(m, arrays, count, ids);
      (!r.2 <==> Elements(ids) <= Elements(IdsOf(arrays)) && Distinct(ids)) &&
      (!r.2 ==> Elements(IdsOf(r.1)) == Elements(IdsOf(arrays)) - Elements(ids))
    decreases |ids|
  {
    ConsistentMembership(m, IdsOf(arrays), if ids == [] then 0 else ids[0]);
    if ids != [] {
      assert Elements(ids) == {ids[0]} + Elements(ids[1..]);
      DistinctCons(ids);
      if ids[0] in m {
        var next := SwapRemoveType(m, arrays, count, ids[0]);
        RemoveTypesSucceeds(next.0, next.1, count, ids[1..]);
      }
    }
  }

  lemma DistinctCons(ids: seq<ComponentID>)
    requires ids != []
    ensures Distinct(ids) <==> ids[0] !in ids[1..] && Distinct(ids[1..])
  {
    if ids[0] !in ids[1..] && Distinct(ids[1..]) {
      forall i, j | 0 <= i < j < |ids|
        ensures ids[i] != ids[j]
      {
        assert ids[j] == ids[1..][j - 1];
        if i > 0 {
          assert ids[i] == ids[1..][i - 1];
        }
      }
    }
    if Distinct(ids) {
      forall k | 0 <= k < |ids[1..]|
        ensures ids[1..][k] != ids[0]
      {
        assert ids[1..][k] == ids[k + 1];
      }
    }
  }

  /** `remove_component_types_with_ids` as written, on values: the
      archetype is recomputed only after the loop, so an early error return
      keeps the archetype of the arrays before the removals. Its components
      are the archetype, the index map, the arrays and whether the removal
      failed. */
  function RemoveComponentTypesAsWritten(archetype: Archetype, m: map<ComponentID, nat>, arrays: seq<ComponentArray>,
                                         count: nat, ids: seq<ComponentID>):
    (r: (Archetype, map<ComponentID, nat>, seq<ComponentArray>, bool))
    requires ArraysValid(m, arrays, count)
    ensures var removal := RemoveTypes(m, arrays, count, ids);
      r.1 == removal.0 && r.2 == removal.1 && r.3 == removal.2
    ensures !r.3 ==> r.0 == ArchetypeOfIds(IdsOf(r.2))
    ensures r.3 ==> r.0 == archetype
  {
    var removal := RemoveTypes(m, arrays, count, ids);
    (if removal.2 then archetype else ArchetypeOfIds(IdsOf(removal.1)), removal.0, removal.1, removal.2)
  }

  /** Removing a present type and then a missing one fails after the first
      removal, and leaves an archetype that still lists the removed type,
      which the arrays no longer hold. */
  lemma StaleArchetypeAfterFailedRemoval(m: map<ComponentID, nat>, arrays: seq<ComponentArray>, count: nat,
                                         present: ComponentID, missing: ComponentID)
    requires ArraysValid(m, arrays, count) && present in m && missing !in m
    ensures var r := RemoveComponentTypesAsWritten(ArchetypeOfIds(IdsOf(arrays)), m, arrays, count, [present, missing]);
      r.3 && ContainsComponentId(r.0, present) && !ContainsComponentId(ArchetypeOfIds(IdsOf(r.2)), present)
  {
    var next := SwapRemoveType(m, arrays, count, present);
    ConsistentMembership(m, IdsOf(arrays), missing);
    ConsistentMembership(m, IdsOf(arrays), present);
    ConsistentMembership(next.0, IdsOf(next.1), missing);
    assert [present, missing][1..] == [missing];
    assert RemoveTypes(m, arrays, count, [present, missing]) == (next.0, next.1, true);
  }

  /** The archetype of a type list is determined by its set of types. */
  lemma ArchetypeOfIdsComponents(ids: seq<ComponentID>)
    ensures ArchetypeOfIds(ids).componentIds == Elements(ids)
  {
  }

  // ---------------------------------------------------------------------
  // ArchetypeComponents
  // ---------------------------------------------------------------------

  /** `ArchetypeComponents`: the archetype of the contained types, the map
      from component ID to array position, the arrays and their common
      instance count. */
  class ArchetypeComponents {
    var archetype: Archetype
    var componentIndexMap: map<ComponentID, nat>
    var componentArrays: seq<ComponentArray>
    var componentCount: nat

    ghost predicate Valid()
      reads this
    {
      ArraysValid(componentIndexMap, componentArrays, componentCount) &&
      archetype == ArchetypeOfIds(IdsOf(componentArrays))
    }

    /** `new`: the index map is built from the arrays' IDs. */
    constructor Init(archetype: Archetype, arrays: seq<ComponentArray>, count: nat)
      requires Distinct(IdsOf(arrays)) && archetype == ArchetypeOfIds(IdsOf(arrays)) && CountsMatch(arrays, count)
      ensures Valid() && this.archetype == archetype && componentArrays == arrays && componentCount == count
    {
      this.archetype := archetype;
      componentIndexMap := IndexMapOf(IdsOf(arrays));
      componentArrays := arrays;
      componentCount := count;
    }

    /** `empty`. */
    constructor Empty()
      ensures Valid() && componentArrays == [] && componentCount == 0 && archetype.componentIds == {}
    {
      archetype := ArchetypeOfIds([]);
      componentIndexMap := map[];
      componentArrays := [];
      componentCount := 0;
    }

    /** `try_from_array_of_component_arrays` and
        `try_from_vec_of_component_arrays`: the counts are checked first,
        then the sorted IDs for duplicates. */
    static method TryFromComponentArrays(arrays: seq<ComponentArray>) returns (r: Result<ArchetypeComponents, ArchetypeError>)
      ensures r.Err? <==> CountsDiffer(arrays) || !Distinct(IdsOf(arrays))
      ensures r.Err? ==> r.error == if CountsDiffer(arrays) then InconsistentComponentCount else DuplicateComponentID
      ensures r.Ok? ==> fresh(r.value) && r.value.Valid() && r.value.componentArrays == arrays
      ensures r.Ok? ==> r.value.componentCount == FirstCount(arrays) && r.value.archetype == ArchetypeOfIds(IdsOf(arrays))
    {
      if CountsDiffer(arrays) {
        return Err(InconsistentComponentCount);
      }
      CountsDifferIffUnequal(arrays);
      var archetype := NewArchetype(IdsOf(arrays));
      if archetype.Err? {
        return Err(archetype.error);
      }
      var components := new ArchetypeComponents.Init(archetype.value, arrays, FirstCount(arrays));
      r := Ok(components);
    }

    /** `has_component_type`. */
    function HasComponentType(id: ComponentID): (b: bool)
      reads this
      requires Valid()
      ensures b <==> ContainsComponentId(archetype, id)
    {
      ConsistentMembership(componentIndexMap, IdsOf(componentArrays), id);
      id in componentIndexMap
    }

    /** `components_of_type`: panics for a type that is not contained. */
    function ComponentsOfType(id: ComponentID): (instances: seq<ComponentBytes>)
      reads this
      requires Valid() && ContainsComponentId(archetype, id)
      ensures exists i | 0 <= i < |componentArrays| ::
        componentArrays[i].componentId == id && instances == componentArrays[i].instances
      ensures componentArrays != [] ==> |instances| == componentCount
    {
      ConsistentMembership(componentIndexMap, IdsOf(componentArrays), id);
      componentArrays[componentIndexMap[id]].instances
    }

    /** `add_new_component_type`: a count that differs from non-empty
        contents, or a type already present, is an error that changes
        nothing; otherwise the array is appended, the count set and the
        archetype gains the type. */
    method AddNewComponentType(componentArray: ComponentArray) returns (r: Result<(), ArchetypeError>)
      requires Valid()
      modifies this
      ensures Valid()
      ensures r.Err? <==>
        ((old(componentArrays) != [] && |componentArray.instances| != old(componentCount)) ||
         ContainsComponentId(old(archetype), componentArray.componentId))
      ensures r.Err? ==>
        (r.error ==
          (if old(componentArrays) != [] && |componentArray.instances| != old(componentCount)
           then InconsistentComponentCount else ComponentTypeExists))
      ensures r.Err? ==>
        (componentArrays == old(componentArrays) && componentCount == old(componentCount) &&
         archetype == old(archetype))
      ensures r.Ok? ==> componentArrays == old(componentArrays) + [componentArray] && componentCount == |componentArray.instances|
      ensures r.Ok? ==> archetype.componentIds == old(archetype.componentIds) + {componentArray.componentId}
    {
      var count := |componentArray.instances|;
      if componentArrays != [] && count != componentCount {
        return Err(InconsistentComponentCount);
      }
      ConsistentMembership(componentIndexMap, IdsOf(componentArrays), componentArray.componentId);
      if componentArray.componentId in componentIndexMap {
        return Err(ComponentTypeExists);
      }
      PushKeepsArraysValid(componentIndexMap, componentArrays, componentCount, componentArray);
      componentIndexMap := componentIndexMap[componentArray.componentId := |componentArrays|];
      componentArrays := componentArrays + [componentArray];
      componentCount := count;
      archetype := ArchetypeOfIds(IdsOf(componentArrays));
      r := Ok(());
    }

    /** `add_or_overwrite_component_types`: every array is included, a
        present type replaced in place; a count mismatch is remembered as
        the result but the other arrays are still included; the archetype is
        recomputed only when a type was added. */
    method AddOrOverwriteComponentTypes(arrays: seq<ComponentArray>) returns (r: Result<(), ArchetypeError>)
      requires Valid()
      modifies this
      ensures Valid()
      ensures var included := IncludeAll(Contents(old(componentArrays), old(componentCount)), arrays);
        Contents(componentArrays, componentCount) == included.0 && (r.Err? <==> included.1) &&
        (included.2 || archetype == old(archetype))
      ensures r.Err? ==> r.error == InconsistentComponentCount
    {
      ghost var start := Contents(componentArrays, componentCount);
      var m, current, count, failed, mustUpdateArchetype :=
        IncludeArrays(componentIndexMap, componentArrays, componentCount, arrays);
      IncludeAllProperties(start, arrays);
      componentIndexMap, componentArrays, componentCount := m, current, count;
      if mustUpdateArchetype {
        archetype := ArchetypeOfIds(IdsOf(componentArrays));
      }
      r := if failed then Err(InconsistentComponentCount) else Ok(());
    }

    /** The loop of `add_or_overwrite_component_types` on the index map, the
        arrays and the count: the flags say whether an inclusion failed and
        whether a type was added. */
    static method IncludeArrays(m0: map<ComponentID, nat>, arrays0: seq<ComponentArray>, count0: nat,
                                arrays: seq<ComponentArray>)
      returns (m: map<ComponentID, nat>, current: seq<ComponentArray>, count: nat, failed: bool, added: bool)
      requires KeyIndexMapping.Consistent(m0, IdsOf(arrays0)) && Distinct(IdsOf(arrays0))
      ensures KeyIndexMapping.Consistent(m, IdsOf(current))
      ensures (Contents(current, count), failed, added) == IncludeAll(Contents(arrays0, count0), arrays)
    {
      m, current, count, failed, added := m0, arrays0, count0, false, false;
      for i := 0 to |arrays|
        invariant KeyIndexMapping.Consistent(m, IdsOf(current)) && Distinct(IdsOf(current))
        invariant (Contents(current, count), failed, added) == IncludeAll(Contents(arrays0, count0), arrays[..i])
      {
        assert arrays[..i + 1][..i] == arrays[..i];
        var included;
        m, current, count, included := IncludeComponentArray(m, current, count, arrays[i]);
        match included {
          case Err(_) => failed := true;
          case Ok(wasAdded) => added := added || wasAdded;
        }
      }
      assert arrays[..|arrays|] == arrays;
    }

    /** `add_or_overwrite_component_type_without_updating_archetype` on the
        index map, the arrays and the count: the result says whether the
        type was added. */
    static method IncludeComponentArray(m: map<ComponentID, nat>, arrays: seq<ComponentArray>, count: nat,
                                        componentArray: ComponentArray)
      returns (m': map<ComponentID, nat>, arrays': seq<ComponentArray>, count': nat, r: Result<bool, ArchetypeError>)
      requires KeyIndexMapping.Consistent(m, IdsOf(arrays)) && Distinct(IdsOf(arrays))
      ensures KeyIndexMapping.Consistent(m', IdsOf(arrays')) && Distinct(IdsOf(arrays'))
      ensures var step := IncludeOne(Contents(arrays, count), componentArray);
        Contents(arrays', count') == step.0 && (r.Err? <==> step.1) && (r.Ok? ==> r.value == step.2)
      ensures r.Err? ==> r.error == InconsistentComponentCount
    {
      m', arrays', count' := m, arrays, count;
      var n := |componentArray.instances|;
      if arrays != [] && n != count {
        return m', arrays', count', Err(InconsistentComponentCount);
      }
      ConsistentMembership(m, IdsOf(arrays), componentArray.componentId);
      if componentArray.componentId !in m {
        ConsistentPush(m, IdsOf(arrays), componentArray.componentId);
        IdsOfAppend(arrays, componentArray);
        assert Distinct(IdsOf(arrays) + [componentArray.componentId]);
        m' := m[componentArray.componentId := |arrays|];
        arrays' := arrays + [componentArray];
        count' := n;
        r := Ok(true);
      } else {
        var idx := m[componentArray.componentId];
        PositionOfDistinct(IdsOf(arrays), idx);
        IdsOfReplace(arrays, idx, componentArray);
        arrays' := arrays[idx := componentArray];
        r := Ok(false);
      }
    }

    /** `remove_component_type_with_id`: a missing type is an error that
        changes nothing; otherwise its array is swap-removed and the
        archetype loses the type. */
    method RemoveComponentTypeWithId(id: ComponentID) returns (r: Result<(), ArchetypeError>)
      requires Valid()
      modifies this
      ensures Valid()
      ensures r.Err? <==> !ContainsComponentId(old(archetype), id)
      ensures r.Err? ==>
        (r.error == MissingComponentType && componentArrays == old(componentArrays) &&
         archetype == old(archetype))
      ensures r.Ok? ==>
        (id in old(componentIndexMap) &&
         componentArrays == SwapRemove(old(componentArrays), old(componentIndexMap)[id]))
      ensures r.Ok? ==> archetype.componentIds == old(archetype.componentIds) - {id}
      ensures componentCount == old(componentCount)
    {
      ConsistentMembership(componentIndexMap, IdsOf(componentArrays), id);
      if id !in componentIndexMap {
        return Err(MissingComponentType);
      }
      var next := SwapRemoveType(componentIndexMap, componentArrays, componentCount, id);
      componentIndexMap, componentArrays := next.0, next.1;
      archetype := ArchetypeOfIds(IdsOf(componentArrays));
      r := Ok(());
    }

    /** `remove_component_types_with_ids`, corrected: the types are removed
        in order until one is missing, and the archetype is recomputed from
        the remaining arrays whether or not a type was missing, so the
        invariant holds after an error too. */
    method RemoveComponentTypesWithIds(ids: seq<ComponentID>) returns (r: Result<(), ArchetypeError>)
      requires Valid()
      modifies this
      ensures Valid()
      ensures var removal := RemoveTypes(old(componentIndexMap), old(componentArrays), old(componentCount), ids);
        componentIndexMap == removal.0 && componentArrays == removal.1 && (r.Err? <==> removal.2)
      ensures r.Err? ==> r.error == MissingComponentType
      ensures componentCount == old(componentCount)
    {
      var m, arrays, failed := RemoveTypesLoop(componentIndexMap, componentArrays, componentCount, ids);
      componentIndexMap, componentArrays := m, arrays;
      archetype := ArchetypeOfIds(IdsOf(arrays));
      r := if failed then Err(MissingComponentType) else Ok(());
    }

    /** The loop of `remove_component_types_with_ids` on the index map and
        the arrays: stops at the first missing type. */
    static method RemoveTypesLoop(m0: map<ComponentID, nat>, arrays0: seq<ComponentArray>, count: nat, ids: seq<ComponentID>)
      returns (m: map<ComponentID, nat>, arrays: seq<ComponentArray>, failed: bool)
      requires ArraysValid(m0, arrays0, count)
      ensures (m, arrays, failed) == RemoveTypes(m0, arrays0, count, ids)
    {
      m, arrays, failed := m0, arrays0, false;
      ghost var removal := RemoveTypes(m, arrays, count, ids);
      var i := 0;
      while i < |ids|
        invariant i <= |ids| && ArraysValid(m, arrays, count)
        invariant RemoveTypes(m, arrays, count, ids[i..]) == removal
      {
        assert ids[i..][0] == ids[i] && ids[i..][1..] == ids[i + 1..];
        if ids[i] !in m {
          failed := true;
          return;
        }
        var next := SwapRemoveType(m, arrays, count, ids[i]);
        m, arrays := next.0, next.1;
        i := i + 1;
      }
      assert ids[i..] == [];
    }
  }

  // ---------------------------------------------------------------------
  // Table rows
  // ---------------------------------------------------------------------

  /** Each storage with the instances the arrays hold for its type appended
      (`push_array` for every array of `add_entities`). */
  ghost function AppendColumns(storages: seq<ComponentArray>, arrays: seq<ComponentArray>): (r: seq<ComponentArray>)
    ensures |r| == |storages| && IdsOf(r) == IdsOf(storages)
  {
    seq(|storages|, j requires 0 <= j < |storages| =>
      var id := storages[j].componentId;
      ComponentArray(id, storages[j].instances + (if id in IdsOf(arrays) then ColumnOf(arrays, id) else [])))
  }

  /** Every storage with the instance at `idx` swap-removed. */
  function RemoveRow(storages: seq<ComponentArray>, idx: nat): (r: seq<ComponentArray>)
    requires forall j | 0 <= j < |storages| :: idx < |storages[j].instances|
    ensures |r| == |storages| && IdsOf(r) == IdsOf(storages)
    ensures forall j | 0 <= j < |r| :: |r[j].instances| == |storages[j].instances| - 1
  {
    seq(|storages|, j requires 0 <= j < |storages| =>
      ComponentArray(storages[j].componentId, SwapRemove(storages[j].instances, idx)))
  }

  /** The instance at `idx` of every storage, as single-instance arrays. */
  function RowAt(storages: seq<ComponentArray>, idx: nat): (r: seq<ComponentArray>)
    requires forall j | 0 <= j < |storages| :: idx < |storages[j].instances|
    ensures |r| == |storages| && IdsOf(r) == IdsOf(storages) && CountsMatch(r, 1)
  {
    seq(|storages|, j requires 0 <= j < |storages| =>
      ComponentArray(storages[j].componentId, [storages[j].instances[idx]]))
  }

  /** Appending arrays of exactly the storages' types, each holding `added`
      instances, to storages holding `count` instances each: every type is
      indexed, and every storage then holds `count + added` instances. */
  lemma AppendSameTypes(m: map<ComponentID, nat>, storages: seq<ComponentArray>, count: nat,
                        arrays: seq<ComponentArray>, added: nat)
    requires ArraysValid(m, storages, count) && CountsMatch(arrays, added)
    requires Elements(IdsOf(arrays)) == Elements(IdsOf(storages))
    ensures forall k | 0 <= k < |arrays| :: arrays[k].componentId in m
    ensures CountsMatch(AppendColumns(storages, arrays), count + added)
  {
    forall k | 0 <= k < |arrays|
      ensures arrays[k].componentId in m
    {
      assert arrays[k].componentId in Elements(IdsOf(arrays));
      ConsistentMembership(m, IdsOf(storages), arrays[k].componentId);
    }
    var r := AppendColumns(storages, arrays);
    forall j | 0 <= j < |r|
      ensures |r[j].instances| == count + added
    {
      var id := storages[j].componentId;
      assert id in Elements(IdsOf(storages));
      var p := PositionOf(IdsOf(arrays), id);
    }
  }

  /** `r` is `storages` with the first `k` arrays appended to the storages
      of their types. */
  ghost predicate AppendedUpTo(storages: seq<ComponentArray>, arrays: seq<ComponentArray>, k: nat, r: seq<ComponentArray>)
    requires k <= |arrays|
  {
    |r| == |storages| &&
    forall j | 0 <= j < |storages| ::
      var id := storages[j].componentId;
      r[j] == ComponentArray(id, storages[j].instances +
        (if id in IdsOf(arrays)[..k] then ColumnOf(arrays, id) else []))
  }

  /** Appending array `k` to the storage of its type extends the appended
      prefix by one. */
  lemma AppendArrayStep(storages: seq<ComponentArray>, indexMap: map<ComponentID, nat>, arrays: seq<ComponentArray>,
                        k: nat, r: seq<ComponentArray>)
    requires KeyIndexMapping.Consistent(indexMap, IdsOf(storages)) && Distinct(IdsOf(arrays))
    requires k < |arrays| && arrays[k].componentId in indexMap && AppendedUpTo(storages, arrays, k, r)
    ensures indexMap[arrays[k].componentId] < |r|
    ensures var idx := indexMap[arrays[k].componentId];
      AppendedUpTo(storages, arrays, k + 1,
        r[idx := ComponentArray(r[idx].componentId, r[idx].instances + arrays[k].instances)])
  {
    var ids := IdsOf(arrays);
    var id := arrays[k].componentId;
    var idx := indexMap[id];
    PositionOfDistinct(ids, k);
    assert ids[..k + 1] == ids[..k] + [id];
    forall p | 0 <= p < k
      ensures ids[..k][p] != id
    {
      assert ids[..k][p] == ids[p];
    }
  }

  /** Removing row `idx` of storages holding `count` instances each keeps
      the invariant with one instance fewer. */
  lemma RemoveRowKeepsArraysValid(m: map<ComponentID, nat>, storages: seq<ComponentArray>, count: nat, idx: nat)
    requires ArraysValid(m, storages, count) && idx < count
    ensures forall j | 0 <= j < |storages| :: idx < |storages[j].instances|
    ensures ArraysValid(m, RemoveRow(storages, idx), count - 1)
  {
  }

  /** After an entity's row is swap-removed from the mapper and from every
      storage, every remaining entity still finds its own components. */
  lemma RemoveRowKeepsLookups(oldIndices: map<EntityID, nat>, oldKeys: seq<EntityID>, storages: seq<ComponentArray>,
                              indices: map<EntityID, nat>, keys: seq<EntityID>, idx: nat)
    requires KeyIndexMapping.Consistent(oldIndices, oldKeys) && idx < |oldKeys|
    requires KeyIndexMapping.Consistent(indices, keys) && keys == SwapRemove(oldKeys, idx)
    requires forall j | 0 <= j < |storages| :: |storages[j].instances| == |oldKeys|
    ensures forall e, j | e in indices && 0 <= j < |storages| ::
      e in oldIndices && indices[e] < |RemoveRow(storages, idx)[j].instances| &&
      RemoveRow(storages, idx)[j].instances[indices[e]] == storages[j].instances[oldIndices[e]]
  {
    forall j | 0 <= j < |storages|
      ensures forall e | e in indices ::
        e in oldIndices && indices[e] < |RemoveRow(storages, idx)[j].instances| &&
        RemoveRow(storages, idx)[j].instances[indices[e]] == storages[j].instances[oldIndices[e]]
    {
      KeyIndexMapping.SwapRemoveKeepsLookups(oldIndices, oldKeys, storages[j].instances, indices, keys, idx);
    }
  }

  // ---------------------------------------------------------------------
  // ArchetypeTable
  // ---------------------------------------------------------------------

  /** `ArchetypeTable`: one storage per component type of the archetype and
      one row per entity, the entity mapper giving each entity its row. */
  class ArchetypeTable {
    var archetype: Archetype
    const entityIndexMapper: KeyIndexMapping.KeyIndexMapper<EntityID>
    var componentIndexMap: map<ComponentID, nat>
    var componentStorages: seq<ComponentArray>

    ghost predicate Valid()
      reads this, entityIndexMapper
    {
      entityIndexMapper.Valid() &&
      ArraysValid(componentIndexMap, componentStorages, |entityIndexMapper.keys|) &&
      archetype == ArchetypeOfIds(IdsOf(componentStorages))
    }

    /** `new_with_entities` and `new_with_entity_index_mapper`: panics on a
        repeated entity ID or on an entity count that differs from the
        instance count. */
    constructor NewWithEntities(entityIds: seq<EntityID>, components: ArchetypeComponents)
      requires components.Valid() && Distinct(entityIds) && |entityIds| == components.componentCount
      ensures Valid() && fresh(entityIndexMapper)
      ensures entityIndexMapper.keys == entityIds && archetype == components.archetype
      ensures componentStorages == components.componentArrays
    {
      entityIndexMapper := new KeyIndexMapping.KeyIndexMapper.NewWithKeys(entityIds);
      archetype := components.archetype;
      componentIndexMap := components.componentIndexMap;
      componentStorages := components.componentArrays;
    }

    /** `has_entity`. */
    function HasEntity(entityId: EntityID): (b: bool)
      reads this, entityIndexMapper
      requires Valid()
      ensures b <==> entityId in entityIndexMapper.keys
    {
      entityIndexMapper.ContainsKey(entityId)
    }

    /** `get_component_storage`: the storage of a type, or an error for a
        type outside the archetype. */
    function GetComponentStorage(id: ComponentID): (r: Result<ComponentArray, ArchetypeError>)
      reads this, entityIndexMapper
      requires Valid()
      ensures r.Ok? <==> ContainsComponentId(archetype, id)
      ensures r.Err? ==> r.error == MissingComponentType
      ensures r.Ok? ==>
        (r.value in componentStorages && r.value.componentId == id &&
         |r.value.instances| == |entityIndexMapper.keys|)
    {
      ConsistentMembership(componentIndexMap, IdsOf(componentStorages), id);
      if id in componentIndexMap then Ok(componentStorages[componentIndexMap[id]])
      else Err(MissingComponentType)
    }

    /** `add_entities`: panics on an entity ID that repeats or is already
        present, and on an entity count that differs from the instance
        count; appends one row per entity to every storage. */
    method AddEntities(entityIds: seq<EntityID>, components: ArchetypeComponents)
      requires Valid() && components.Valid()
      requires Distinct(entityIds) && forall i | 0 <= i < |entityIds| :: entityIds[i] !in entityIndexMapper.indices
      requires |entityIds| == components.componentCount
      requires components.archetype.componentIds == archetype.componentIds
      modifies this, entityIndexMapper
      ensures Valid()
      ensures entityIndexMapper.keys == old(entityIndexMapper.keys) + entityIds
      ensures archetype == old(archetype) && componentIndexMap == old(componentIndexMap)
      ensures componentStorages == AppendColumns(old(componentStorages), components.componentArrays)
    {
      ghost var oldCount := |entityIndexMapper.keys|;
      entityIndexMapper.PushKeys(entityIds);
      var arrays := components.componentArrays;
      assert Elements(IdsOf(arrays)) == Elements(IdsOf(componentStorages)) by {
        ArchetypeOfIdsComponents(IdsOf(arrays));
        ArchetypeOfIdsComponents(IdsOf(componentStorages));
      }
      AppendSameTypes(componentIndexMap, componentStorages, oldCount, arrays, |entityIds|);
      var appended := PushArrays(componentStorages, componentIndexMap, arrays);
      assert |entityIndexMapper.keys| == oldCount + |entityIds|;
      assert ArraysValid(componentIndexMap, appended, |entityIndexMapper.keys|);
      componentStorages := appended;
    }

    /** The loop of `add_entities` over the given arrays: each is appended
        to the storage of its type. */
    static method PushArrays(storages: seq<ComponentArray>, indexMap: map<ComponentID, nat>, arrays: seq<ComponentArray>)
      returns (r: seq<ComponentArray>)
      requires KeyIndexMapping.Consistent(indexMap, IdsOf(storages)) && Distinct(IdsOf(arrays))
      requires forall k | 0 <= k < |arrays| :: arrays[k].componentId in indexMap
      ensures r == AppendColumns(storages, arrays)
    {
      r := storages;
      for k := 0 to |arrays|
        invariant AppendedUpTo(storages, arrays, k, r)
      {
        var idx := indexMap[arrays[k].componentId];
        AppendArrayStep(storages, indexMap, arrays, k, r);
        r := r[idx := ComponentArray(r[idx].componentId, r[idx].instances + arrays[k].instances)];
      }
      assert IdsOf(arrays)[..|arrays|] == IdsOf(arrays);
    }

    /** `remove_entity`: an absent entity is an error that changes nothing;
        otherwise its row is swap-removed from the mapper and from every
        storage and returned as single-instance components of the table's
        archetype. */
    method RemoveEntity(entityId: EntityID) returns (r: Result<ArchetypeComponents, ArchetypeError>)
      requires Valid()
      modifies this, entityIndexMapper
      ensures Valid()
      ensures r.Err? <==> entityId !in old(entityIndexMapper.keys)
      ensures r.Err? ==>
        (r.error == MissingEntity && entityIndexMapper.keys == old(entityIndexMapper.keys) &&
         componentStorages == old(componentStorages))
      ensures r.Ok? ==>
        (entityId in old(entityIndexMapper.indices) &&
         var idx := old(entityIndexMapper.indices)[entityId];
         entityIndexMapper.keys == SwapRemove(old(entityIndexMapper.keys), idx) &&
         componentStorages == RemoveRow(old(componentStorages), idx) &&
         fresh(r.value) && r.value.Valid() && r.value.archetype == archetype && r.value.componentCount == 1 &&
         r.value.componentArrays == RowAt(old(componentStorages), idx))
      ensures archetype == old(archetype) && componentIndexMap == old(componentIndexMap)
    {
      if !HasEntity(entityId) {
        return Err(MissingEntity);
      }
      var idx := entityIndexMapper.SwapRemoveKey(entityId);
      RemoveRowKeepsArraysValid(componentIndexMap, componentStorages, |entityIndexMapper.keys| + 1, idx);
      var remaining, removed := SwapRemoveRow(componentStorages, idx);
      componentStorages := remaining;
      var components := new ArchetypeComponents.Init(archetype, removed, 1);
      r := Ok(components);
    }

    /** The loop of `remove_entity` over the storages: the row at `idx` is
        swap-removed from each and collected. */
    static method SwapRemoveRow(storages: seq<ComponentArray>, idx: nat) returns (remaining: seq<ComponentArray>, removed: seq<ComponentArray>)
      requires forall j | 0 <= j < |storages| :: idx < |storages[j].instances|
      ensures remaining == RemoveRow(storages, idx) && removed == RowAt(storages, idx)
    {
      remaining, removed := [], [];
      for j := 0 to |storages|
        invariant remaining == RemoveRow(storages[..j], idx) && removed == RowAt(storages[..j], idx)
      {
        var instances := storages[j].instances;
        assert storages[..j + 1] == storages[..j] + [storages[j]];
        remaining := remaining + [ComponentArray(storages[j].componentId, SwapRemove(instances, idx))];
        removed := removed + [ComponentArray(storages[j].componentId, [instances[idx]])];
      }
      assert storages[..|storages|] == storages;
    }

    /** `remove_all_entities`: the mapper and every storage are emptied. */
    method RemoveAllEntities()
      requires Valid()
      modifies this, entityIndexMapper
      ensures Valid() && entityIndexMapper.keys == []
      ensures IdsOf(componentStorages) == IdsOf(old(componentStorages))
      ensures forall j | 0 <= j < |componentStorages| :: componentStorages[j].instances == []
      ensures archetype == old(archetype) && componentIndexMap == old(componentIndexMap)
    {
      entityIndexMapper.Clear();
      var cleared := componentStorages;
      for j := 0 to |cleared|
        invariant |cleared| == |componentStorages| && IdsOf(cleared) == IdsOf(componentStorages)
        invariant forall i | 0 <= i < j :: cleared[i].instances == []
      {
        cleared := cleared[j := ComponentArray(cleared[j].componentId, [])];
      }
      componentStorages := cleared;
    }
  }
}
