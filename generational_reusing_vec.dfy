/** Model of `GenerationalReusingVec`: a vector whose freed slots are queued
    and reused first-in first-out, with a per-slot generation that is advanced
    on every reuse so that handles to a freed element stop resolving. */
module GenerationalReuse {
  import opened Wrappers
  import opened Sequences

  /** `GenerationalIdx`: a handle made of a generation and a slot index. */
  datatype GenerationalIdx = GenerationalIdx(generation: nat, idx: nat)

  /** `GenerationalElement`: a slot holding its current generation. */
  datatype GenerationalElement<T> = GenerationalElement(generation: nat, element: T)

  /** `GenerationalElement::get_element`: the element when the generations
      agree, `None` otherwise. */
  function SlotElement<T>(slot: GenerationalElement<T>, generation: nat): (r: Option<T>)
    ensures r.Some? <==> generation == slot.generation
    ensures r.Some? ==> r.value == slot.element
  {
    if generation == slot.generation then Some(slot.element) else None
  }

  class GenerationalReusingVec<T> {
    var elements: seq<GenerationalElement<T>>
    /** The free list, a `VecDeque` popped at the front and pushed at the back. */
    var freeList: seq<nat>

    ghost predicate Valid()
      reads this
    {
      && Distinct(freeList)
      && (forall i | 0 <= i < |freeList| :: freeList[i] < |elements|)
    }

    /** The slots that currently hold a live element. */
    ghost function Occupied(): set<nat>
      reads this
    {
      Range(0, |elements|) - Elements(freeList)
    }

    /** True when the handle refers to a live element of its generation. */
    ghost predicate Resolves(h: GenerationalIdx)
      reads this
    {
      h.idx < |elements| && h.idx !in freeList && elements[h.idx].generation == h.generation
    }

    /** `new`: an empty vector. */
    constructor ()
      ensures Valid() && elements == [] && freeList == []
    {
      elements := [];
      freeList := [];
    }

    /** `n_elements`: the length of the vector minus the length of the free
        list, which is the number of occupied slots. */
    function NElements(): (n: nat)
      reads this
      requires Valid()
      ensures n == |Occupied()|
    {
      DistinctBelowIsShort(freeList, |elements|);
      DistinctCardinality(freeList);
      RangeCardinality(0, |elements|);
      assert Elements(freeList) <= Range(0, |elements|);
      |elements| - |freeList|
    }

    /** `get_element`: `None` for a freed slot or an outdated generation;
        an index out of bounds panics. */
    function GetElement(h: GenerationalIdx): (r: Option<T>)
      reads this
      requires Valid() && h.idx < |elements|
      ensures r.Some? <==> Resolves(h)
      ensures r.Some? ==> r.value == elements[h.idx].element
    {
      if h.idx in freeList then None else SlotElement(elements[h.idx], h.generation)
    }

    /** `element`: panics unless the handle resolves. */
    function Element(h: GenerationalIdx): (x: T)
      reads this
      requires Valid() && Resolves(h)
      ensures GetElement(h) == Some(x)
    {
      elements[h.idx].element
    }

    /** `add_element`: reuses the oldest freed slot, advancing its generation
        by one, or appends a slot of generation 0 when none is free. The
        returned handle resolves to the element; every handle that did not
        resolve before still does not, so freed handles stay dead. */
    method AddElement(x: T) returns (h: GenerationalIdx)
      requires Valid()
      modifies this
      ensures Valid()
      ensures old(freeList) != [] ==>
        && h.idx == old(freeList)[0]
        && h.generation == old(elements)[h.idx].generation + 1
        && freeList == old(freeList)[1..]
        && elements == old(elements)[h.idx := GenerationalElement(h.generation, x)]
      ensures old(freeList) == [] ==>
        && h == GenerationalIdx(0, old(|elements|))
        && freeList == []
        && elements == old(elements) + [GenerationalElement(0, x)]
      ensures Resolves(h) && GetElement(h) == Some(x)
      ensures forall g: GenerationalIdx | old(Resolves(g)) :: Resolves(g) && (g.idx != h.idx ==> GetElement(g) == old(GetElement(g)))
      ensures forall g: GenerationalIdx | !old(Resolves(g)) && g != h :: !Resolves(g)
    {
      if freeList != [] {
        var freeIdx := freeList[0];
        freeList := freeList[1..];
        var generation := elements[freeIdx].generation + 1;
        elements := elements[freeIdx := GenerationalElement(generation, x)];
        h := GenerationalIdx(generation, freeIdx);
      } else {
        h := GenerationalIdx(0, |elements|);
        elements := elements + [GenerationalElement(0, x)];
      }
    }

    /** `free_element_at_idx`: panics when the index is out of bounds or
        already free; otherwise queues the slot. Handles to that slot stop
        resolving and every other handle is unaffected. */
    method FreeElementAtIdx(h: GenerationalIdx)
      requires Valid() && h.idx < |elements| && h.idx !in freeList
      modifies this
      ensures Valid()
      ensures elements == old(elements) && freeList == old(freeList) + [h.idx]
      ensures forall g: GenerationalIdx :: Resolves(g) <==> old(Resolves(g)) && g.idx != h.idx
    {
      freeList := freeList + [h.idx];
    }

    /** `free_all_elements`: every slot becomes free, in index order. */
    method FreeAllElements()
      requires Valid()
      modifies this
      ensures Valid()
      ensures elements == old(elements) && freeList == Iota(|elements|)
      ensures forall g: GenerationalIdx :: !Resolves(g)
      ensures Occupied() == {} && NElements() == 0
    {
      freeList := Iota(|elements|);
      forall g: GenerationalIdx | g.idx < |elements| ensures g.idx in freeList {
        assert freeList[g.idx] == g.idx;
      }
      FreeAllLeavesNothingOccupied(|elements|);
    }
  }

  /** With every slot queued as free, no slot is occupied. */
  lemma FreeAllLeavesNothingOccupied(n: nat)
    ensures Range(0, n) - Elements(Iota(n)) == {}
  {
    forall i | i in Range(0, n) ensures i in Elements(Iota(n)) {
      assert Iota(n)[i] == i;
    }
  }
}
