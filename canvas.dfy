/** The non-drawing part of the voxel generator's node-graph editor canvas
    (apps/voxel_generator/src/editor/meta/canvas.rs): nodes with numbered
    parent and child slots, links between a child slot of one node and a
    parent slot of another, attaching and detaching links, removing a node,
    collapse marks, and the depth-first searches over child links that
    decide whether an attachment would close a cycle. */
module MetaCanvas {
  import opened Wrappers

  type MetaNodeID = nat

  /** The data type carried over an edge. Which output type a given input
      slot accepts is decided outside this file, so it enters the model as
      a parameter of the operations that ask. */
  type EdgeDataType = nat

  /** One end of a link: the node at the other end and the slot on it. */
  datatype MetaNodeLink = MetaNodeLink(toNode: MetaNodeID, toSlot: nat)

  /** The graph-relevant part of a node: its parent slots (each linked to a
      child slot of a parent node, or empty), its child slots (each linked to
      a parent slot of a child node, or empty), the data type each child slot
      expects, the data type the node outputs, and whether it is the output
      (root) node. */
  datatype MetaNode = MetaNode(
    linksToParents: seq<Option<MetaNodeLink>>,
    linksToChildren: seq<Option<MetaNodeLink>>,
    inputDataTypes: seq<EdgeDataType>,
    outputDataType: EdgeDataType,
    isOutput: bool)

  /** A slot on a node, on its parent side or its child side. */
  datatype MetaPort = ParentPort(slot: nat) | ChildPort(slot: nat)

  /** An edge the user has started dragging from a port. */
  datatype PendingEdge = PendingEdge(fromNode: MetaNodeID, fromPort: MetaPort)

  /** One kind of change an editing operation can report. The canvas packs
      these as bits 0 to 8 of a 16 bit flag word, in this order. */
  datatype MetaGraphChange =
    | NodeAdded | NodeRemoved | NodeAttached | NodeDetached | ParamsChanged
    | NameChanged | KindChanged | ParentPortCountChanged | CollapsedStateChanged

  /** The kinds of change an operation made; setting a flag adds it to the set. */
  type MetaGraphChanges = set<MetaGraphChange>

  // ---------------------------------------------------------------------
  // Reading and writing single slots
  // ---------------------------------------------------------------------

  /** The link in parent slot `s` of node `x`; None for an empty slot, a
      slot out of range or a missing node. */
  function ParentAt(nodes: map<MetaNodeID, MetaNode>, x: MetaNodeID, s: nat): Option<MetaNodeLink>
  {
    if x in nodes && s < |nodes[x].linksToParents| then nodes[x].linksToParents[s] else None
  }

  /** The link in child slot `s` of node `x`, None as for `ParentAt`. */
  function ChildAt(nodes: map<MetaNodeID, MetaNode>, x: MetaNodeID, s: nat): Option<MetaNodeLink>
  {
    if x in nodes && s < |nodes[x].linksToChildren| then nodes[x].linksToChildren[s] else None
  }

  /** Two versions of a node that differ at most in what their slots hold. */
  predicate SameShape(a: MetaNode, b: MetaNode)
  {
    |a.linksToParents| == |b.linksToParents| &&
    |a.linksToChildren| == |b.linksToChildren| &&
    a.inputDataTypes == b.inputDataTypes &&
    a.outputDataType == b.outputDataType &&
    a.isOutput == b.isOutput
  }

  /** Two node maps with the same nodes, each of the same shape. */
  predicate SameNodes(a: map<MetaNodeID, MetaNode>, b: map<MetaNodeID, MetaNode>)
  {
    a.Keys == b.Keys && forall x :: x in a ==> SameShape(a[x], b[x])
  }

  /** Overwrites parent slot `slot` of node `id`; nothing happens when the
      node or the slot does not exist. */
  function SetParentLink(nodes: map<MetaNodeID, MetaNode>, id: MetaNodeID, slot: nat, v: Option<MetaNodeLink>): map<MetaNodeID, MetaNode>
  {
    if id in nodes && slot < |nodes[id].linksToParents| then
      nodes[id := nodes[id].(linksToParents := nodes[id].linksToParents[slot := v])]
    else nodes
  }

  /** What `SetParentLink` changes, slot by slot. */
  lemma SetParentLinkAt(nodes: map<MetaNodeID, MetaNode>, id: MetaNodeID, slot: nat, v: Option<MetaNodeLink>)
    ensures SameNodes(nodes, SetParentLink(nodes, id, slot, v))
    ensures forall x: MetaNodeID, s: nat ::
      ParentAt(SetParentLink(nodes, id, slot, v), x, s) ==
        (if x == id && s == slot && id in nodes && slot < |nodes[id].linksToParents| then v else ParentAt(nodes, x, s))
    ensures forall x: MetaNodeID, s: nat :: ChildAt(SetParentLink(nodes, id, slot, v), x, s) == ChildAt(nodes, x, s)
  {
  }

  /** Overwrites child slot `slot` of node `id`, as `SetParentLink`. */
  function SetChildLink(nodes: map<MetaNodeID, MetaNode>, id: MetaNodeID, slot: nat, v: Option<MetaNodeLink>): map<MetaNodeID, MetaNode>
  {
    if id in nodes && slot < |nodes[id].linksToChildren| then
      nodes[id := nodes[id].(linksToChildren := nodes[id].linksToChildren[slot := v])]
    else nodes
  }

  /** What `SetChildLink` changes, slot by slot. */
  lemma SetChildLinkAt(nodes: map<MetaNodeID, MetaNode>, id: MetaNodeID, slot: nat, v: Option<MetaNodeLink>)
    ensures SameNodes(nodes, SetChildLink(nodes, id, slot, v))
    ensures forall x: MetaNodeID, s: nat ::
      ChildAt(SetChildLink(nodes, id, slot, v), x, s) ==
        (if x == id && s == slot && id in nodes && slot < |nodes[id].linksToChildren| then v else ChildAt(nodes, x, s))
    ensures forall x: MetaNodeID, s: nat :: ParentAt(SetChildLink(nodes, id, slot, v), x, s) == ParentAt(nodes, x, s)
  {
  }

  // ---------------------------------------------------------------------
  // The two ends of every link agree
  // ---------------------------------------------------------------------

  /** A filled parent slot is matched by the child slot it names, which
      names this parent slot back. */
  ghost predicate ParentLinkMirrored(nodes: map<MetaNodeID, MetaNode>, x: MetaNodeID, s: nat)
  {
    ParentAt(nodes, x, s).Some? ==>
      ChildAt(nodes, ParentAt(nodes, x, s).value.toNode, ParentAt(nodes, x, s).value.toSlot)
        == Some(MetaNodeLink(x, s))
  }

  /** A filled child slot is matched by the parent slot it names. */
  ghost predicate ChildLinkMirrored(nodes: map<MetaNodeID, MetaNode>, x: MetaNodeID, s: nat)
  {
    ChildAt(nodes, x, s).Some? ==>
      ParentAt(nodes, ChildAt(nodes, x, s).value.toNode, ChildAt(nodes, x, s).value.toSlot)
        == Some(MetaNodeLink(x, s))
  }

  /** Every link is recorded at both of its ends. */
  ghost predicate LinksSymmetric(nodes: map<MetaNodeID, MetaNode>)
  {
    (forall x: MetaNodeID, s: nat :: ParentLinkMirrored(nodes, x, s)) &&
    (forall x: MetaNodeID, s: nat :: ChildLinkMirrored(nodes, x, s))
  }

  /** Whether a link, if any, leads to node `id`. */
  predicate LinksTo(o: Option<MetaNodeLink>, id: MetaNodeID)
  {
    o.Some? && o.value.toNode == id
  }

  /** In a graph whose links are symmetric, the parent slot (x, s) names the
      child slot (y, t) exactly when the child slot names the parent slot. */
  lemma MirroredEnds(nodes: map<MetaNodeID, MetaNode>, x: MetaNodeID, s: nat, y: MetaNodeID, t: nat)
    requires LinksSymmetric(nodes)
    ensures ParentAt(nodes, x, s) == Some(MetaNodeLink(y, t)) <==> ChildAt(nodes, y, t) == Some(MetaNodeLink(x, s))
  {
    assert ParentLinkMirrored(nodes, x, s);
    assert ChildLinkMirrored(nodes, y, t);
  }

  // ---------------------------------------------------------------------
  // Detaching a link
  // ---------------------------------------------------------------------

  /** The node map after `detach_parent_of(child, slot)`: the parent slot is
      emptied, and so is the child slot it named. */
  function DetachParentNodes(nodes: map<MetaNodeID, MetaNode>, child: MetaNodeID, slot: nat): map<MetaNodeID, MetaNode>
  {
    match ParentAt(nodes, child, slot)
    case None => nodes
    case Some(link) =>
      SetChildLink(SetParentLink(nodes, child, slot, None), link.toNode, link.toSlot, None)
  }

  /** What `DetachParentNodes` changes, slot by slot. */
  lemma DetachParentNodesAt(nodes: map<MetaNodeID, MetaNode>, child: MetaNodeID, slot: nat)
    ensures SameNodes(nodes, DetachParentNodes(nodes, child, slot))
    ensures forall x: MetaNodeID, s: nat ::
      ParentAt(DetachParentNodes(nodes, child, slot), x, s) ==
        (if x == child && s == slot then None else ParentAt(nodes, x, s))
    ensures forall x: MetaNodeID, s: nat ::
      ChildAt(DetachParentNodes(nodes, child, slot), x, s) ==
        (if ParentAt(nodes, child, slot) == Some(MetaNodeLink(x, s)) then None else ChildAt(nodes, x, s))
  {
    if ParentAt(nodes, child, slot).Some? {
      var link := ParentAt(nodes, child, slot).value;
      SetParentLinkAt(nodes, child, slot, None);
      SetChildLinkAt(SetParentLink(nodes, child, slot, None), link.toNode, link.toSlot, None);
    }
  }

  /** The node map after `detach_child_of(parent, slot)`: the child slot is
      emptied, and so is the parent slot it named. */
  function DetachChildNodes(nodes: map<MetaNodeID, MetaNode>, parent: MetaNodeID, slot: nat): map<MetaNodeID, MetaNode>
  {
    match ChildAt(nodes, parent, slot)
    case None => nodes
    case Some(link) =>
      SetParentLink(SetChildLink(nodes, parent, slot, None), link.toNode, link.toSlot, None)
  }

  /** What `DetachChildNodes` changes, slot by slot. */
  lemma DetachChildNodesAt(nodes: map<MetaNodeID, MetaNode>, parent: MetaNodeID, slot: nat)
    ensures SameNodes(nodes, DetachChildNodes(nodes, parent, slot))
    ensures forall x: MetaNodeID, s: nat ::
      ChildAt(DetachChildNodes(nodes, parent, slot), x, s) ==
        (if x == parent && s == slot then None else ChildAt(nodes, x, s))
    ensures forall x: MetaNodeID, s: nat ::
      ParentAt(DetachChildNodes(nodes, parent, slot), x, s) ==
        (if ChildAt(nodes, parent, slot) == Some(MetaNodeLink(x, s)) then None else ParentAt(nodes, x, s))
  {
    if ChildAt(nodes, parent, slot).Some? {
      var link := ChildAt(nodes, parent, slot).value;
      SetChildLinkAt(nodes, parent, slot, None);
      SetParentLinkAt(SetChildLink(nodes, parent, slot, None), link.toNode, link.toSlot, None);
    }
  }

  /** Detaching the parent link of a child keeps every link symmetric and
      leaves no trace of the link at either of its ends. */
  lemma DetachParentKeepsSymmetry(nodes: map<MetaNodeID, MetaNode>, child: MetaNodeID, slot: nat)
    requires LinksSymmetric(nodes)
    ensures LinksSymmetric(DetachParentNodes(nodes, child, slot))
    ensures forall x: MetaNodeID, s: nat ::
      ChildAt(DetachParentNodes(nodes, child, slot), x, s) ==
        (if ChildAt(nodes, x, s) == Some(MetaNodeLink(child, slot)) then None else ChildAt(nodes, x, s))
  {
    var r := DetachParentNodes(nodes, child, slot);
    DetachParentNodesAt(nodes, child, slot);
    forall x: MetaNodeID, s: nat ensures ParentLinkMirrored(r, x, s) {
      if ParentAt(r, x, s).Some? {
        var l := ParentAt(nodes, x, s).value;
        MirroredEnds(nodes, x, s, l.toNode, l.toSlot);
        MirroredEnds(nodes, child, slot, l.toNode, l.toSlot);
      }
    }
    forall x: MetaNodeID, s: nat ensures ChildLinkMirrored(r, x, s) {
      if ChildAt(r, x, s).Some? {
        var l := ChildAt(nodes, x, s).value;
        MirroredEnds(nodes, l.toNode, l.toSlot, x, s);
      }
    }
    forall x: MetaNodeID, s: nat ensures
      ChildAt(r, x, s) ==
        (if ChildAt(nodes, x, s) == Some(MetaNodeLink(child, slot)) then None else ChildAt(nodes, x, s))
    {
      MirroredEnds(nodes, child, slot, x, s);
    }
  }

  /** The mirror image of `DetachParentKeepsSymmetry`. */
  lemma DetachChildKeepsSymmetry(nodes: map<MetaNodeID, MetaNode>, parent: MetaNodeID, slot: nat)
    requires LinksSymmetric(nodes)
    ensures LinksSymmetric(DetachChildNodes(nodes, parent, slot))
    ensures forall x: MetaNodeID, s: nat ::
      ParentAt(DetachChildNodes(nodes, parent, slot), x, s) ==
        (if ParentAt(nodes, x, s) == Some(MetaNodeLink(parent, slot)) then None else ParentAt(nodes, x, s))
  {
    var r := DetachChildNodes(nodes, parent, slot);
    DetachChildNodesAt(nodes, parent, slot);
    forall x: MetaNodeID, s: nat ensures ChildLinkMirrored(r, x, s) {
      if ChildAt(r, x, s).Some? {
        var l := ChildAt(nodes, x, s).value;
        MirroredEnds(nodes, l.toNode, l.toSlot, x, s);
        MirroredEnds(nodes, l.toNode, l.toSlot, parent, slot);
      }
    }
    forall x: MetaNodeID, s: nat ensures ParentLinkMirrored(r, x, s) {
      if ParentAt(r, x, s).Some? {
        var l := ParentAt(nodes, x, s).value;
        MirroredEnds(nodes, x, s, l.toNode, l.toSlot);
      }
    }
    forall x: MetaNodeID, s: nat ensures
      ParentAt(r, x, s) ==
        (if ParentAt(nodes, x, s) == Some(MetaNodeLink(parent, slot)) then None else ParentAt(nodes, x, s))
    {
      MirroredEnds(nodes, x, s, parent, slot);
    }
  }

  /** The pending edge after detaching the link between parent slot
      `parentSlot` of `child` and child slot `childSlot` of `parent`: it is
      dropped when it starts at either end of that link. */
  function PendingAfterDetach(pending: Option<PendingEdge>, child: MetaNodeID, parentSlot: nat,
                              parent: MetaNodeID, childSlot: nat): (r: Option<PendingEdge>)
    ensures r.None? <==>
      (pending.None? ||
       pending.value == PendingEdge(child, ParentPort(parentSlot)) ||
       pending.value == PendingEdge(parent, ChildPort(childSlot)))
    ensures r.Some? ==> r == pending
  {
    match pending
    case None => None
    case Some(edge) =>
      var startsAtChildEnd := match edge.fromPort
        case ParentPort(s) => s == parentSlot && edge.fromNode == child
        case ChildPort(_) => false;
      var startsAtParentEnd := match edge.fromPort
        case ChildPort(s) => s == childSlot && edge.fromNode == parent
        case ParentPort(_) => false;
      if startsAtChildEnd || startsAtParentEnd then None else pending
  }

  // ---------------------------------------------------------------------
  // Reachability over child links
  // ---------------------------------------------------------------------

  /** The nodes named by the filled slots among `links`, in slot order. */
  function LinkedNodes(links: seq<Option<MetaNodeLink>>): (r: seq<MetaNodeID>)
    ensures forall i :: 0 <= i < |links| && links[i].Some? ==> links[i].value.toNode in r
    ensures forall c :: c in r ==> exists i :: 0 <= i < |links| && links[i].Some? && links[i].value.toNode == c
  {
    if |links| == 0 then []
    else
      var init := links[..|links| - 1];
      assert forall i :: 0 <= i < |init| ==> init[i] == links[i];
      LinkedNodes(init) + match links[|links| - 1] case Some(l) => [l.toNode] case None => []
  }

  /** The child nodes of `x`, with repetitions, in child slot order; a
      missing node has none. */
  function ChildrenOf(nodes: map<MetaNodeID, MetaNode>, x: MetaNodeID): seq<MetaNodeID>
  {
    if x in nodes then LinkedNodes(nodes[x].linksToChildren) else []
  }

  /** `to` can be reached from `from` by following at most `k` child links. */
  ghost predicate ReachableWithin(nodes: map<MetaNodeID, MetaNode>, from: MetaNodeID, to: MetaNodeID, k: nat)
    decreases k
  {
    from == to ||
    (k > 0 && exists c :: c in ChildrenOf(nodes, from) && ReachableWithin(nodes, c, to, k - 1))
  }

  /** `to` can be reached from `from` by following child links. */
  ghost predicate Reachable(nodes: map<MetaNodeID, MetaNode>, from: MetaNodeID, to: MetaNodeID)
  {
    exists k :: ReachableWithin(nodes, from, to, k)
  }

  /** A set of nodes that holds every child of each of its members. */
  ghost predicate ClosedUnderChildren(nodes: map<MetaNodeID, MetaNode>, closed: set<MetaNodeID>)
  {
    forall x, c :: x in closed && c in ChildrenOf(nodes, x) ==> c in closed
  }

  /** A path of length k to `x` extends by one child link. */
  lemma {:induction false} ReachableWithinStep(nodes: map<MetaNodeID, MetaNode>, a: MetaNodeID, x: MetaNodeID, c: MetaNodeID, k: nat)
    requires ReachableWithin(nodes, a, x, k)
    requires c in ChildrenOf(nodes, x)
    ensures ReachableWithin(nodes, a, c, k + 1)
    decreases k
  {
    if a == x {
      assert ReachableWithin(nodes, c, c, k);
    } else {
      var d :| d in ChildrenOf(nodes, a) && ReachableWithin(nodes, d, x, k - 1);
      ReachableWithinStep(nodes, d, x, c, k - 1);
    }
  }

  /** Every child of a reachable node is reachable. */
  lemma ReachableStep(nodes: map<MetaNodeID, MetaNode>, a: MetaNodeID, x: MetaNodeID, c: MetaNodeID)
    requires Reachable(nodes, a, x)
    requires c in ChildrenOf(nodes, x)
    ensures Reachable(nodes, a, c)
  {
    var k :| ReachableWithin(nodes, a, x, k);
    ReachableWithinStep(nodes, a, x, c, k);
  }

  /** A set closed under children that holds `a` holds all that `a` reaches. */
  lemma {:induction false} ClosedSetHoldsReachable(nodes: map<MetaNodeID, MetaNode>, closed: set<MetaNodeID>,
                                                  a: MetaNodeID, b: MetaNodeID, k: nat)
    requires a in closed && ClosedUnderChildren(nodes, closed)
    requires ReachableWithin(nodes, a, b, k)
    ensures b in closed
    decreases k
  {
    if a != b {
      var c :| c in ChildrenOf(nodes, a) && ReachableWithin(nodes, c, b, k - 1);
      ClosedSetHoldsReachable(nodes, closed, c, b, k - 1);
    }
  }

  /** Every node and every link target is below `counter`: the size of the
      seen bit vector the searches allocate. */
  ghost predicate IdsBelow(nodes: map<MetaNodeID, MetaNode>, counter: nat)
  {
    (forall x :: x in nodes ==> x < counter) &&
    (forall x, c :: x in nodes && c in ChildrenOf(nodes, x) ==> c < counter)
  }

  /** Search invariant: every node on the stack is a reachable, in-range ID. */
  ghost predicate StackReachable(nodes: map<MetaNodeID, MetaNode>, counter: nat, root: MetaNodeID, stack: seq<MetaNodeID>)
  {
    forall c :: c in stack ==> c < counter && Reachable(nodes, root, c)
  }

  /** Search invariant: every visited node is a reachable, in-range ID. */
  ghost predicate VisitedReachable(nodes: map<MetaNodeID, MetaNode>, counter: nat, root: MetaNodeID, visited: set<MetaNodeID>)
  {
    forall x :: x in visited ==> x < counter && Reachable(nodes, root, x)
  }

  /** Search invariant: each child of a visited node is visited or waits on
      the stack. */
  ghost predicate FrontierOnStack(nodes: map<MetaNodeID, MetaNode>, visited: set<MetaNodeID>, stack: seq<MetaNodeID>)
  {
    forall x, c :: x in visited && c in ChildrenOf(nodes, x) ==> c in visited || c in stack
  }

  /** Popping a node that was already seen keeps the search invariants. */
  lemma PopSeenStep(nodes: map<MetaNodeID, MetaNode>, counter: nat, root: MetaNodeID,
                    visited: set<MetaNodeID>, stack: seq<MetaNodeID>)
    requires |stack| > 0 && stack[|stack| - 1] in visited
    requires StackReachable(nodes, counter, root, stack)
    requires FrontierOnStack(nodes, visited, stack)
    requires root in visited || root in stack
    ensures StackReachable(nodes, counter, root, stack[..|stack| - 1])
    ensures FrontierOnStack(nodes, visited, stack[..|stack| - 1])
    ensures root in visited || root in stack[..|stack| - 1]
  {
    assert stack == stack[..|stack| - 1] + [stack[|stack| - 1]];
  }

  /** Popping an unseen node, marking it visited and pushing its children
      keeps the search invariants. */
  lemma PopUnseenStep(nodes: map<MetaNodeID, MetaNode>, counter: nat, root: MetaNodeID,
                      visited: set<MetaNodeID>, stack: seq<MetaNodeID>, next: seq<MetaNodeID>)
    requires IdsBelow(nodes, counter)
    requires |stack| > 0
    requires next == stack[..|stack| - 1] + ChildrenOf(nodes, stack[|stack| - 1])
    requires StackReachable(nodes, counter, root, stack)
    requires VisitedReachable(nodes, counter, root, visited)
    requires FrontierOnStack(nodes, visited, stack)
    requires root in visited || root in stack
    ensures StackReachable(nodes, counter, root, next)
    ensures VisitedReachable(nodes, counter, root, visited + {stack[|stack| - 1]})
    ensures FrontierOnStack(nodes, visited + {stack[|stack| - 1]}, next)
    ensures root in visited + {stack[|stack| - 1]} || root in next
  {
    var x := stack[|stack| - 1];
    var rest := stack[..|stack| - 1];
    assert stack == rest + [x];
    assert x in stack;
    forall c | c in next ensures c < counter && Reachable(nodes, root, c) {
      if c !in rest {
        assert c in ChildrenOf(nodes, x) && x in nodes;
        assert Reachable(nodes, root, x);
        ReachableStep(nodes, root, x, c);
        assert c < counter;
      } else {
        assert c in stack;
      }
    }
    forall y, c | y in visited + {x} && c in ChildrenOf(nodes, y) ensures c in visited + {x} || c in next {
      if y != x && c !in visited {
        assert c in stack;
      }
    }
  }

  /** At the end of a search whose stack is empty, the visited set is
      exactly the set of nodes reachable from the root. */
  lemma SearchComplete(nodes: map<MetaNodeID, MetaNode>, counter: nat, root: MetaNodeID, visited: set<MetaNodeID>)
    requires VisitedReachable(nodes, counter, root, visited)
    requires FrontierOnStack(nodes, visited, [])
    requires root in visited
    ensures forall x :: x in visited <==> Reachable(nodes, root, x)
  {
    assert ClosedUnderChildren(nodes, visited) by {
      forall y, c | y in visited && c in ChildrenOf(nodes, y) ensures c in visited {
        assert c !in [];
      }
    }
    forall x ensures x in visited <==> Reachable(nodes, root, x) {
      if Reachable(nodes, root, x) {
        var k :| ReachableWithin(nodes, root, x, k);
        ClosedSetHoldsReachable(nodes, visited, root, x, k);
      }
    }
  }

  /** Search invariant: the seen bit vector marks exactly the visited
      nodes, and the unvisited in-range IDs are the rest. */
  ghost predicate SeenTracksVisited(seen: seq<bool>, counter: nat, visited: set<MetaNodeID>, unvisited: set<MetaNodeID>)
  {
    |seen| == counter &&
    (forall i :: 0 <= i < counter ==> (seen[i] <==> i in visited) && (i in visited <==> i !in unvisited)) &&
    (forall x :: x in unvisited ==> x < counter)
  }

  /** Setting the bit of an already seen node changes nothing. */
  lemma SetSeenBitAgain(seen: seq<bool>, counter: nat, visited: set<MetaNodeID>, unvisited: set<MetaNodeID>, x: MetaNodeID)
    requires SeenTracksVisited(seen, counter, visited, unvisited)
    requires x < counter && seen[x]
    ensures seen[x := true] == seen
    ensures x in visited
  {
  }

  /** Setting the bit of an unseen node moves it from unvisited to visited. */
  lemma SetSeenBitFirst(seen: seq<bool>, counter: nat, visited: set<MetaNodeID>, unvisited: set<MetaNodeID>, x: MetaNodeID)
    requires SeenTracksVisited(seen, counter, visited, unvisited)
    requires x < counter && !seen[x]
    ensures SeenTracksVisited(seen[x := true], counter, visited + {x}, unvisited - {x})
    ensures x in unvisited && x !in visited
  {
  }

  /** No element occurs twice. */
  ghost predicate NoDuplicates(s: seq<MetaNodeID>)
  {
    forall i, j :: 0 <= i < j < |s| ==> s[i] != s[j]
  }

  /** Appending a new element keeps a sequence free of duplicates. */
  lemma AppendNew(s: seq<MetaNodeID>, x: MetaNodeID)
    requires NoDuplicates(s) && x !in s
    ensures NoDuplicates(s + [x])
  {
  }

  /** The child-pushing loop of both searches: pushes the targets of the
      filled child slots of `x`, in slot order. */
  method PushChildren(nodes: map<MetaNodeID, MetaNode>, x: MetaNodeID, stack: seq<MetaNodeID>)
    returns (next: seq<MetaNodeID>)
    ensures next == stack + ChildrenOf(nodes, x)
  {
    next := stack;
    if x in nodes {
      var links := nodes[x].linksToChildren;
      for j := 0 to |links|
        invariant next == stack + LinkedNodes(links[..j])
      {
        assert links[..j + 1][..j] == links[..j];
        if links[j].Some? {
          next := next + [links[j].value.toNode];
        }
      }
      assert links[..|links|] == links;
    }
  }

  /** `node_can_reach_other`: a depth-first search from `nodeId` over child
      links with an explicit stack and a seen bit vector of `nodeIdCounter`
      entries, stopping as soon as `otherNodeId` is popped. */
  method NodeCanReachOther(nodes: map<MetaNodeID, MetaNode>, nodeIdCounter: nat,
                           nodeId: MetaNodeID, otherNodeId: MetaNodeID) returns (r: bool)
    requires IdsBelow(nodes, nodeIdCounter)
    requires nodeId < nodeIdCounter
    ensures r <==> Reachable(nodes, nodeId, otherNodeId)
  {
    var stack: seq<MetaNodeID> := [nodeId];
    var seen := seq(nodeIdCounter, _ => false);
    ghost var visited: set<MetaNodeID> := {};
    ghost var unvisited: set<MetaNodeID> := set i: MetaNodeID | i < |seen| && !seen[i];
    assert ReachableWithin(nodes, nodeId, nodeId, 0);
    while |stack| > 0
      invariant SeenTracksVisited(seen, nodeIdCounter, visited, unvisited)
      invariant VisitedReachable(nodes, nodeIdCounter, nodeId, visited)
      invariant StackReachable(nodes, nodeIdCounter, nodeId, stack)
      invariant FrontierOnStack(nodes, visited, stack)
      invariant nodeId in visited || nodeId in stack
      invariant otherNodeId !in visited
      decreases |unvisited|, |stack|
    {
      var x := stack[|stack| - 1];
      assert x in stack;
      var wasSeen := seen[x];
      if wasSeen {
        SetSeenBitAgain(seen, nodeIdCounter, visited, unvisited, x);
      } else {
        SetSeenBitFirst(seen, nodeIdCounter, visited, unvisited, x);
      }
      seen := seen[x := true];
      if wasSeen {
        PopSeenStep(nodes, nodeIdCounter, nodeId, visited, stack);
        stack := stack[..|stack| - 1];
        continue;
      }
      if x == otherNodeId {
        return true;
      }
      var next := PushChildren(nodes, x, stack[..|stack| - 1]);
      PopUnseenStep(nodes, nodeIdCounter, nodeId, visited, stack, next);
      stack := next;
      visited := visited + {x};
      unvisited := unvisited - {x};
    }
    SearchComplete(nodes, nodeIdCounter, nodeId, visited);
    return false;
  }

  /** `obtain_subtree`: the same depth-first search, listing every node it
      visits; the result starts with the root and holds each node reachable
      from it exactly once. */
  method ObtainSubtree(nodes: map<MetaNodeID, MetaNode>, nodeIdCounter: nat, nodeId: MetaNodeID)
    returns (subtreeNodeIds: seq<MetaNodeID>)
    requires IdsBelow(nodes, nodeIdCounter)
    requires nodeId < nodeIdCounter
    ensures |subtreeNodeIds| > 0 && subtreeNodeIds[0] == nodeId
    ensures NoDuplicates(subtreeNodeIds)
    ensures forall x :: x in subtreeNodeIds <==> Reachable(nodes, nodeId, x)
  {
    subtreeNodeIds := [];
    var stack: seq<MetaNodeID> := [nodeId];
    var seen := seq(nodeIdCounter, _ => false);
    ghost var visited: set<MetaNodeID> := {};
    ghost var unvisited: set<MetaNodeID> := set i: MetaNodeID | i < |seen| && !seen[i];
    assert ReachableWithin(nodes, nodeId, nodeId, 0);
    while |stack| > 0
      invariant SeenTracksVisited(seen, nodeIdCounter, visited, unvisited)
      invariant VisitedReachable(nodes, nodeIdCounter, nodeId, visited)
      invariant StackReachable(nodes, nodeIdCounter, nodeId, stack)
      invariant FrontierOnStack(nodes, visited, stack)
      invariant nodeId in visited || nodeId in stack
      invariant forall x :: x in subtreeNodeIds <==> x in visited
      invariant NoDuplicates(subtreeNodeIds)
      invariant |subtreeNodeIds| == 0 ==> stack == [nodeId]
      invariant |subtreeNodeIds| > 0 ==> subtreeNodeIds[0] == nodeId
      decreases |unvisited|, |stack|
    {
      var x := stack[|stack| - 1];
      assert x in stack;
      var wasSeen := seen[x];
      if wasSeen {
        SetSeenBitAgain(seen, nodeIdCounter, visited, unvisited, x);
      } else {
        SetSeenBitFirst(seen, nodeIdCounter, visited, unvisited, x);
      }
      seen := seen[x := true];
      if wasSeen {
        PopSeenStep(nodes, nodeIdCounter, nodeId, visited, stack);
        stack := stack[..|stack| - 1];
        continue;
      }
      AppendNew(subtreeNodeIds, x);
      subtreeNodeIds := subtreeNodeIds + [x];
      var next := PushChildren(nodes, x, stack[..|stack| - 1]);
      PopUnseenStep(nodes, nodeIdCounter, nodeId, visited, stack, next);
      stack := next;
      visited := visited + {x};
      unvisited := unvisited - {x};
    }
    SearchComplete(nodes, nodeIdCounter, nodeId, visited);
  }

  // ---------------------------------------------------------------------
  // Attaching
  // ---------------------------------------------------------------------

  /** Whether `can_attach` allows linking child slot `c` of `parentId` to
      parent slot `p` of `childId`: the two nodes differ, the child does not
      already reach the parent (the link would close a cycle), both nodes and
      both slots exist, and `allowed` accepts the child's output type for the
      data type the parent slot expects. */
  ghost predicate AttachAllowed(nodes: map<MetaNodeID, MetaNode>, parentId: MetaNodeID, c: nat,
                                childId: MetaNodeID, p: nat, allowed: (EdgeDataType, EdgeDataType) -> bool)
  {
    parentId != childId &&
    !Reachable(nodes, childId, parentId) &&
    parentId in nodes && childId in nodes &&
    c < |nodes[parentId].linksToChildren| &&
    p < |nodes[childId].linksToParents| &&
    c < |nodes[parentId].inputDataTypes| &&
    allowed(nodes[parentId].inputDataTypes[c], nodes[childId].outputDataType)
  }

  /** The node map after a successful `try_attach`: the child's parent slot
      is detached and then pointed at the parent, and the parent's child slot
      is detached and then pointed at the child. */
  function AttachedNodes(nodes: map<MetaNodeID, MetaNode>, parentId: MetaNodeID, c: nat,
                         childId: MetaNodeID, p: nat): map<MetaNodeID, MetaNode>
  {
    var detachedFromOldParent := DetachParentNodes(nodes, childId, p);
    var linkedToParent := SetParentLink(detachedFromOldParent, childId, p, Some(MetaNodeLink(parentId, c)));
    var detachedFromOldChild := DetachChildNodes(linkedToParent, parentId, c);
    SetChildLink(detachedFromOldChild, parentId, c, Some(MetaNodeLink(childId, p)))
  }

  /** The pending edge after a successful `try_attach`: each of the two
      detaches drops it when it starts at an end of the link it removes. */
  function AttachedPending(nodes: map<MetaNodeID, MetaNode>, pending: Option<PendingEdge>,
                           parentId: MetaNodeID, c: nat, childId: MetaNodeID, p: nat): (r: Option<PendingEdge>)
    ensures r == pending || r.None?
  {
    var afterFirst := match ParentAt(nodes, childId, p)
      case Some(l) => PendingAfterDetach(pending, childId, p, l.toNode, l.toSlot)
      case None => pending;
    var linkedToParent := SetParentLink(DetachParentNodes(nodes, childId, p), childId, p, Some(MetaNodeLink(parentId, c)));
    match ChildAt(linkedToParent, parentId, c)
    case Some(l) => PendingAfterDetach(afterFirst, l.toNode, l.toSlot, parentId, c)
    case None => afterFirst
  }

  /** `after` is `nodes` with child slot `c` of `parentId` linked to parent
      slot `p` of `childId`, the slots their previous links led to emptied,
      and nothing else changed. */
  ghost predicate Relinked(nodes: map<MetaNodeID, MetaNode>, after: map<MetaNodeID, MetaNode>,
                           parentId: MetaNodeID, c: nat, childId: MetaNodeID, p: nat)
  {
    SameNodes(nodes, after) &&
    (forall x: MetaNodeID, s: nat ::
      ParentAt(after, x, s) ==
        (if x == childId && s == p then Some(MetaNodeLink(parentId, c))
         else if ChildAt(nodes, parentId, c) == Some(MetaNodeLink(x, s)) then None
         else ParentAt(nodes, x, s))) &&
    (forall x: MetaNodeID, s: nat ::
      ChildAt(after, x, s) ==
        (if x == parentId && s == c then Some(MetaNodeLink(childId, p))
         else if ParentAt(nodes, childId, p) == Some(MetaNodeLink(x, s)) then None
         else ChildAt(nodes, x, s)))
  }

  /** The four steps of `try_attach` relink the two slots. */
  lemma AttachedNodesRelink(nodes: map<MetaNodeID, MetaNode>, parentId: MetaNodeID, c: nat, childId: MetaNodeID, p: nat)
    requires LinksSymmetric(nodes)
    requires parentId in nodes && c < |nodes[parentId].linksToChildren|
    requires childId in nodes && p < |nodes[childId].linksToParents|
    ensures Relinked(nodes, AttachedNodes(nodes, parentId, c, childId, p), parentId, c, childId, p)
  {
    var m1 := DetachParentNodes(nodes, childId, p);
    DetachParentNodesAt(nodes, childId, p);
    DetachParentKeepsSymmetry(nodes, childId, p);
    var m2 := SetParentLink(m1, childId, p, Some(MetaNodeLink(parentId, c)));
    SetParentLinkAt(m1, childId, p, Some(MetaNodeLink(parentId, c)));
    var m3 := DetachChildNodes(m2, parentId, c);
    DetachChildNodesAt(m2, parentId, c);
    var r := SetChildLink(m3, parentId, c, Some(MetaNodeLink(childId, p)));
    SetChildLinkAt(m3, parentId, c, Some(MetaNodeLink(childId, p)));
    MirroredEnds(nodes, childId, p, parentId, c);
    assert ChildAt(m2, parentId, c) ==
      (if ChildAt(nodes, parentId, c) == Some(MetaNodeLink(childId, p)) then None else ChildAt(nodes, parentId, c));
    forall x: MetaNodeID, s: nat ensures
      ParentAt(r, x, s) ==
        (if x == childId && s == p then Some(MetaNodeLink(parentId, c))
         else if ChildAt(nodes, parentId, c) == Some(MetaNodeLink(x, s)) then None
         else ParentAt(nodes, x, s))
    {
      assert ParentAt(r, x, s) == ParentAt(m3, x, s);
    }
    forall x: MetaNodeID, s: nat ensures
      ChildAt(r, x, s) ==
        (if x == parentId && s == c then Some(MetaNodeLink(childId, p))
         else if ParentAt(nodes, childId, p) == Some(MetaNodeLink(x, s)) then None
         else ChildAt(nodes, x, s))
    {
      assert ChildAt(m3, x, s) == (if x == parentId && s == c then None else ChildAt(m1, x, s));
    }
  }

  /** Relinking two existing slots of a graph with symmetric links keeps
      the links symmetric. */
  lemma RelinkedKeepsSymmetry(nodes: map<MetaNodeID, MetaNode>, after: map<MetaNodeID, MetaNode>,
                              parentId: MetaNodeID, c: nat, childId: MetaNodeID, p: nat)
    requires LinksSymmetric(nodes)
    requires parentId in nodes && c < |nodes[parentId].linksToChildren|
    requires childId in nodes && p < |nodes[childId].linksToParents|
    requires Relinked(nodes, after, parentId, c, childId, p)
    ensures LinksSymmetric(after)
  {
    forall x: MetaNodeID, s: nat ensures ParentLinkMirrored(after, x, s) {
      if ParentAt(after, x, s).Some? && !(x == childId && s == p) {
        var l := ParentAt(nodes, x, s).value;
        MirroredEnds(nodes, x, s, l.toNode, l.toSlot);
        MirroredEnds(nodes, childId, p, l.toNode, l.toSlot);
      }
    }
    forall x: MetaNodeID, s: nat ensures ChildLinkMirrored(after, x, s) {
      if ChildAt(after, x, s).Some? && !(x == parentId && s == c) {
        var l := ChildAt(nodes, x, s).value;
        MirroredEnds(nodes, l.toNode, l.toSlot, x, s);
        MirroredEnds(nodes, l.toNode, l.toSlot, parentId, c);
      }
    }
  }

  /** Attaching in a graph whose links are symmetric sets both ends of the
      new link, empties the slots that the two previous occupants held at
      their other ends, changes nothing else, and keeps links symmetric. */
  lemma AttachLinksBothEnds(nodes: map<MetaNodeID, MetaNode>, parentId: MetaNodeID, c: nat, childId: MetaNodeID, p: nat)
    requires LinksSymmetric(nodes)
    requires parentId in nodes && c < |nodes[parentId].linksToChildren|
    requires childId in nodes && p < |nodes[childId].linksToParents|
    ensures Relinked(nodes, AttachedNodes(nodes, parentId, c, childId, p), parentId, c, childId, p)
    ensures LinksSymmetric(AttachedNodes(nodes, parentId, c, childId, p))
  {
    AttachedNodesRelink(nodes, parentId, c, childId, p);
    RelinkedKeepsSymmetry(nodes, AttachedNodes(nodes, parentId, c, childId, p), parentId, c, childId, p);
  }

  // ---------------------------------------------------------------------
  // Removing a node
  // ---------------------------------------------------------------------

  /** The link, if any, leads to node `id` and lands on a slot below `k`. */
  predicate LinksBelow(o: Option<MetaNodeLink>, id: MetaNodeID, k: nat)
  {
    o.Some? && o.value.toNode == id && o.value.toSlot < k
  }

  /** Some parent slot of `id` below `k` is filled. */
  ghost predicate SomeParentBefore(nodes: map<MetaNodeID, MetaNode>, id: MetaNodeID, k: nat)
  {
    exists s: nat :: s < k && ParentAt(nodes, id, s).Some?
  }

  /** Some child slot of `id` below `k` is filled. */
  ghost predicate SomeChildBefore(nodes: map<MetaNodeID, MetaNode>, id: MetaNodeID, k: nat)
  {
    exists s: nat :: s < k && ChildAt(nodes, id, s).Some?
  }

  /** Node `id` holds at least one link. */
  ghost predicate HasLinks(nodes: map<MetaNodeID, MetaNode>, id: MetaNodeID)
  {
    (exists s: nat :: ParentAt(nodes, id, s).Some?) || (exists s :: ChildAt(nodes, id, s).Some?)
  }

  /** `after` is `before` with node `id` gone and every link that led to it
      emptied, nothing else changed. */
  ghost predicate NodeUnlinkedAndRemoved(before: map<MetaNodeID, MetaNode>, after: map<MetaNodeID, MetaNode>, id: MetaNodeID)
  {
    after.Keys == before.Keys - {id} &&
    (forall x :: x in after ==> SameShape(before[x], after[x])) &&
    (forall x: MetaNodeID, s: nat ::
      ParentAt(after, x, s) ==
        (if x == id || LinksTo(ParentAt(before, x, s), id) then None else ParentAt(before, x, s))) &&
    (forall x: MetaNodeID, s: nat ::
      ChildAt(after, x, s) ==
        (if x == id || LinksTo(ChildAt(before, x, s), id) then None else ChildAt(before, x, s)))
  }

  /** Removing a node keeps every remaining ID below the counter and every
      remaining child slot typed. */
  lemma RemovalKeepsShapes(before: map<MetaNodeID, MetaNode>, after: map<MetaNodeID, MetaNode>, id: MetaNodeID, counter: nat)
    requires forall x :: x in before ==> x < counter && |before[x].inputDataTypes| == |before[x].linksToChildren|
    requires NodeUnlinkedAndRemoved(before, after, id)
    ensures forall x :: x in after ==> x < counter && |after[x].inputDataTypes| == |after[x].linksToChildren|
  {
  }

  /** Removing a node together with every link to it keeps links symmetric. */
  lemma RemovalKeepsSymmetry(before: map<MetaNodeID, MetaNode>, after: map<MetaNodeID, MetaNode>, id: MetaNodeID)
    requires LinksSymmetric(before)
    requires NodeUnlinkedAndRemoved(before, after, id)
    ensures LinksSymmetric(after)
  {
    forall x: MetaNodeID, s: nat ensures ParentLinkMirrored(after, x, s) {
      if ParentAt(after, x, s).Some? {
        var l := ParentAt(before, x, s).value;
        MirroredEnds(before, x, s, l.toNode, l.toSlot);
      }
    }
    forall x: MetaNodeID, s: nat ensures ChildLinkMirrored(after, x, s) {
      if ChildAt(after, x, s).Some? {
        var l := ChildAt(before, x, s).value;
        MirroredEnds(before, l.toNode, l.toSlot, x, s);
      }
    }
  }

  /** Loop invariant of the first loop of `remove_single_node`: parent slots
      below `k` of `id` are detached, at both ends. */
  ghost predicate ParentSlotsDetached(before: map<MetaNodeID, MetaNode>, nodes: map<MetaNodeID, MetaNode>, id: MetaNodeID, k: nat)
  {
    SameNodes(before, nodes) && LinksSymmetric(nodes) &&
    (forall x: MetaNodeID, s: nat ::
      ParentAt(nodes, x, s) == (if x == id && s < k then None else ParentAt(before, x, s))) &&
    (forall x: MetaNodeID, s: nat ::
      ChildAt(nodes, x, s) == (if LinksBelow(ChildAt(before, x, s), id, k) then None else ChildAt(before, x, s)))
  }

  /** Loop invariant of the second loop of `remove_single_node`: all parent
      slots and the child slots below `k` of `id` are detached, at both ends. */
  ghost predicate ChildSlotsDetached(before: map<MetaNodeID, MetaNode>, nodes: map<MetaNodeID, MetaNode>, id: MetaNodeID, k: nat)
  {
    SameNodes(before, nodes) && LinksSymmetric(nodes) &&
    (forall x: MetaNodeID, s: nat ::
      ParentAt(nodes, x, s) ==
        (if x == id || LinksBelow(ParentAt(before, x, s), id, k) then None else ParentAt(before, x, s))) &&
    (forall x: MetaNodeID, s: nat ::
      ChildAt(nodes, x, s) ==
        (if (x == id && s < k) || LinksTo(ChildAt(before, x, s), id) then None else ChildAt(before, x, s)))
  }

  lemma ParentSlotsDetachedStep(before: map<MetaNodeID, MetaNode>, nodes: map<MetaNodeID, MetaNode>, id: MetaNodeID, k: nat)
    requires LinksSymmetric(before)
    requires ParentSlotsDetached(before, nodes, id, k)
    ensures ParentSlotsDetached(before, DetachParentNodes(nodes, id, k), id, k + 1)
  {
    DetachParentNodesAt(nodes, id, k);
    DetachParentKeepsSymmetry(nodes, id, k);
  }

  lemma ParentSlotsDone(before: map<MetaNodeID, MetaNode>, nodes: map<MetaNodeID, MetaNode>, id: MetaNodeID, n: nat)
    requires LinksSymmetric(before)
    requires n == if id in before then |before[id].linksToParents| else 0
    requires ParentSlotsDetached(before, nodes, id, n)
    ensures ChildSlotsDetached(before, nodes, id, 0)
  {
    forall x: MetaNodeID, s: nat ensures
      ChildAt(nodes, x, s) == (if LinksTo(ChildAt(before, x, s), id) then None else ChildAt(before, x, s))
    {
      if LinksTo(ChildAt(before, x, s), id) {
        MirroredEnds(before, id, ChildAt(before, x, s).value.toSlot, x, s);
      }
    }
  }

  lemma ChildSlotsDetachedStep(before: map<MetaNodeID, MetaNode>, nodes: map<MetaNodeID, MetaNode>, id: MetaNodeID, k: nat)
    requires LinksSymmetric(before)
    requires ChildSlotsDetached(before, nodes, id, k)
    ensures ChildSlotsDetached(before, DetachChildNodes(nodes, id, k), id, k + 1)
  {
    DetachChildNodesAt(nodes, id, k);
    DetachChildKeepsSymmetry(nodes, id, k);
  }

  lemma ChildSlotsDone(before: map<MetaNodeID, MetaNode>, nodes: map<MetaNodeID, MetaNode>, id: MetaNodeID, n: nat)
    requires LinksSymmetric(before)
    requires n == if id in before then |before[id].linksToChildren| else 0
    requires ChildSlotsDetached(before, nodes, id, n)
    ensures NodeUnlinkedAndRemoved(before, nodes - {id}, id)
  {
    var after := nodes - {id};
    forall x: MetaNodeID, s: nat ensures
      ParentAt(after, x, s) ==
        (if x == id || LinksTo(ParentAt(before, x, s), id) then None else ParentAt(before, x, s))
    {
      if LinksTo(ParentAt(before, x, s), id) {
        MirroredEnds(before, x, s, id, ParentAt(before, x, s).value.toSlot);
      }
    }
  }

  /** Which of the `remove_single_node` detaches flag a change: a filled
      parent slot always does; a filled child slot does unless the first
      loop already emptied it, which only happens for a link from the node
      to itself, whose parent end was filled. */
  lemma DetachedFlagStep(before: map<MetaNodeID, MetaNode>, nodes: map<MetaNodeID, MetaNode>, id: MetaNodeID, nP: nat, k: nat)
    requires LinksSymmetric(before)
    requires nP == if id in before then |before[id].linksToParents| else 0
    requires ChildSlotsDetached(before, nodes, id, k)
    ensures (SomeParentBefore(before, id, nP) || SomeChildBefore(before, id, k) || ChildAt(nodes, id, k).Some?) <==>
            (SomeParentBefore(before, id, nP) || SomeChildBefore(before, id, k + 1))
  {
    if ChildAt(before, id, k).Some? {
      var l := ChildAt(before, id, k).value;
      if l.toNode == id {
        MirroredEnds(before, id, l.toSlot, id, k);
        assert ParentAt(before, id, l.toSlot).Some?;
      }
    }
  }

  lemma HasLinksBefore(before: map<MetaNodeID, MetaNode>, id: MetaNodeID, nP: nat, nC: nat)
    requires nP == if id in before then |before[id].linksToParents| else 0
    requires nC == if id in before then |before[id].linksToChildren| else 0
    ensures HasLinks(before, id) <==> SomeParentBefore(before, id, nP) || SomeChildBefore(before, id, nC)
  {
  }

  /** Every child listed by `ChildrenOf` is at the other end of a filled
      child slot, so in a graph with symmetric links it is a node. */
  lemma ChildrenAreNodes(nodes: map<MetaNodeID, MetaNode>, x: MetaNodeID, c: MetaNodeID)
    requires LinksSymmetric(nodes)
    requires c in ChildrenOf(nodes, x)
    ensures c in nodes
  {
    var i :| 0 <= i < |nodes[x].linksToChildren| && nodes[x].linksToChildren[i].Some? && nodes[x].linksToChildren[i].value.toNode == c;
    assert ChildAt(nodes, x, i).Some?;
    assert ChildLinkMirrored(nodes, x, i);
  }

  /** The change flags `try_attach` accumulates over its two detaches and
      two attaches. */
  lemma DetachFlagsCombine(changes: MetaGraphChanges, first: bool, second: bool,
                            afterFirst: MetaGraphChanges, afterSecond: MetaGraphChanges)
    requires afterFirst == (if first then changes + {NodeDetached} else changes) + {NodeAttached}
    requires afterSecond == (if second then afterFirst + {NodeDetached} else afterFirst) + {NodeAttached}
    ensures afterSecond == changes + {NodeAttached} + (if first || second then {NodeDetached} else {})
  {
  }

  // ---------------------------------------------------------------------
  // The canvas
  // ---------------------------------------------------------------------

  /** `MetaGraphCanvas` without its drawing, panning and layout state. */
  class MetaGraphCanvas {
    var nodes: map<MetaNodeID, MetaNode>
    var collapsedNodes: set<MetaNodeID>
    var selectedNodeId: Option<MetaNodeID>
    var pendingEdge: Option<PendingEdge>
    var nodeIdCounter: MetaNodeID

    /** Every link is recorded at both ends, every node ID was handed out by
        the counter, and each child slot has an expected data type. */
    ghost predicate Valid()
      reads this
    {
      LinksSymmetric(nodes) &&
      (forall x :: x in nodes ==> x < nodeIdCounter && |nodes[x].inputDataTypes| == |nodes[x].linksToChildren|)
    }

    /** `new`: an empty canvas. */
    constructor ()
      ensures Valid()
      ensures nodes == map[] && collapsedNodes == {} && selectedNodeId == None
      ensures pendingEdge == None && nodeIdCounter == 0
    {
      nodes := map[];
      collapsedNodes := {};
      selectedNodeId := None;
      pendingEdge := None;
      nodeIdCounter := 0;
    }

    /** `next_node_id`: hands out the counter and increments it; the ID is
        not used by any node. */
    method NextNodeId() returns (nodeId: MetaNodeID)
      requires Valid()
      modifies this
      ensures nodeId == old(nodeIdCounter) && nodeIdCounter == old(nodeIdCounter) + 1
      ensures nodeId !in nodes
      ensures nodes == old(nodes) && collapsedNodes == old(collapsedNodes)
      ensures selectedNodeId == old(selectedNodeId) && pendingEdge == old(pendingEdge)
      ensures Valid()
    {
      nodeId := nodeIdCounter;
      nodeIdCounter := nodeIdCounter + 1;
    }

    /** `detach_parent_of`: empties parent slot `parentSlotOnChild` of the
        child and the child slot it named, returning the removed link; an
        empty or missing slot changes nothing. */
    method DetachParentOf(childNodeId: MetaNodeID, parentSlotOnChild: nat, changes: MetaGraphChanges)
      returns (link: Option<MetaNodeLink>, changesOut: MetaGraphChanges)
      modifies this
      ensures link == ParentAt(old(nodes), childNodeId, parentSlotOnChild)
      ensures nodes == DetachParentNodes(old(nodes), childNodeId, parentSlotOnChild)
      ensures pendingEdge == match link
        case Some(l) => PendingAfterDetach(old(pendingEdge), childNodeId, parentSlotOnChild, l.toNode, l.toSlot)
        case None => old(pendingEdge)
      ensures changesOut == if link.Some? then changes + {NodeDetached} else changes
      ensures collapsedNodes == old(collapsedNodes) && selectedNodeId == old(selectedNodeId)
      ensures nodeIdCounter == old(nodeIdCounter)
      ensures old(Valid()) ==> Valid()
    {
      link := None;
      changesOut := changes;
      if childNodeId !in nodes {
        return;
      }
      var childNode := nodes[childNodeId];
      if parentSlotOnChild >= |childNode.linksToParents| || childNode.linksToParents[parentSlotOnChild].None? {
        return;
      }
      var childLinkToParent := childNode.linksToParents[parentSlotOnChild].value;
      nodes := nodes[childNodeId := childNode.(linksToParents := childNode.linksToParents[parentSlotOnChild := None])];
      changesOut := changesOut + {NodeDetached};
      pendingEdge := PendingAfterDetach(pendingEdge, childNodeId, parentSlotOnChild,
                                        childLinkToParent.toNode, childLinkToParent.toSlot);
      if childLinkToParent.toNode in nodes && childLinkToParent.toSlot < |nodes[childLinkToParent.toNode].linksToChildren| {
        var parentNode := nodes[childLinkToParent.toNode];
        nodes := nodes[childLinkToParent.toNode :=
          parentNode.(linksToChildren := parentNode.linksToChildren[childLinkToParent.toSlot := None])];
        changesOut := changesOut + {NodeDetached};
      }
      link := Some(childLinkToParent);
      DetachParentNodesAt(old(nodes), childNodeId, parentSlotOnChild);
      if old(Valid()) {
        DetachParentKeepsSymmetry(old(nodes), childNodeId, parentSlotOnChild);
      }
    }

    /** `detach_child_of`: the mirror image of `DetachParentOf`. */
    method DetachChildOf(parentNodeId: MetaNodeID, childSlotOnParent: nat, changes: MetaGraphChanges)
      returns (link: Option<MetaNodeLink>, changesOut: MetaGraphChanges)
      modifies this
      ensures link == ChildAt(old(nodes), parentNodeId, childSlotOnParent)
      ensures nodes == DetachChildNodes(old(nodes), parentNodeId, childSlotOnParent)
      ensures pendingEdge == match link
        case Some(l) => PendingAfterDetach(old(pendingEdge), l.toNode, l.toSlot, parentNodeId, childSlotOnParent)
        case None => old(pendingEdge)
      ensures changesOut == if link.Some? then changes + {NodeDetached} else changes
      ensures collapsedNodes == old(collapsedNodes) && selectedNodeId == old(selectedNodeId)
      ensures nodeIdCounter == old(nodeIdCounter)
      ensures old(Valid()) ==> Valid()
    {
      link := None;
      changesOut := changes;
      if parentNodeId !in nodes {
        return;
      }
      var parentNode := nodes[parentNodeId];
      if childSlotOnParent >= |parentNode.linksToChildren| || parentNode.linksToChildren[childSlotOnParent].None? {
        return;
      }
      var parentLinkToChild := parentNode.linksToChildren[childSlotOnParent].value;
      nodes := nodes[parentNodeId := parentNode.(linksToChildren := parentNode.linksToChildren[childSlotOnParent := None])];
      changesOut := changesOut + {NodeDetached};
      pendingEdge := PendingAfterDetach(pendingEdge, parentLinkToChild.toNode, parentLinkToChild.toSlot,
                                        parentNodeId, childSlotOnParent);
      if parentLinkToChild.toNode in nodes && parentLinkToChild.toSlot < |nodes[parentLinkToChild.toNode].linksToParents| {
        var childNode := nodes[parentLinkToChild.toNode];
        nodes := nodes[parentLinkToChild.toNode :=
          childNode.(linksToParents := childNode.linksToParents[parentLinkToChild.toSlot := None])];
        changesOut := changesOut + {NodeDetached};
      }
      link := Some(parentLinkToChild);
      DetachChildNodesAt(old(nodes), parentNodeId, childSlotOnParent);
      if old(Valid()) {
        DetachChildKeepsSymmetry(old(nodes), parentNodeId, childSlotOnParent);
      }
    }

    /** `can_attach`, with the cycle test done by `NodeCanReachOther`. */
    method CanAttach(parentNodeId: MetaNodeID, childSlotOnParent: nat, childNodeId: MetaNodeID,
                     parentSlotOnChild: nat, connectionAllowed: (EdgeDataType, EdgeDataType) -> bool)
      returns (r: bool)
      requires Valid()
      requires childNodeId < nodeIdCounter
      ensures r <==> AttachAllowed(nodes, parentNodeId, childSlotOnParent, childNodeId, parentSlotOnChild, connectionAllowed)
    {
      if parentNodeId == childNodeId {
        return false;
      }
      forall x, c | x in nodes && c in ChildrenOf(nodes, x) ensures c < nodeIdCounter {
        ChildrenAreNodes(nodes, x, c);
      }
      var reaches := NodeCanReachOther(nodes, nodeIdCounter, childNodeId, parentNodeId);
      if reaches {
        return false;
      }
      if parentNodeId !in nodes || childNodeId !in nodes {
        return false;
      }
      var parentNode := nodes[parentNodeId];
      var childNode := nodes[childNodeId];
      if childSlotOnParent >= |parentNode.linksToChildren| {
        return false;
      }
      if parentSlotOnChild >= |childNode.linksToParents| {
        return false;
      }
      return connectionAllowed(parentNode.inputDataTypes[childSlotOnParent], childNode.outputDataType);
    }

    /** `try_attach`: when `can_attach` allows it, detaches whatever occupied
        the two slots and links them to each other. */
    method TryAttach(parentNodeId: MetaNodeID, childSlotOnParent: nat, childNodeId: MetaNodeID,
                     parentSlotOnChild: nat, changes: MetaGraphChanges,
                     connectionAllowed: (EdgeDataType, EdgeDataType) -> bool)
      returns (attached: bool, changesOut: MetaGraphChanges)
      requires Valid()
      requires childNodeId < nodeIdCounter
      modifies this
      ensures attached <==>
        AttachAllowed(old(nodes), parentNodeId, childSlotOnParent, childNodeId, parentSlotOnChild, connectionAllowed)
      ensures !attached ==> nodes == old(nodes) && pendingEdge == old(pendingEdge) && changesOut == changes
      ensures attached ==> nodes == AttachedNodes(old(nodes), parentNodeId, childSlotOnParent, childNodeId, parentSlotOnChild)
      ensures attached ==>
        pendingEdge == AttachedPending(old(nodes), old(pendingEdge), parentNodeId, childSlotOnParent, childNodeId, parentSlotOnChild)
      ensures attached ==>
        changesOut == changes + {NodeAttached} +
          (if ParentAt(old(nodes), childNodeId, parentSlotOnChild).Some? || ChildAt(old(nodes), parentNodeId, childSlotOnParent).Some?
           then {NodeDetached} else {})
      ensures collapsedNodes == old(collapsedNodes) && selectedNodeId == old(selectedNodeId)
      ensures nodeIdCounter == old(nodeIdCounter)
      ensures Valid()
    {
      var allowed := CanAttach(parentNodeId, childSlotOnParent, childNodeId, parentSlotOnChild, connectionAllowed);
      if !allowed {
        return false, changes;
      }
      ghost var nodes0 := nodes;
      AttachLinksBothEnds(nodes, parentNodeId, childSlotOnParent, childNodeId, parentSlotOnChild);
      MirroredEnds(nodes, childNodeId, parentSlotOnChild, parentNodeId, childSlotOnParent);
      DetachParentNodesAt(nodes, childNodeId, parentSlotOnChild);
      var oldParentLink, ch := DetachParentOf(childNodeId, parentSlotOnChild, changes);
      ghost var m1 := nodes;
      var childNode := nodes[childNodeId];
      nodes := nodes[childNodeId := childNode.(linksToParents :=
        childNode.linksToParents[parentSlotOnChild := Some(MetaNodeLink(parentNodeId, childSlotOnParent))])];
      ch := ch + {NodeAttached};
      assert ch == (if oldParentLink.Some? then changes + {NodeDetached} else changes) + {NodeAttached};
      SetParentLinkAt(m1, childNodeId, parentSlotOnChild, Some(MetaNodeLink(parentNodeId, childSlotOnParent)));
      assert ChildAt(nodes, parentNodeId, childSlotOnParent) == ChildAt(m1, parentNodeId, childSlotOnParent);
      var oldChildLink, ch2 := DetachChildOf(parentNodeId, childSlotOnParent, ch);
      var parentNode := nodes[parentNodeId];
      nodes := nodes[parentNodeId := parentNode.(linksToChildren :=
        parentNode.linksToChildren[childSlotOnParent := Some(MetaNodeLink(childNodeId, parentSlotOnChild))])];
      changesOut := ch2 + {NodeAttached};
      assert changesOut == (if oldChildLink.Some? then ch + {NodeDetached} else ch) + {NodeAttached};
      attached := true;
      assert oldParentLink.Some? || oldChildLink.Some? <==>
        ParentAt(nodes0, childNodeId, parentSlotOnChild).Some? || ChildAt(nodes0, parentNodeId, childSlotOnParent).Some?;
      DetachFlagsCombine(changes, oldParentLink.Some?, oldChildLink.Some?, ch, changesOut);
    }

    /** The first loop of `remove_single_node`: detaches the node's parent
        slots one by one, which also clears the child slots that pointed at
        them. */
    method DetachParentSlots(nodeId: MetaNodeID, n: nat, changes: MetaGraphChanges)
      returns (changesOut: MetaGraphChanges)
      requires LinksSymmetric(nodes)
      requires n == if nodeId in nodes then |nodes[nodeId].linksToParents| else 0
      modifies this
      ensures ChildSlotsDetached(old(nodes), nodes, nodeId, 0)
      ensures changesOut == changes + (if SomeParentBefore(old(nodes), nodeId, n) then {NodeDetached} else {})
      ensures pendingEdge == old(pendingEdge) || pendingEdge.None?
      ensures collapsedNodes == old(collapsedNodes) && selectedNodeId == old(selectedNodeId)
      ensures nodeIdCounter == old(nodeIdCounter)
    {
      changesOut := changes;
      for slot := 0 to n
        invariant ParentSlotsDetached(old(nodes), nodes, nodeId, slot)
        invariant changesOut == changes + (if SomeParentBefore(old(nodes), nodeId, slot) then {NodeDetached} else {})
        invariant pendingEdge == old(pendingEdge) || pendingEdge.None?
        invariant collapsedNodes == old(collapsedNodes) && selectedNodeId == old(selectedNodeId)
        invariant nodeIdCounter == old(nodeIdCounter)
      {
        ParentSlotsDetachedStep(old(nodes), nodes, nodeId, slot);
        assert SomeParentBefore(old(nodes), nodeId, slot + 1) <==>
               SomeParentBefore(old(nodes), nodeId, slot) || ParentAt(old(nodes), nodeId, slot).Some?;
        var _, detachedChanges := DetachParentOf(nodeId, slot, changesOut);
        changesOut := detachedChanges;
      }
      ParentSlotsDone(old(nodes), nodes, nodeId, n);
    }

    /** The second loop of `remove_single_node`: detaches the node's child
        slots one by one. `before` is the graph before the first loop, whose
        detachments `changes` already records. */
    method DetachChildSlots(ghost before: map<MetaNodeID, MetaNode>, nodeId: MetaNodeID, nP: nat, n: nat,
                            changes: MetaGraphChanges)
      returns (changesOut: MetaGraphChanges)
      requires LinksSymmetric(before)
      requires nP == if nodeId in before then |before[nodeId].linksToParents| else 0
      requires n == if nodeId in before then |before[nodeId].linksToChildren| else 0
      requires ChildSlotsDetached(before, nodes, nodeId, 0)
      requires SomeParentBefore(before, nodeId, nP) ==> NodeDetached in changes
      modifies this
      ensures NodeUnlinkedAndRemoved(before, nodes - {nodeId}, nodeId)
      ensures changesOut ==
        changes + (if SomeParentBefore(before, nodeId, nP) || SomeChildBefore(before, nodeId, n) then {NodeDetached} else {})
      ensures pendingEdge == old(pendingEdge) || pendingEdge.None?
      ensures collapsedNodes == old(collapsedNodes) && selectedNodeId == old(selectedNodeId)
      ensures nodeIdCounter == old(nodeIdCounter)
    {
      changesOut := changes;
      for slot := 0 to n
        invariant ChildSlotsDetached(before, nodes, nodeId, slot)
        invariant changesOut == changes +
          (if SomeParentBefore(before, nodeId, nP) || SomeChildBefore(before, nodeId, slot) then {NodeDetached} else {})
        invariant pendingEdge == old(pendingEdge) || pendingEdge.None?
        invariant collapsedNodes == old(collapsedNodes) && selectedNodeId == old(selectedNodeId)
        invariant nodeIdCounter == old(nodeIdCounter)
      {
        ChildSlotsDetachedStep(before, nodes, nodeId, slot);
        DetachedFlagStep(before, nodes, nodeId, nP, slot);
        var _, detachedChanges := DetachChildOf(nodeId, slot, changesOut);
        changesOut := detachedChanges;
      }
      ChildSlotsDone(before, nodes, nodeId, n);
    }

    /** `remove_single_node`: the output node is never removed. Any other
        node loses every link, at both ends, then is deleted together with
        its collapse mark and the selection if it was selected. */
    method RemoveSingleNode(nodeId: MetaNodeID, changes: MetaGraphChanges) returns (changesOut: MetaGraphChanges)
      requires Valid()
      modifies this
      ensures nodeId in old(nodes) && old(nodes)[nodeId].isOutput ==>
        (nodes == old(nodes) && collapsedNodes == old(collapsedNodes) && selectedNodeId == old(selectedNodeId) &&
         pendingEdge == old(pendingEdge) && changesOut == changes)
      ensures !(nodeId in old(nodes) && old(nodes)[nodeId].isOutput) ==>
        (NodeUnlinkedAndRemoved(old(nodes), nodes, nodeId) &&
         collapsedNodes == old(collapsedNodes) - {nodeId} &&
         selectedNodeId == (if old(selectedNodeId) == Some(nodeId) then None else old(selectedNodeId)) &&
         (pendingEdge == old(pendingEdge) || pendingEdge.None?) &&
         changesOut == changes + {NodeRemoved} +
           (if HasLinks(old(nodes), nodeId) then {NodeDetached} else {}) +
           (if nodeId in old(collapsedNodes) then {CollapsedStateChanged} else {}))
      ensures nodeIdCounter == old(nodeIdCounter)
      ensures Valid()
    {
      changesOut := changes;
      if nodeId in nodes && nodes[nodeId].isOutput {
        return;
      }
      if selectedNodeId == Some(nodeId) {
        selectedNodeId := None;
      }
      ghost var before := nodes;
      var nParentSlots, nChildSlots := 0, 0;
      if nodeId in nodes {
        nParentSlots, nChildSlots := |nodes[nodeId].linksToParents|, |nodes[nodeId].linksToChildren|;
      }
      changesOut := DetachParentSlots(nodeId, nParentSlots, changesOut);
      changesOut := DetachChildSlots(before, nodeId, nParentSlots, nChildSlots, changesOut);
      HasLinksBefore(before, nodeId, nParentSlots, nChildSlots);
      nodes := nodes - {nodeId};
      RemovalKeepsSymmetry(before, nodes, nodeId);
      RemovalKeepsShapes(before, nodes, nodeId, nodeIdCounter);
      changesOut := changesOut + {NodeRemoved};
      if nodeId in collapsedNodes {
        collapsedNodes := collapsedNodes - {nodeId};
        changesOut := changesOut + {CollapsedStateChanged};
      }
    }

    /** `set_node_collapsed`: adds or removes the collapse mark, flagging a
        change exactly when the mark set changes. */
    method SetNodeCollapsed(nodeId: MetaNodeID, collapsed: bool, changes: MetaGraphChanges)
      returns (changesOut: MetaGraphChanges)
      modifies this
      ensures collapsedNodes == if collapsed then old(collapsedNodes) + {nodeId} else old(collapsedNodes) - {nodeId}
      ensures changesOut == if collapsedNodes != old(collapsedNodes) then changes + {CollapsedStateChanged} else changes
      ensures changesOut != changes <==> (nodeId in old(collapsedNodes)) != collapsed && CollapsedStateChanged !in changes
      ensures nodes == old(nodes) && selectedNodeId == old(selectedNodeId) && pendingEdge == old(pendingEdge)
      ensures nodeIdCounter == old(nodeIdCounter)
    {
      changesOut := changes;
      if collapsed {
        if nodeId !in collapsedNodes {
          collapsedNodes := collapsedNodes + {nodeId};
          changesOut := changesOut + {CollapsedStateChanged};
        }
      } else if nodeId in collapsedNodes {
        collapsedNodes := collapsedNodes - {nodeId};
        changesOut := changesOut + {CollapsedStateChanged};
      }
    }
  }
}
