/** Resolution of every meta node kind and the depth-first compilation of a
    meta SDF graph into an atomic SDF graph
    (engine/crates/impact_voxel/src/generation/sdf/meta.rs). */
module MetaSDFBuild {
  import opened Wrappers
  import opened MetaSDF

  // ---------------------------------------------------------------------
  // What the model takes from outside
  // ---------------------------------------------------------------------

  /** What a surface computation makes of one SDF subject: a translation
      for the two translation kinds, a rotation for `RotationToGradient`. */
  datatype Adjustment = Translate(translation: Vector3) | Rotate(rotation: UnitQuaternion)

  /** The random draws of a stochastic selection: whether a single input is
      kept, the indices `choose_multiple` picks from a group, and which of
      the picked entries pass the probability test. */
  datatype Selection = Selection(single: bool, chosen: seq<nat>, kept: seq<bool>)

  /** The parts of the build that are floating-point computation or random
      sampling, as functions of what they depend on:
      - `mix2` and `mix3`: the two- and three-state splitmix mixers;
      - `paramsValid(node, seed)`: the node's parameter distributions sample
        without error under the seed;
      - `sourceTransforms(node, seed)`: the transforms a transform source
        emits;
      - `transformOp(node, seed, k, t)`: what a transform operation makes of
        its `k`-th input transform `t`;
      - `generatorOk(g, sdf)`: an SDF generator can be built for `sdf`;
      - `surfaceSdf` and `surfaceTransform`: the surface computation for an
        SDF subject or a transform subject, `None` when it finds nothing;
      - `selection(node, seed)`: the draws of a stochastic selection. */
  datatype Environment = Environment(
    mix2: (nat, nat) -> nat,
    mix3: (nat, nat, nat) -> nat,
    paramsValid: (MetaSDFNode, nat) -> bool,
    sourceTransforms: (MetaSDFNode, nat) -> seq<Similarity3>,
    transformOp: (MetaSDFNode, nat, nat, Similarity3) -> Similarity3,
    generatorOk: (seq<SDFNode>, SDFNodeID) -> bool,
    surfaceSdf: (MetaSDFNode, seq<SDFNode>, SDFNodeID, SDFNodeID) -> Option<Adjustment>,
    surfaceTransform: (MetaSDFNode, seq<SDFNode>, SDFNodeID, Similarity3) -> Option<Similarity3>,
    selection: (MetaSDFNode, nat) -> Selection)

  // ---------------------------------------------------------------------
  // Transform sources and unary transform operations
  // ---------------------------------------------------------------------

  /** `MetaStratifiedGridTransforms::resolve` and
      `MetaSphereSurfaceTransforms::resolve`: a group of transforms, or the
      sampling error. */
  function ResolveTransformSource(node: MetaSDFNode, seed: nat, env: Environment): (r: Result<MetaSDFNodeOutput, BuildError>)
    ensures r.Err? <==> !env.paramsValid(node, seed)
    ensures r.Ok? ==> r.value == TransformGroup(env.sourceTransforms(node, seed))
  {
    if !env.paramsValid(node, seed) then Err(InvalidParameters(node))
    else Ok(TransformGroup(env.sourceTransforms(node, seed)))
  }

  function TransformOpName(op: TransformOpKind): string
  {
    match op
    case TransformTranslation => "TransformTranslation"
    case TransformRotation => "TransformRotation"
    case TransformScaling => "TransformScaling"
  }

  /** `unary_transform_group_op`: one output transform per input, in order,
      stopping at the first failed parameter sampling. */
  method UnaryTransformGroupOp(node: MetaSDFNode, seed: nat, inputs: seq<Similarity3>, env: Environment)
    returns (r: Result<seq<Similarity3>, BuildError>)
    ensures r.Err? ==> r.error == InvalidParameters(node)
    ensures r.Err? <==> inputs != [] && !env.paramsValid(node, seed)
    ensures r.Ok? ==> (|r.value| == |inputs| &&
      forall k | 0 <= k < |inputs| :: r.value[k] == env.transformOp(node, seed, k, inputs[k]))
  {
    var outputs: seq<Similarity3> := [];
    for k := 0 to |inputs|
      invariant |outputs| == k
      invariant forall j | 0 <= j < k :: outputs[j] == env.transformOp(node, seed, j, inputs[j])
      invariant k > 0 ==> env.paramsValid(node, seed)
    {
      if !env.paramsValid(node, seed) {
        return Err(InvalidParameters(node));
      }
      outputs := outputs + [env.transformOp(node, seed, k, inputs[k])];
    }
    r := Ok(outputs);
  }

  /** `resolve_unary_transform_op`: a missing transform stays missing, a
      single transform and each transform of a group are transformed, any
      other input is an error. */
  method ResolveTransformOp(node: MetaSDFNode, childOutput: MetaSDFNodeOutput, seed: nat, env: Environment)
    returns (r: Result<MetaSDFNodeOutput, BuildError>)
    ensures r.Err? ==> r.error.UnexpectedInput? || r.error == InvalidParameters(node)
    requires node.TransformOp?
    ensures r.Err? <==>
      !(childOutput.SingleTransform? || childOutput.TransformGroup?) ||
      (!env.paramsValid(node, seed) &&
       ((childOutput.SingleTransform? && childOutput.transform.Some?) ||
        (childOutput.TransformGroup? && childOutput.transforms != [])))
    ensures r.Ok? && childOutput.SingleTransform? ==>
      r.value == SingleTransform(if childOutput.transform.Some?
                                 then Some(env.transformOp(node, seed, 0, childOutput.transform.value))
                                 else None)
    ensures r.Ok? && childOutput.TransformGroup? ==>
      r.value.TransformGroup? && |r.value.transforms| == |childOutput.transforms|
  {
    match childOutput {
      case SingleTransform(None) =>
        r := Ok(SingleTransform(None));
      case SingleTransform(Some(t)) =>
        if !env.paramsValid(node, seed) {
          r := Err(InvalidParameters(node));
        } else {
          r := Ok(SingleTransform(Some(env.transformOp(node, seed, 0, t))));
        }
      case TransformGroup(ts) =>
        var group := UnaryTransformGroupOp(node, seed, ts, env);
        if group.Err? {
          r := Err(group.error);
        } else {
          r := Ok(TransformGroup(group.value));
        }
      case _ =>
        r := Err(UnexpectedInput(TransformOpName(node.op), Label(childOutput)));
    }
  }

  // ---------------------------------------------------------------------
  // Surface operations
  // ---------------------------------------------------------------------

  function SurfaceOpName(op: SurfaceOpKind): string
  {
    match op
    case ClosestTranslationToSurface => "ClosestTranslationToSurface"
    case RayTranslationToSurface => "RayTranslationToSurface"
    case RotationToGradient => "RotationToGradient"
  }

  /** The atomic node an adjustment of `subject` adds. */
  function AdjustedNode(subject: SDFNodeID, adjustment: Adjustment): (r: SDFNode)
    ensures Inputs(r) == [subject]
  {
    match adjustment
    case Translate(v) => TranslationNode(subject, v)
    case Rotate(q) => RotationNode(subject, q)
  }

  /** The subjects of a group the surface computation finds an adjustment
      for, in order, each with its adjustment. */
  function SurfaceHits(node: MetaSDFNode, g: seq<SDFNode>, surface: SDFNodeID, subjects: seq<SDFNodeID>,
                       env: Environment): (r: seq<(SDFNodeID, Adjustment)>)
    ensures |r| <= |subjects|
    ensures forall h | h in r :: h.0 in subjects && env.surfaceSdf(node, g, surface, h.0) == Some(h.1)
    decreases |subjects|
  {
    if subjects == [] then []
    else
      var last := subjects[|subjects| - 1];
      var hits := SurfaceHits(node, g, surface, subjects[..|subjects| - 1], env);
      assert forall h | h in hits :: h.0 in subjects;
      match env.surfaceSdf(node, g, surface, last)
      case None => hits
      case Some(a) => hits + [(last, a)]
  }

  /** `graph` extends `g` with one adjusted node per hit, in order, and
      `outputIds` names them. */
  ghost predicate AdjustedFor(g: seq<SDFNode>, graph: seq<SDFNode>, outputIds: seq<SDFNodeID>,
                              hits: seq<(SDFNodeID, Adjustment)>)
  {
    |graph| == |g| + |hits| && g <= graph && |outputIds| == |hits| &&
    forall k | 0 <= k < |hits| :: outputIds[k] == |g| + k && graph[|g| + k] == AdjustedNode(hits[k].0, hits[k].1)
  }

  lemma AdjustedForExtend(g: seq<SDFNode>, graph: seq<SDFNode>, outputIds: seq<SDFNodeID>,
                          hits: seq<(SDFNodeID, Adjustment)>, subject: SDFNodeID, a: Adjustment)
    requires AdjustedFor(g, graph, outputIds, hits)
    ensures AdjustedFor(g, graph + [AdjustedNode(subject, a)], outputIds + [|graph|], hits + [(subject, a)])
  {
  }

  /** The loop of the surface operations over an SDF group: one adjusted
      node per hit, the misses skipped. */
  method AdjustSubjects(node: MetaSDFNode, g: seq<SDFNode>, surface: SDFNodeID, subjects: seq<SDFNodeID>,
                        env: Environment)
    returns (graph: seq<SDFNode>, outputIds: seq<SDFNodeID>)
    ensures var hits := SurfaceHits(node, g, surface, subjects, env);
      |graph| == |g| + |hits| && g <= graph && |outputIds| == |hits| &&
      forall k | 0 <= k < |hits| :: outputIds[k] == |g| + k && graph[|g| + k] == AdjustedNode(hits[k].0, hits[k].1)
  {
    graph := g;
    outputIds := [];
    ghost var hits: seq<(SDFNodeID, Adjustment)> := [];
    for i := 0 to |subjects|
      invariant hits == SurfaceHits(node, g, surface, subjects[..i], env)
      invariant AdjustedFor(g, graph, outputIds, hits)
    {
      assert subjects[..i + 1][..i] == subjects[..i];
      match env.surfaceSdf(node, g, surface, subjects[i]) {
        case None =>
        case Some(a) =>
          AdjustedForExtend(g, graph, outputIds, hits, subjects[i], a);
          outputIds := outputIds + [|graph|];
          graph := graph + [AdjustedNode(subjects[i], a)];
          hits := hits + [(subjects[i], a)];
      }
    }
    assert subjects[..|subjects|] == subjects;
  }

  /** The transforms of a group the surface computation adjusts, in order. */
  function AdjustedTransforms(node: MetaSDFNode, g: seq<SDFNode>, surface: SDFNodeID, ts: seq<Similarity3>,
                              env: Environment): (r: seq<Similarity3>)
    ensures |r| <= |ts|
    decreases |ts|
  {
    if ts == [] then []
    else
      var adjusted := AdjustedTransforms(node, g, surface, ts[..|ts| - 1], env);
      match env.surfaceTransform(node, g, surface, ts[|ts| - 1])
      case None => adjusted
      case Some(t) => adjusted + [t]
  }

  /** The loop of the surface operations over a transform group. */
  method AdjustTransforms(node: MetaSDFNode, g: seq<SDFNode>, surface: SDFNodeID, ts: seq<Similarity3>,
                          env: Environment)
    returns (outputs: seq<Similarity3>)
    ensures outputs == AdjustedTransforms(node, g, surface, ts, env)
  {
    outputs := [];
    for i := 0 to |ts|
      invariant outputs == AdjustedTransforms(node, g, surface, ts[..i], env)
    {
      assert ts[..i + 1][..i] == ts[..i];
      match env.surfaceTransform(node, g, surface, ts[i]) {
        case None =>
        case Some(t) =>
          outputs := outputs + [t];
      }
    }
    assert ts[..|ts|] == ts;
  }

  /** `ClosestTranslationToSurface`, `RayTranslationToSurface` and
      `RotationToGradient`: the surface input must be a single SDF; without
      one, or without a subject, the subject output is passed on unchanged;
      otherwise each SDF subject the computation hits gets an adjusted
      node, and each transform subject it hits an adjusted transform. */
  method ResolveSurfaceOp(node: MetaSDFNode, g: seq<SDFNode>, surfaceOutput: MetaSDFNodeOutput,
                          subjectOutput: MetaSDFNodeOutput, env: Environment)
    returns (r: Result<Resolution, BuildError>)
    ensures r.Err? ==> r.error.UnexpectedInput? || r.error == ResolveFailed(node)
    requires node.SurfaceOp?
    ensures r.Err? <==>
      !surfaceOutput.SingleSDF? ||
      (surfaceOutput.sdf.Some? && subjectOutput != SingleSDF(None) && subjectOutput != SingleTransform(None) &&
       !env.generatorOk(g, surfaceOutput.sdf.value))
    ensures r.Ok? && (surfaceOutput.sdf.None? || subjectOutput == SingleSDF(None) || subjectOutput == SingleTransform(None)) ==>
      r.value == (g, subjectOutput)
    ensures r.Ok? ==> (g <= r.value.0 &&
      (subjectOutput.SingleSDF? <==> r.value.1.SingleSDF?) && (subjectOutput.SDFGroup? <==> r.value.1.SDFGroup?) &&
      (subjectOutput.SingleTransform? <==> r.value.1.SingleTransform?) &&
      (subjectOutput.TransformGroup? <==> r.value.1.TransformGroup?))
    ensures r.Ok? && subjectOutput.SDFGroup? ==> |r.value.1.sdfs| <= |subjectOutput.sdfs|
    ensures r.Ok? && subjectOutput.TransformGroup? ==> |r.value.1.transforms| <= |subjectOutput.transforms|
    ensures r.Ok? && GraphSound(g) && OutputIn(subjectOutput, |g|) ==> SoundStep(g, r.value.0, r.value.1)
  {
    if !surfaceOutput.SingleSDF? {
      return Err(UnexpectedInput(SurfaceOpName(node.surfaceOp), Label(surfaceOutput)));
    }
    if surfaceOutput.sdf.None? || subjectOutput == SingleSDF(None) || subjectOutput == SingleTransform(None) {
      return Ok((g, subjectOutput));
    }
    var surface := surfaceOutput.sdf.value;
    if !env.generatorOk(g, surface) {
      return Err(ResolveFailed(node));
    }
    match subjectOutput {
      case SingleSDF(Some(subject)) =>
        match env.surfaceSdf(node, g, surface, subject) {
          case None =>
            r := Ok((g, SingleSDF(None)));
          case Some(a) =>
            var graph := g + [AdjustedNode(subject, a)];
            r := Ok((graph, SingleSDF(Some(|g|))));
            if GraphSound(g) && OutputIn(subjectOutput, |g|) {
              AppendKeepsSound(g, AdjustedNode(subject, a));
            }
        }
      case SDFGroup(subjects) =>
        var graph, outputIds := AdjustSubjects(node, g, surface, subjects, env);
        r := Ok((graph, SDFGroup(outputIds)));
        if GraphSound(g) && OutputIn(subjectOutput, |g|) {
          AdjustedKeepsSound(node, g, surface, subjects, env, graph, outputIds);
        }
      case SingleTransform(Some(t)) =>
        r := Ok((g, SingleTransform(env.surfaceTransform(node, g, surface, t))));
      case TransformGroup(ts) =>
        var outputs := AdjustTransforms(node, g, surface, ts, env);
        r := Ok((g, TransformGroup(outputs)));
    }
  }

  /** The nodes the group loop adds refer to existing subjects only. */
  lemma AdjustedKeepsSound(node: MetaSDFNode, g: seq<SDFNode>, surface: SDFNodeID, subjects: seq<SDFNodeID>,
                           env: Environment, graph: seq<SDFNode>, outputIds: seq<SDFNodeID>)
    requires GraphSound(g) && forall id | id in subjects :: id < |g|
    requires var hits := SurfaceHits(node, g, surface, subjects, env);
      |graph| == |g| + |hits| && g <= graph && |outputIds| == |hits| &&
      forall k | 0 <= k < |hits| :: outputIds[k] == |g| + k && graph[|g| + k] == AdjustedNode(hits[k].0, hits[k].1)
    ensures GraphSound(graph) && forall id | id in outputIds :: id < |graph|
  {
    var hits := SurfaceHits(node, g, surface, subjects, env);
    forall i, c | 0 <= i < |graph| && c in Inputs(graph[i])
      ensures c < i
    {
      if i < |g| {
        assert graph[i] == g[i];
      } else {
        assert hits[i - |g|] in hits;
      }
    }
  }

  // ---------------------------------------------------------------------
  // Stochastic selection
  // ---------------------------------------------------------------------

  /** The entries `choose_multiple` picked that pass the probability test,
      in the order they were picked. */
  function Kept<T>(items: seq<T>, chosen: seq<nat>, kept: seq<bool>): (r: seq<T>)
    ensures |r| <= |chosen|
    ensures forall x | x in r :: x in items
    decreases |chosen|
  {
    if chosen == [] then []
    else
      var k := |chosen| - 1;
      var prefix := Kept(items, chosen[..k], kept);
      if chosen[k] < |items| && k < |kept| && kept[k] then prefix + [items[chosen[k]]] else prefix
  }

  /** The loop of `MetaStochasticSelection::resolve` over a group. */
  method SelectFromGroup<T>(items: seq<T>, chosen: seq<nat>, kept: seq<bool>) returns (outputs: seq<T>)
    ensures outputs == Kept(items, chosen, kept)
  {
    outputs := [];
    for k := 0 to |chosen|
      invariant outputs == Kept(items, chosen[..k], kept)
    {
      assert chosen[..k + 1][..k] == chosen[..k];
      if chosen[k] < |items| && k < |kept| && kept[k] {
        outputs := outputs + [items[chosen[k]]];
      }
    }
    assert chosen[..|chosen|] == chosen;
  }

  /** `MetaStochasticSelection::resolve`: keeps the kind of its input and
      passes on a selection of its entries; it never fails and adds no
      atomic node. */
  method ResolveStochasticSelection(childOutput: MetaSDFNodeOutput, selection: Selection)
    returns (output: MetaSDFNodeOutput)
    ensures childOutput.SingleSDF? ==>
      output == SingleSDF(if selection.single then childOutput.sdf else None)
    ensures childOutput.SingleTransform? ==>
      output == SingleTransform(if selection.single then childOutput.transform else None)
    ensures childOutput.SDFGroup? ==> (output.SDFGroup? &&
      output.sdfs == Kept(childOutput.sdfs, selection.chosen, selection.kept))
    ensures childOutput.TransformGroup? ==> (output.TransformGroup? &&
      output.transforms == Kept(childOutput.transforms, selection.chosen, selection.kept))
    ensures forall n: nat :: OutputIn(childOutput, n) ==> OutputIn(output, n)
  {
    match childOutput {
      case SingleSDF(None) =>
        output := SingleSDF(None);
      case SingleTransform(None) =>
        output := SingleTransform(None);
      case SingleSDF(Some(id)) =>
        output := SingleSDF(if selection.single then Some(id) else None);
      case SingleTransform(Some(t)) =>
        output := SingleTransform(if selection.single then Some(t) else None);
      case SDFGroup(ids) =>
        var selected := SelectFromGroup(ids, selection.chosen, selection.kept);
        output := SDFGroup(selected);
      case TransformGroup(ts) =>
        var selected := SelectFromGroup(ts, selection.chosen, selection.kept);
        output := TransformGroup(selected);
    }
  }

  // ---------------------------------------------------------------------
  // Dispatch
  // ---------------------------------------------------------------------

  /** `MetaSDFNode::resolve`: the resolution of a node from the outputs of
      its children and its seed. The result extends the atomic graph, and a
      sound graph with outputs naming its nodes stays so. */
  method Resolve(node: MetaSDFNode, g: seq<SDFNode>, outputs: seq<MetaSDFNodeOutput>, seed: nat, env: Environment)
    returns (r: Result<Resolution, BuildError>)
    ensures r.Err? ==> NodeError(r.error)
    requires ChildrenBelow(node, |outputs|)
    ensures r.Ok? && GraphSound(g) && (forall c | c in ChildIds(node) :: OutputIn(outputs[c], |g|)) ==>
      SoundStep(g, r.value.0, r.value.1)
    ensures node.Primitive? ==> r == ResolvePrimitive(g, node.primitive, env.paramsValid(node, seed), node)
    ensures node.SDFUnion? ==> r == ResolveUnion(g, outputs[node.child1Id], outputs[node.child2Id], node.smoothness)
    ensures node.SDFSubtraction? ==>
      r == ResolveSubtraction(g, outputs[node.child1Id], outputs[node.child2Id], node.smoothness)
    ensures node.SDFIntersection? ==>
      r == ResolveIntersection(g, outputs[node.child1Id], outputs[node.child2Id], node.smoothness)
    ensures node.TransformSource? ==>
      r == (var t := ResolveTransformSource(node, seed, env); if t.Ok? then Ok((g, t.value)) else Err(t.error))
    ensures (node.TransformOp? || node.StochasticSelection?) && r.Ok? ==> r.value.0 == g
    ensures node.StochasticSelection? ==> r.Ok?
  {
    ChildrenBelowListed(node, |outputs|);
    match node {
      case Primitive(kind, _) =>
        r := ResolvePrimitive(g, kind, env.paramsValid(node, seed), node);
      case SDFModifier(kind, c, _) =>
        r := ResolveSDFModifier(g, kind, outputs[c], env.paramsValid(node, seed), node);
      case SDFUnion(c1, c2, smoothness) =>
        r := ResolveUnion(g, outputs[c1], outputs[c2], smoothness);
      case SDFSubtraction(c1, c2, smoothness) =>
        r := ResolveSubtraction(g, outputs[c1], outputs[c2], smoothness);
      case SDFIntersection(c1, c2, smoothness) =>
        r := ResolveIntersection(g, outputs[c1], outputs[c2], smoothness);
      case SDFGroupUnion(c, smoothness) =>
        r := ResolveGroupUnion(g, outputs[c], smoothness);
      case TransformSource(_, _) =>
        var t := ResolveTransformSource(node, seed, env);
        r := if t.Ok? then Ok((g, t.value)) else Err(t.error);
      case TransformOp(_, c, _) =>
        var t := ResolveTransformOp(node, outputs[c], seed, env);
        r := if t.Ok? then Ok((g, t.value)) else Err(t.error);
      case SurfaceOp(_, c1, c2) =>
        r := ResolveSurfaceOp(node, g, outputs[c1], outputs[c2], env);
      case TransformApplication(c1, c2) =>
        r := ResolveTransformApplication(g, outputs[c1], outputs[c2]);
      case StochasticSelection(c, _) =>
        var output := ResolveStochasticSelection(outputs[c], env.selection(node, seed));
        r := Ok((g, output));
    }
  }

  // ---------------------------------------------------------------------
  // Paths in the meta graph
  // ---------------------------------------------------------------------

  /** A walk from parent to child: every entry but the last is a node of
      the graph, and each next entry is one of its children. */
  ghost predicate IsPath(nodes: seq<MetaSDFNode>, path: seq<MetaSDFNodeID>)
  {
    |path| >= 1 &&
    forall k | 0 <= k < |path| - 1 :: path[k] < |nodes| && path[k + 1] in ChildIds(nodes[path[k]])
  }

  /** What the build needs of the part of the graph reachable from the
      root: every walk from the root stays among the nodes and never comes
      back to a node it has passed. */
  ghost predicate ReachableSound(nodes: seq<MetaSDFNode>, root: MetaSDFNodeID)
  {
    forall path | IsPath(nodes, path) && path[0] == root ::
      (forall k | 0 <= k < |path| :: path[k] < |nodes|) &&
      (forall i, j | 0 <= i < j < |path| :: path[i] != path[j])
  }

  lemma PathExtend(nodes: seq<MetaSDFNode>, path: seq<MetaSDFNodeID>, c: MetaSDFNodeID)
    requires IsPath(nodes, path) && path[|path| - 1] < |nodes| && c in ChildIds(nodes[path[|path| - 1]])
    ensures IsPath(nodes, path + [c])
  {
    var ext := path + [c];
    forall k | 0 <= k < |ext| - 1
      ensures ext[k] < |nodes| && ext[k + 1] in ChildIds(nodes[ext[k]])
    {
      if k < |path| - 1 {
        assert ext[k] == path[k] && ext[k + 1] == path[k + 1];
      }
    }
  }

  lemma PathConcat(nodes: seq<MetaSDFNode>, p1: seq<MetaSDFNodeID>, p2: seq<MetaSDFNodeID>)
    requires IsPath(nodes, p1) && IsPath(nodes, p2) && p1[|p1| - 1] == p2[0]
    ensures IsPath(nodes, p1 + p2[1..]) && (p1 + p2[1..])[0] == p1[0]
  {
    var path := p1 + p2[1..];
    forall k | 0 <= k < |path| - 1
      ensures path[k] < |nodes| && path[k + 1] in ChildIds(nodes[path[k]])
    {
      if k < |p1| - 1 {
        assert path[k] == p1[k] && path[k + 1] == p1[k + 1];
      } else {
        var m := k - (|p1| - 1);
        assert path[k] == p2[m] && path[k + 1] == p2[m + 1];
      }
    }
  }

  // ---------------------------------------------------------------------
  // The depth-first build
  // ---------------------------------------------------------------------

  datatype BuildOperation = VisitChildren(id: MetaSDFNodeID) | Process(id: MetaSDFNodeID)

  datatype MetaNodeBuildState = Unvisited | ChildrenBeingVisited | Resolved

  /** The visits pushed for the children of a node: the second child first,
      so that the first child is on top. */
  function ChildVisits(node: MetaSDFNode): (r: seq<BuildOperation>)
    ensures forall op | op in r :: op.VisitChildren? && op.id in ChildIds(node)
    ensures forall c | c in ChildIds(node) :: VisitChildren(c) in r
  {
    var cs := ChildIds(node);
    if |cs| == 0 then []
    else if |cs| == 1 then [VisitChildren(cs[0])]
    else [VisitChildren(cs[1]), VisitChildren(cs[0])]
  }

  /** The position of the nearest `Process` entry below position `q`. */
  ghost function OwnerPos(stack: seq<BuildOperation>, q: nat): (r: Option<nat>)
    requires q <= |stack|
    ensures r.None? ==> forall p | 0 <= p < q :: !stack[p].Process?
    ensures r.Some? ==> (r.value < q && stack[r.value].Process? &&
      forall p | r.value < p < q :: !stack[p].Process?)
    decreases q
  {
    if q == 0 then None
    else if stack[q - 1].Process? then Some(q - 1)
    else OwnerPos(stack, q - 1)
  }

  lemma {:induction false} OwnerPosPrefix(s1: seq<BuildOperation>, s2: seq<BuildOperation>, q: nat)
    requires q <= |s1| && q <= |s2| && s1[..q] == s2[..q]
    ensures OwnerPos(s1, q) == OwnerPos(s2, q)
    decreases q
  {
    if q > 0 {
      assert s1[q - 1] == s1[..q][q - 1] && s2[q - 1] == s2[..q][q - 1];
      assert s1[..q - 1] == s1[..q][..q - 1] && s2[..q - 1] == s2[..q][..q - 1];
      OwnerPosPrefix(s1, s2, q - 1);
    }
  }

  /** Every entry is a visit or processing of the root with nothing being
      processed below it, or concerns a child of the nearest node being
      processed below it. */
  ghost predicate Owned(nodes: seq<MetaSDFNode>, root: MetaSDFNodeID, stack: seq<BuildOperation>, q: nat)
    requires q < |stack|
  {
    match OwnerPos(stack, q)
    case None => stack[q].id == root
    case Some(p) => stack[p].id < |nodes| && stack[q].id in ChildIds(nodes[stack[p].id])
  }

  /** The stack: processed nodes exist and appear once, and each entry is
      owned. */
  ghost predicate StackShape(nodes: seq<MetaSDFNode>, root: MetaSDFNodeID, stack: seq<BuildOperation>)
  {
    (forall q | 0 <= q < |stack| && stack[q].Process? :: stack[q].id < |nodes|) &&
    (forall a, b | 0 <= a < b < |stack| && stack[a].Process? && stack[b].Process? :: stack[a].id != stack[b].id) &&
    (forall q | 0 <= q < |stack| :: Owned(nodes, root, stack, q))
  }

  /** The states agree with the stack and the resolution order: a node is
      resolved exactly when it is in the order, and its children are being
      visited exactly when it waits on the stack to be processed. */
  ghost predicate StatesMatch(nodes: seq<MetaSDFNode>, states: seq<MetaNodeBuildState>,
                              stack: seq<BuildOperation>, order: seq<MetaSDFNodeID>)
  {
    |states| == |nodes| &&
    (forall k | 0 <= k < |order| :: order[k] < |nodes|) &&
    (forall a, b | 0 <= a < b < |order| :: order[a] != order[b]) &&
    (forall i | 0 <= i < |nodes| :: (states[i] == Resolved <==> i in order)) &&
    (forall i | 0 <= i < |nodes| :: (states[i] == ChildrenBeingVisited <==> Process(i) in stack))
  }

  /** Each child of the node waiting at position `p` is resolved or still
      has an entry above `p`. */
  ghost predicate ChildrenPending(nodes: seq<MetaSDFNode>, states: seq<MetaNodeBuildState>,
                                  stack: seq<BuildOperation>, p: nat)
    requires p < |stack| && stack[p].id < |nodes|
  {
    forall c | c in ChildIds(nodes[stack[p].id]) ::
      (c < |states| && states[c] == Resolved) || VisitChildren(c) in stack[p + 1..] || Process(c) in stack[p + 1..]
  }

  ghost predicate Pending(nodes: seq<MetaSDFNode>, states: seq<MetaNodeBuildState>, stack: seq<BuildOperation>)
  {
    forall p | 0 <= p < |stack| && stack[p].Process? && stack[p].id < |nodes| :: ChildrenPending(nodes, states, stack, p)
  }

  /** Every node is resolved after its children. */
  ghost predicate Topological(nodes: seq<MetaSDFNode>, order: seq<MetaSDFNodeID>)
  {
    forall k | 0 <= k < |order| ::
      order[k] < |nodes| && forall c | c in ChildIds(nodes[order[k]]) :: c in order[..k]
  }

  ghost predicate RootTracked(states: seq<MetaNodeBuildState>, stack: seq<BuildOperation>, root: MetaSDFNodeID)
  {
    root < |states| && (states[root] == Resolved || VisitChildren(root) in stack || Process(root) in stack)
  }

  ghost predicate OutputsSound(graph: seq<SDFNode>, outputs: seq<MetaSDFNodeOutput>)
  {
    GraphSound(graph) && forall i | 0 <= i < |outputs| :: OutputIn(outputs[i], |graph|)
  }

  lemma OwnerPosAt(stack: seq<BuildOperation>, q: nat, p: nat)
    requires p < q <= |stack| && stack[p].Process?
    requires forall m | p < m < q :: !stack[m].Process?
    ensures OwnerPos(stack, q) == Some(p)
  {
    var r := OwnerPos(stack, q);
  }

  /** Removing the top entry keeps the stack's shape. */
  lemma PopShape(nodes: seq<MetaSDFNode>, root: MetaSDFNodeID, stack: seq<BuildOperation>)
    requires stack != [] && StackShape(nodes, root, stack)
    ensures StackShape(nodes, root, stack[..|stack| - 1])
  {
    var s := stack[..|stack| - 1];
    forall q | 0 <= q < |s|
      ensures Owned(nodes, root, s, q)
    {
      assert s[..q] == stack[..q];
      OwnerPosPrefix(stack, s, q);
      assert Owned(nodes, root, stack, q);
    }
  }

  /** An entry at or below the replaced top keeps its owner. */
  lemma OwnedBelowTop(nodes: seq<MetaSDFNode>, root: MetaSDFNodeID, stack: seq<BuildOperation>,
                      s2: seq<BuildOperation>, q: nat)
    requires q < |stack| && q < |s2| && s2[..q] == stack[..q] && s2[q].id == stack[q].id
    requires Owned(nodes, root, stack, q)
    ensures Owned(nodes, root, s2, q)
  {
    OwnerPosPrefix(stack, s2, q);
  }

  /** A child visit pushed above `Process(c)` is owned by `c`. */
  lemma OwnedAboveTop(nodes: seq<MetaSDFNode>, root: MetaSDFNodeID, s2: seq<BuildOperation>,
                      t: nat, c: MetaSDFNodeID, q: nat)
    requires t < q < |s2| && s2[t] == Process(c) && c < |nodes|
    requires forall m | t < m < |s2| :: s2[m] in ChildVisits(nodes[c])
    ensures Owned(nodes, root, s2, q)
  {
    assert s2[q] in ChildVisits(nodes[c]);
    forall m | t < m < q
      ensures !s2[m].Process?
    {
      assert s2[m] in ChildVisits(nodes[c]);
    }
    OwnerPosAt(s2, q, t);
  }

  /** Replacing a visit of an unvisited node by its processing and the
      visits of its children keeps the stack's shape. */
  lemma PushShape(nodes: seq<MetaSDFNode>, root: MetaSDFNodeID, stack: seq<BuildOperation>, c: MetaSDFNodeID)
    requires stack != [] && stack[|stack| - 1] == VisitChildren(c) && c < |nodes|
    requires StackShape(nodes, root, stack) && Process(c) !in stack
    ensures StackShape(nodes, root, stack[..|stack| - 1] + [Process(c)] + ChildVisits(nodes[c]))
  {
    var t := |stack| - 1;
    var visits := ChildVisits(nodes[c]);
    var s2 := stack[..t] + [Process(c)] + visits;
    forall a | t < a < |s2|
      ensures s2[a] in visits && !s2[a].Process?
    {
      assert s2[a] == visits[a - t - 1];
    }
    forall a | 0 <= a < t
      ensures s2[a] == stack[a]
    {
    }
    forall q | 0 <= q < |s2|
      ensures Owned(nodes, root, s2, q)
    {
      if q <= t {
        assert s2[..q] == stack[..q];
        OwnedBelowTop(nodes, root, stack, s2, q);
      } else {
        OwnedAboveTop(nodes, root, s2, t, c, q);
      }
    }
  }

  /** A visit of a resolved node is dropped: the states and the pending
      children stay consistent. */
  lemma PopResolvedVisit(nodes: seq<MetaSDFNode>, root: MetaSDFNodeID, states: seq<MetaNodeBuildState>,
                         stack: seq<BuildOperation>, order: seq<MetaSDFNodeID>)
    requires stack != [] && stack[|stack| - 1].VisitChildren?
    requires stack[|stack| - 1].id < |states| && states[stack[|stack| - 1].id] == Resolved
    requires StatesMatch(nodes, states, stack, order) && Pending(nodes, states, stack) && RootTracked(states, stack, root)
    ensures var s := stack[..|stack| - 1];
      StatesMatch(nodes, states, s, order) && Pending(nodes, states, s) && RootTracked(states, s, root)
  {
    var t := |stack| - 1;
    var s := stack[..t];
    assert stack == s + [stack[t]];
    forall p | 0 <= p < |s| && s[p].Process? && s[p].id < |nodes|
      ensures ChildrenPending(nodes, states, s, p)
    {
      assert stack[p + 1..] == s[p + 1..] + [stack[t]];
      assert ChildrenPending(nodes, states, stack, p);
    }
  }

  /** An unvisited node's visit is replaced by its processing and the
      visits of its children: the states follow. */
  lemma PushStates(nodes: seq<MetaSDFNode>, root: MetaSDFNodeID, states: seq<MetaNodeBuildState>,
                   stack: seq<BuildOperation>, order: seq<MetaSDFNodeID>, c: MetaSDFNodeID)
    requires StatesMatch(nodes, states, stack, order) && RootTracked(states, stack, root)
    requires stack != [] && stack[|stack| - 1] == VisitChildren(c) && c < |nodes| && states[c] == Unvisited
    ensures var s2 := stack[..|stack| - 1] + [Process(c)] + ChildVisits(nodes[c]);
      var states2 := states[c := ChildrenBeingVisited];
      StatesMatch(nodes, states2, s2, order) && RootTracked(states2, s2, root)
  {
    var t := |stack| - 1;
    var s := stack[..t];
    var visits := ChildVisits(nodes[c]);
    var s2 := s + [Process(c)] + visits;
    var states2 := states[c := ChildrenBeingVisited];
    assert stack == s + [stack[t]];
    forall i | 0 <= i < |nodes|
      ensures states2[i] == ChildrenBeingVisited <==> Process(i) in s2
    {
      assert Process(i) !in visits;
    }
    assert RootTracked(states2, s2, root) by {
      if root == c {
        assert s2[t] == Process(c);
      } else if VisitChildren(root) in stack {
        assert VisitChildren(root) in s;
      }
    }
  }

  /** The same replacement keeps every waiting node's children pending. */
  lemma PushPending(nodes: seq<MetaSDFNode>, states: seq<MetaNodeBuildState>,
                    stack: seq<BuildOperation>, c: MetaSDFNodeID)
    requires stack != [] && stack[|stack| - 1] == VisitChildren(c) && c < |nodes| && c < |states|
    requires Pending(nodes, states, stack)
    ensures var s2 := stack[..|stack| - 1] + [Process(c)] + ChildVisits(nodes[c]);
      Pending(nodes, states[c := ChildrenBeingVisited], s2)
  {
    var t := |stack| - 1;
    var s := stack[..t];
    var visits := ChildVisits(nodes[c]);
    var s2 := s + [Process(c)] + visits;
    var states2 := states[c := ChildrenBeingVisited];
    forall p | 0 <= p < |s2| && s2[p].Process? && s2[p].id < |nodes|
      ensures ChildrenPending(nodes, states2, s2, p)
    {
      if p < t {
        PushPendingAt(nodes, states, stack, c, p);
      } else if p == t {
        assert s2[p + 1..] == visits;
      } else {
        assert false;
      }
    }
  }

  /** An entry above position `p` other than the top survives replacing the
      top. */
  lemma EntryBelowTop(stack: seq<BuildOperation>, s2: seq<BuildOperation>, p: nat, e: BuildOperation)
    requires p < |stack| - 1 && |stack| - 1 <= |s2| && stack[..|stack| - 1] == s2[..|stack| - 1]
    requires e in stack[p + 1..] && e != stack[|stack| - 1]
    ensures e in s2[p + 1..]
  {
    var i :| 0 <= i < |stack[p + 1..]| && stack[p + 1..][i] == e;
    assert stack[p + 1 + i] == e;
    assert s2[p + 1 + i] == stack[..|stack| - 1][p + 1 + i];
    assert s2[p + 1..][i] == e;
  }

  /** Replacing the top `VisitChildren(c)` by `Process(c)` and more entries
      keeps the children of the node processed at `p` pending. */
  lemma PendingSurvivesReplace(nodes: seq<MetaSDFNode>, states: seq<MetaNodeBuildState>,
                               stack: seq<BuildOperation>, s2: seq<BuildOperation>, c: MetaSDFNodeID, p: nat)
    requires p < |stack| - 1 && |stack| - 1 < |s2| && stack[..|stack| - 1] == s2[..|stack| - 1]
    requires stack[|stack| - 1] == VisitChildren(c) && s2[|stack| - 1] == Process(c) && c < |states|
    requires stack[p].Process? && stack[p].id < |nodes| && s2[p] == stack[p]
    requires ChildrenPending(nodes, states, stack, p)
    ensures ChildrenPending(nodes, states[c := ChildrenBeingVisited], s2, p)
  {
    var t := |stack| - 1;
    assert s2[p + 1..][t - p - 1] == Process(c);
    var states2 := states[c := ChildrenBeingVisited];
    forall d | d in ChildIds(nodes[stack[p].id])
      ensures (d < |states2| && states2[d] == Resolved) || VisitChildren(d) in s2[p + 1..] || Process(d) in s2[p + 1..]
    {
      if d != c {
        if VisitChildren(d) in stack[p + 1..] {
          EntryBelowTop(stack, s2, p, VisitChildren(d));
        } else if Process(d) in stack[p + 1..] {
          EntryBelowTop(stack, s2, p, Process(d));
        }
      }
    }
  }

  lemma PushPendingAt(nodes: seq<MetaSDFNode>, states: seq<MetaNodeBuildState>,
                      stack: seq<BuildOperation>, c: MetaSDFNodeID, p: nat)
    requires stack != [] && stack[|stack| - 1] == VisitChildren(c) && c < |nodes| && c < |states|
    requires p < |stack| - 1 && stack[p].Process? && stack[p].id < |nodes|
    requires ChildrenPending(nodes, states, stack, p)
    ensures var s2 := stack[..|stack| - 1] + [Process(c)] + ChildVisits(nodes[c]);
      p < |s2| && s2[p] == stack[p] && ChildrenPending(nodes, states[c := ChildrenBeingVisited], s2, p)
  {
    var t := |stack| - 1;
    var s2 := stack[..t] + [Process(c)] + ChildVisits(nodes[c]);
    assert s2[..t] == stack[..t] && s2[t] == Process(c);
    assert s2[p] == stack[p];
    PendingSurvivesReplace(nodes, states, stack, s2, c, p);
  }

  /** The node processed at the top has all its children resolved. */
  lemma ProcessChildrenResolved(nodes: seq<MetaSDFNode>, root: MetaSDFNodeID, states: seq<MetaNodeBuildState>,
                                stack: seq<BuildOperation>)
    requires stack != [] && stack[|stack| - 1].Process?
    requires StackShape(nodes, root, stack) && Pending(nodes, states, stack) && |states| == |nodes|
    ensures var x := stack[|stack| - 1].id;
      x < |nodes| && ChildrenBelow(nodes[x], |nodes|) &&
      (forall c | c in ChildIds(nodes[x]) :: c < |states| && states[c] == Resolved)
  {
    var t := |stack| - 1;
    var x := stack[t].id;
    assert ChildrenPending(nodes, states, stack, t);
    assert stack[t + 1..] == [];
    ChildrenBelowListed(nodes[x], |nodes|);
  }

  /** Processing the top node marks it resolved and appends it to the
      order: the states follow. */
  lemma ProcessStates(nodes: seq<MetaSDFNode>, root: MetaSDFNodeID, states: seq<MetaNodeBuildState>,
                      stack: seq<BuildOperation>, order: seq<MetaSDFNodeID>)
    requires StatesMatch(nodes, states, stack, order) && StackShape(nodes, root, stack) && RootTracked(states, stack, root)
    requires stack != [] && stack[|stack| - 1].Process?
    ensures var x := stack[|stack| - 1].id;
      var s := stack[..|stack| - 1];
      var states2 := states[x := Resolved];
      StatesMatch(nodes, states2, s, order + [x]) && RootTracked(states2, s, root)
  {
    var t := |stack| - 1;
    var x := stack[t].id;
    var s := stack[..t];
    assert stack == s + [stack[t]];
    assert Process(x) !in s;
    assert x !in order by {
      assert states[x] == ChildrenBeingVisited;
    }
    var order2 := order + [x];
    forall a, b | 0 <= a < b < |order2|
      ensures order2[a] != order2[b]
    {
      if b == |order| {
        assert order[a] in order;
      }
    }
  }

  /** The same step keeps every remaining waiting node's children pending. */
  lemma ProcessPending(nodes: seq<MetaSDFNode>, states: seq<MetaNodeBuildState>, stack: seq<BuildOperation>)
    requires stack != [] && stack[|stack| - 1].Process? && stack[|stack| - 1].id < |states|
    requires Pending(nodes, states, stack)
    ensures Pending(nodes, states[stack[|stack| - 1].id := Resolved], stack[..|stack| - 1])
  {
    var t := |stack| - 1;
    var x := stack[t].id;
    var s := stack[..t];
    var states2 := states[x := Resolved];
    forall p | 0 <= p < |s| && s[p].Process? && s[p].id < |nodes|
      ensures ChildrenPending(nodes, states2, s, p)
    {
      assert stack[p + 1..] == s[p + 1..] + [Process(x)];
      assert ChildrenPending(nodes, states, stack, p);
      forall d | d in ChildIds(nodes[s[p].id])
        ensures (d < |states2| && states2[d] == Resolved) || VisitChildren(d) in s[p + 1..] || Process(d) in s[p + 1..]
      {
        if d != x && Process(d) in stack[p + 1..] {
          assert Process(d) in s[p + 1..];
        }
      }
    }
  }

  /** Appending a node whose children are all in the order keeps it
      topological. */
  lemma ProcessTopological(nodes: seq<MetaSDFNode>, order: seq<MetaSDFNodeID>, x: MetaSDFNodeID)
    requires Topological(nodes, order) && x < |nodes|
    requires forall c | c in ChildIds(nodes[x]) :: c in order
    ensures Topological(nodes, order + [x])
  {
    var order2 := order + [x];
    forall k | 0 <= k < |order2|
      ensures order2[k] < |nodes| && forall c | c in ChildIds(nodes[order2[k]]) :: c in order2[..k]
    {
      if k < |order| {
        assert order2[..k] == order[..k];
      } else {
        assert order2[..k] == order;
      }
    }
  }

  /** The processed entries of the stack chain down from the root: there is
      a walk from the root to the node waiting at position `a`. */
  lemma PathFromRoot(nodes: seq<MetaSDFNode>, root: MetaSDFNodeID, stack: seq<BuildOperation>, a: nat)
    returns (path: seq<MetaSDFNodeID>)
    requires StackShape(nodes, root, stack) && a < |stack|
    ensures IsPath(nodes, path) && path[0] == root && path[|path| - 1] == stack[a].id
    decreases a
  {
    assert Owned(nodes, root, stack, a);
    match OwnerPos(stack, a) {
      case None =>
        path := [root];
      case Some(p) =>
        var prefix := PathFromRoot(nodes, root, stack, p);
        PathExtend(nodes, prefix, stack[a].id);
        path := prefix + [stack[a].id];
    }
  }

  /** There is a walk from the node waiting at position `a` to the node of
      any entry above it. */
  lemma PathBetween(nodes: seq<MetaSDFNode>, root: MetaSDFNodeID, stack: seq<BuildOperation>, a: nat, q: nat)
    returns (path: seq<MetaSDFNodeID>)
    requires StackShape(nodes, root, stack) && a < q < |stack| && stack[a].Process?
    ensures IsPath(nodes, path) && |path| >= 2 && path[0] == stack[a].id && path[|path| - 1] == stack[q].id
    decreases q
  {
    assert Owned(nodes, root, stack, q);
    var p := OwnerPos(stack, q).value;
    if p == a {
      path := [stack[a].id, stack[q].id];
    } else {
      var prefix := PathBetween(nodes, root, stack, a, p);
      PathExtend(nodes, prefix, stack[q].id);
      path := prefix + [stack[q].id];
    }
  }

  /** Meeting a node whose children are being visited again means a walk
      from the root comes back to a node it has passed. */
  lemma CycleWitness(nodes: seq<MetaSDFNode>, root: MetaSDFNodeID, states: seq<MetaNodeBuildState>,
                     stack: seq<BuildOperation>, order: seq<MetaSDFNodeID>)
    requires StatesMatch(nodes, states, stack, order) && StackShape(nodes, root, stack)
    requires stack != [] && stack[|stack| - 1].VisitChildren?
    requires stack[|stack| - 1].id < |nodes| && states[stack[|stack| - 1].id] == ChildrenBeingVisited
    ensures !ReachableSound(nodes, root)
  {
    var t := |stack| - 1;
    var c := stack[t].id;
    var a :| 0 <= a < |stack| && stack[a] == Process(c);
    var toC := PathFromRoot(nodes, root, stack, a);
    var loop := PathBetween(nodes, root, stack, a, t);
    PathConcat(nodes, toC, loop);
    var path := toC + loop[1..];
    var i, j := |toC| - 1, |toC| - 1 + (|loop| - 1);
    assert path[i] == c && path[j] == loop[|loop| - 1] == c;
  }

  /** Visiting a child ID past the last node means a walk from the root
      leaves the graph. */
  lemma MissingWitness(nodes: seq<MetaSDFNode>, root: MetaSDFNodeID, stack: seq<BuildOperation>)
    requires stack != [] && stack[|stack| - 1].VisitChildren? && stack[|stack| - 1].id >= |nodes|
    requires root < |nodes| && StackShape(nodes, root, stack)
    ensures !ReachableSound(nodes, root)
    ensures exists x | 0 <= x < |nodes| :: stack[|stack| - 1].id in ChildIds(nodes[x])
  {
    var t := |stack| - 1;
    assert Owned(nodes, root, stack, t);
    var p := OwnerPos(stack, t).value;
    var toOwner := PathFromRoot(nodes, root, stack, p);
    PathExtend(nodes, toOwner, stack[t].id);
    var path := toOwner + [stack[t].id];
    assert path[|path| - 1] >= |nodes|;
  }

  /** Along a walk from a resolved node, positions in a topological order
      strictly decrease. */
  lemma {:induction false} PathPositions(nodes: seq<MetaSDFNode>, order: seq<MetaSDFNodeID>,
                                         path: seq<MetaSDFNodeID>, start: nat)
    returns (pos: seq<nat>)
    requires Topological(nodes, order) && IsPath(nodes, path) && start < |order| && order[start] == path[0]
    ensures |pos| == |path| && pos[0] == start
    ensures forall k | 0 <= k < |path| :: pos[k] < |order| && order[pos[k]] == path[k]
    ensures forall i, j | 0 <= i < j < |path| :: pos[j] < pos[i]
    decreases |path|
  {
    if |path| == 1 {
      pos := [start];
    } else {
      assert path[1] in ChildIds(nodes[order[start]]);
      assert path[1] in order[..start];
      var j :| 0 <= j < start && order[..start][j] == path[1];
      assert IsPath(nodes, path[1..]) by {
        forall k | 0 <= k < |path[1..]| - 1
          ensures path[1..][k] < |nodes| && path[1..][k + 1] in ChildIds(nodes[path[1..][k]])
        {
          assert path[1..][k] == path[k + 1] && path[1..][k + 1] == path[k + 2];
        }
      }
      var rest := PathPositions(nodes, order, path[1..], j);
      pos := [start] + rest;
      forall k | 0 <= k < |path|
        ensures pos[k] < |order| && order[pos[k]] == path[k]
      {
        if k > 0 {
          assert pos[k] == rest[k - 1] && path[k] == path[1..][k - 1];
        }
      }
      forall a, b | 0 <= a < b < |path|
        ensures pos[b] < pos[a]
      {
        if a > 0 {
          assert pos[a] == rest[a - 1] && pos[b] == rest[b - 1];
        } else {
          assert pos[b] == rest[b - 1];
          assert rest[b - 1] <= rest[0] by {
            if b - 1 > 0 {
              assert rest[b - 1] < rest[0];
            }
          }
        }
      }
    }
  }

  /** A resolved root whose resolution order is topological has a sound
      reachable part. */
  lemma OrderGivesSoundReach(nodes: seq<MetaSDFNode>, root: MetaSDFNodeID, states: seq<MetaNodeBuildState>,
                             stack: seq<BuildOperation>, order: seq<MetaSDFNodeID>)
    requires StatesMatch(nodes, states, stack, order) && Topological(nodes, order)
    requires root < |nodes| && states[root] == Resolved
    ensures ReachableSound(nodes, root)
  {
    var start :| 0 <= start < |order| && order[start] == root;
    forall path | IsPath(nodes, path) && path[0] == root
      ensures (forall k | 0 <= k < |path| :: path[k] < |nodes|) &&
              (forall i, j | 0 <= i < j < |path| :: path[i] != path[j])
    {
      var pos := PathPositions(nodes, order, path, start);
      forall i, j | 0 <= i < j < |path|
        ensures path[i] != path[j]
      {
        assert order[pos[j]] != order[pos[i]];
      }
    }
  }

  /** The order in which a completed build resolved the nodes: the root
      is in it, no node appears twice, and every node comes after its
      children. */
  ghost predicate ResolutionOrder(nodes: seq<MetaSDFNode>, root: MetaSDFNodeID, order: seq<MetaSDFNodeID>)
  {
    root in order && Topological(nodes, order) &&
    (forall a, b | 0 <= a < b < |order| :: order[a] != order[b])
  }

  /** A resolution order holds every node reachable from the root, and
      along any walk from the root a node comes after the nodes below it. */
  lemma OrderCoversReachable(nodes: seq<MetaSDFNode>, root: MetaSDFNodeID, order: seq<MetaSDFNodeID>,
                             path: seq<MetaSDFNodeID>)
    requires ResolutionOrder(nodes, root, order) && IsPath(nodes, path) && path[0] == root
    ensures forall k | 0 <= k < |path| :: path[k] in order
    ensures forall i, j | 0 <= i < j < |path| :: exists a, b | 0 <= b < a < |order| :: order[a] == path[i] && order[b] == path[j]
  {
    var start :| 0 <= start < |order| && order[start] == root;
    var pos := PathPositions(nodes, order, path, start);
    forall k | 0 <= k < |path|
      ensures path[k] in order
    {
      assert order[pos[k]] == path[k];
    }
    forall i, j | 0 <= i < j < |path|
      ensures exists a, b | 0 <= b < a < |order| :: order[a] == path[i] && order[b] == path[j]
    {
      assert order[pos[i]] == path[i] && order[pos[j]] == path[j];
    }
  }

  /** Completing the build from the root's output: a single SDF becomes
      the graph's root, no SDF gives an empty graph, and anything else is
      an error. */
  function FinishBuild(graph: seq<SDFNode>, rootOutput: MetaSDFNodeOutput): (r: Result<SDFGraph, BuildError>)
    ensures r.Err? <==> !rootOutput.SingleSDF?
    ensures r.Err? ==> r.error == RootNotSingleSDF
    ensures r.Ok? && rootOutput.sdf.Some? ==> r.value.nodes == graph && r.value.root == rootOutput.sdf
    ensures r.Ok? && rootOutput.sdf.None? ==> r.value.nodes == [] && r.value.root.None?
    ensures r.Ok? && GraphSound(graph) && OutputIn(rootOutput, |graph|) ==>
      GraphSound(r.value.nodes) && (r.value.root.None? <==> r.value.nodes == []) &&
      (r.value.root.Some? ==> r.value.root.value < |r.value.nodes|)
  {
    match rootOutput
    case SingleSDF(sdf) =>
      if sdf.Some? then Ok(SDFGraph(graph, sdf)) else Ok(SDFGraph([], None))
    case _ => Err(RootNotSingleSDF)
  }

  /** Resolving one node with a sound step keeps every recorded output
      within the grown graph. */
  lemma ResolvedKeepsOutputs(graph: seq<SDFNode>, outputs: seq<MetaSDFNodeOutput>, x: nat,
                             after: seq<SDFNode>, output: MetaSDFNodeOutput)
    requires OutputsSound(graph, outputs) && x < |outputs| && SoundStep(graph, after, output)
    ensures OutputsSound(after, outputs[x := output])
  {
    var updated := outputs[x := output];
    forall i | 0 <= i < |updated|
      ensures OutputIn(updated[i], |after|)
    {
      if i != x {
        assert OutputIn(outputs[i], |graph|);
      }
    }
  }

  /** Everything the walk keeps true between two steps. */
  ghost predicate BuildInvariant(nodes: seq<MetaSDFNode>, root: MetaSDFNodeID, states: seq<MetaNodeBuildState>,
                                 stack: seq<BuildOperation>, order: seq<MetaSDFNodeID>,
                                 graph: seq<SDFNode>, outputs: seq<MetaSDFNodeOutput>)
  {
    |outputs| == |nodes| &&
    StatesMatch(nodes, states, stack, order) && StackShape(nodes, root, stack) &&
    Pending(nodes, states, stack) && Topological(nodes, order) &&
    RootTracked(states, stack, root) && OutputsSound(graph, outputs)
  }

  /** Once the stack is empty, the root is resolved: everything reachable
      from it is sound and the nodes resolved so far form a resolution order. */
  lemma FinishInvariant(nodes: seq<MetaSDFNode>, root: MetaSDFNodeID, states: seq<MetaNodeBuildState>,
                        order: seq<MetaSDFNodeID>, graph: seq<SDFNode>, outputs: seq<MetaSDFNodeOutput>)
    requires BuildInvariant(nodes, root, states, [], order, graph, outputs)
    ensures ReachableSound(nodes, root) && ResolutionOrder(nodes, root, order)
  {
    OrderGivesSoundReach(nodes, root, states, [], order);
  }

  lemma StartInvariant(nodes: seq<MetaSDFNode>)
    requires nodes != []
    ensures var n := |nodes|;
      BuildInvariant(nodes, n - 1, seq(n, _ => Unvisited), [VisitChildren(n - 1)], [], [], seq(n, _ => SingleSDF(None)))
  {
    assert Owned(nodes, |nodes| - 1, [VisitChildren(|nodes| - 1)], 0);
  }

  /** Dropping the visit of a node that is already resolved. */
  lemma StepVisitResolved(nodes: seq<MetaSDFNode>, root: MetaSDFNodeID, states: seq<MetaNodeBuildState>,
                          stack: seq<BuildOperation>, order: seq<MetaSDFNodeID>,
                          graph: seq<SDFNode>, outputs: seq<MetaSDFNodeOutput>)
    requires BuildInvariant(nodes, root, states, stack, order, graph, outputs)
    requires stack != [] && stack[|stack| - 1].VisitChildren?
    requires stack[|stack| - 1].id < |nodes| && states[stack[|stack| - 1].id] == Resolved
    ensures BuildInvariant(nodes, root, states, stack[..|stack| - 1], order, graph, outputs)
  {
    PopResolvedVisit(nodes, root, states, stack, order);
    PopShape(nodes, root, stack);
  }

  /** Replacing the visit of an unvisited node by its processing and the
      visits of its children. */
  lemma StepVisitUnvisited(nodes: seq<MetaSDFNode>, root: MetaSDFNodeID, states: seq<MetaNodeBuildState>,
                           stack: seq<BuildOperation>, order: seq<MetaSDFNodeID>,
                           graph: seq<SDFNode>, outputs: seq<MetaSDFNodeOutput>, c: MetaSDFNodeID)
    requires BuildInvariant(nodes, root, states, stack, order, graph, outputs)
    requires stack != [] && stack[|stack| - 1] == VisitChildren(c) && c < |nodes| && states[c] == Unvisited
    ensures BuildInvariant(nodes, root, states[c := ChildrenBeingVisited],
                           stack[..|stack| - 1] + [Process(c)] + ChildVisits(nodes[c]), order, graph, outputs)
    ensures multiset(states[c := ChildrenBeingVisited])[Unvisited] < multiset(states)[Unvisited]
  {
    PushStates(nodes, root, states, stack, order, c);
    PushPending(nodes, states, stack, c);
    PushShape(nodes, root, stack, c);
  }

  /** Marking the node at the top resolved: its children are all resolved
      already. */
  lemma StepProcess(nodes: seq<MetaSDFNode>, root: MetaSDFNodeID, states: seq<MetaNodeBuildState>,
                    stack: seq<BuildOperation>, order: seq<MetaSDFNodeID>,
                    graph: seq<SDFNode>, outputs: seq<MetaSDFNodeOutput>)
    requires BuildInvariant(nodes, root, states, stack, order, graph, outputs)
    requires stack != [] && stack[|stack| - 1].Process?
    ensures var x := stack[|stack| - 1].id;
      x < |nodes| && ChildrenBelow(nodes[x], |nodes|) &&
      (forall c | c in ChildIds(nodes[x]) :: OutputIn(outputs[c], |graph|)) &&
      BuildInvariant(nodes, root, states[x := Resolved], stack[..|stack| - 1], order + [x], graph, outputs)
    ensures multiset(states[stack[|stack| - 1].id := Resolved])[Unvisited] == multiset(states)[Unvisited]
  {
    var x := stack[|stack| - 1].id;
    ProcessChildrenResolved(nodes, root, states, stack);
    ProcessStates(nodes, root, states, stack, order);
    ProcessPending(nodes, states, stack);
    PopShape(nodes, root, stack);
    ProcessTopological(nodes, order, x);
    ChildrenBelowListed(nodes[x], |nodes|);
    assert states[x] == ChildrenBeingVisited;
  }

  /** Recording a node's output after a sound resolution step. */
  lemma StepResolved(nodes: seq<MetaSDFNode>, root: MetaSDFNodeID, states: seq<MetaNodeBuildState>,
                     stack: seq<BuildOperation>, order: seq<MetaSDFNodeID>,
                     graph: seq<SDFNode>, outputs: seq<MetaSDFNodeOutput>,
                     x: MetaSDFNodeID, after: seq<SDFNode>, output: MetaSDFNodeOutput)
    requires BuildInvariant(nodes, root, states, stack, order, graph, outputs)
    requires x < |nodes| && SoundStep(graph, after, output)
    ensures BuildInvariant(nodes, root, states, stack, order, after, outputs[x := output])
  {
    ResolvedKeepsOutputs(graph, outputs, x, after, output);
  }

  /** One step of the walk on a `VisitChildren` entry: a missing node or a
      node whose children are already being visited ends the build;
      otherwise the entry is dropped or expanded. */
  method VisitStep(nodes: seq<MetaSDFNode>, root: MetaSDFNodeID, states: seq<MetaNodeBuildState>,
                   stack: seq<BuildOperation>, ghost order: seq<MetaSDFNodeID>,
                   ghost graph: seq<SDFNode>, ghost outputs: seq<MetaSDFNodeOutput>)
    returns (err: Option<BuildError>, states2: seq<MetaNodeBuildState>, stack2: seq<BuildOperation>)
    requires root < |nodes| && BuildInvariant(nodes, root, states, stack, order, graph, outputs)
    requires stack != [] && stack[|stack| - 1].VisitChildren?
    ensures err.Some? ==> !ReachableSound(nodes, root)
    ensures err.Some? ==> (err.value == CycleDetected) != err.value.MissingMetaNode?
    ensures err.Some? && err.value.MissingMetaNode? ==>
      err.value.id >= |nodes| && exists x | 0 <= x < |nodes| :: err.value.id in ChildIds(nodes[x])
    ensures err.None? ==> BuildInvariant(nodes, root, states2, stack2, order, graph, outputs)
    ensures err.None? ==>
      multiset(states2)[Unvisited] < multiset(states)[Unvisited] ||
      (multiset(states2)[Unvisited] == multiset(states)[Unvisited] && |stack2| < |stack|)
  {
    var t := |stack| - 1;
    var c := stack[t].id;
    states2, stack2 := states, stack;
    if c >= |nodes| {
      MissingWitness(nodes, root, stack);
      return Some(MissingMetaNode(c)), states2, stack2;
    }
    match states[c] {
      case Resolved =>
        StepVisitResolved(nodes, root, states, stack, order, graph, outputs);
        err, stack2 := None, stack[..t];
      case ChildrenBeingVisited =>
        CycleWitness(nodes, root, states, stack, order);
        err := Some(CycleDetected);
      case Unvisited =>
        StepVisitUnvisited(nodes, root, states, stack, order, graph, outputs, c);
        err := None;
        states2 := states[c := ChildrenBeingVisited];
        stack2 := stack[..t] + [Process(c)] + ChildVisits(nodes[c]);
    }
  }

  /** One step of the walk on a `Process` entry: the node's stable seed is
      derived from its children's, and the node is resolved against its
      children's outputs. */
  method ProcessStep(nodes: seq<MetaSDFNode>, root: MetaSDFNodeID, metaSeed: nat, env: Environment,
                     graph: seq<SDFNode>, outputs: seq<MetaSDFNodeOutput>, states: seq<MetaNodeBuildState>,
                     stableSeeds: seq<nat>, stack: seq<BuildOperation>, ghost order: seq<MetaSDFNodeID>)
    returns (err: Option<BuildError>, graph2: seq<SDFNode>, outputs2: seq<MetaSDFNodeOutput>,
             states2: seq<MetaNodeBuildState>, stableSeeds2: seq<nat>, stack2: seq<BuildOperation>,
             ghost order2: seq<MetaSDFNodeID>)
    requires BuildInvariant(nodes, root, states, stack, order, graph, outputs) && |stableSeeds| == |nodes|
    requires stack != [] && stack[|stack| - 1].Process?
    ensures err.Some? ==> NodeError(err.value)
    ensures err.None? ==> BuildInvariant(nodes, root, states2, stack2, order2, graph2, outputs2)
    ensures err.None? ==> (|stableSeeds2| == |nodes| && |stack2| < |stack| &&
      multiset(states2)[Unvisited] == multiset(states)[Unvisited])
    ensures err.None? ==> graph <= graph2 && stack2 == stack[..|stack| - 1] && states2[stack[|stack| - 1].id] == Resolved
  {
    var t := |stack| - 1;
    var x := stack[t].id;
    StepProcess(nodes, root, states, stack, order, graph, outputs);
    states2 := states[x := Resolved];
    stack2 := stack[..t];
    order2 := order + [x];
    var node := nodes[x];
    ChildrenBelowListed(node, |nodes|);
    var stableSeed := ObtainStableSeed(node, stableSeeds, env.mix2, env.mix3);
    stableSeeds2 := stableSeeds[x := stableSeed];
    var nodeSeed := env.mix2(metaSeed, stableSeed);
    var resolved := Resolve(node, graph, outputs, nodeSeed, env);
    if resolved.Err? {
      return Some(resolved.error), graph, outputs, states2, stableSeeds2, stack2, order2;
    }
    StepResolved(nodes, root, states2, stack2, order2, graph, outputs, x, resolved.value.0, resolved.value.1);
    err, graph2, outputs2 := None, resolved.value.0, outputs[x := resolved.value.1];
  }

  class MetaSDFGraph {
    var seed: nat
    var nodes: seq<MetaSDFNode>

    /** `new_in`: an empty graph with the given seed. */
    constructor (seed: nat)
      ensures this.seed == seed && nodes == []
    {
      this.seed := seed;
      nodes := [];
    }

    /** `add_node`: the new node's ID is the node count before the call; the
        conversion of that count to a `u32` panics when it does not fit. */
    method AddNode(node: MetaSDFNode) returns (id: MetaSDFNodeID)
      requires |nodes| < U32_COUNT
      modifies this
      ensures id == old(|nodes|) && id < U32_COUNT
      ensures nodes == old(nodes) + [node] && nodes[id] == node
      ensures seed == old(seed)
    {
      id := |nodes|;
      nodes := nodes + [node];
    }

    /** `build`: a depth-first walk from the root (the last node) that
        resolves every reachable node after its children, growing the
        atomic graph as it goes. */
    method Build(env: Environment)
      returns (r: Result<SDFGraph, BuildError>, ghost order: seq<MetaSDFNodeID>,
               ghost finalGraph: seq<SDFNode>, ghost finalOutputs: seq<MetaSDFNodeOutput>)
      ensures nodes == [] ==> r == Ok(SDFGraph([], None))
      ensures nodes != [] && (r.Ok? || r.error == RootNotSingleSDF) ==>
        |finalOutputs| == |nodes| && ResolutionOrder(nodes, |nodes| - 1, order) &&
        OutputsSound(finalGraph, finalOutputs) && r == FinishBuild(finalGraph, finalOutputs[|nodes| - 1])
      ensures r.Ok? ==> GraphSound(r.value.nodes) && (r.value.root.None? <==> r.value.nodes == [])
      ensures r.Ok? && r.value.root.Some? ==> r.value.root.value < |r.value.nodes|
      ensures r.Ok? && nodes != [] ==> ReachableSound(nodes, |nodes| - 1)
      ensures r.Err? && (r.error == CycleDetected || r.error.MissingMetaNode?) ==>
        nodes != [] && !ReachableSound(nodes, |nodes| - 1)
      ensures r.Err? ==> r.error.MissingMetaNode? || r.error == CycleDetected || r.error == RootNotSingleSDF || NodeError(r.error)
      ensures r.Err? && r.error.MissingMetaNode? ==>
        r.error.id >= |nodes| && exists x | 0 <= x < |nodes| :: r.error.id in ChildIds(nodes[x])
    {
      var metaNodes := nodes;
      var n := |metaNodes|;
      order, finalGraph, finalOutputs := [], [], [];
      if n == 0 {
        return Ok(SDFGraph([], None)), order, finalGraph, finalOutputs;
      }
      var root: MetaSDFNodeID := n - 1;
      var graph: seq<SDFNode> := [];
      var outputs: seq<MetaSDFNodeOutput> := seq(n, _ => SingleSDF(None));
      var states: seq<MetaNodeBuildState> := seq(n, _ => Unvisited);
      var stableSeeds: seq<nat> := seq(n, _ => 0);
      var stack: seq<BuildOperation> := [VisitChildren(root)];
      StartInvariant(metaNodes);
      while stack != []
        invariant |stableSeeds| == n
        invariant BuildInvariant(metaNodes, root, states, stack, order, graph, outputs)
        decreases multiset(states)[Unvisited], |stack|
      {
        var err: Option<BuildError>;
        if stack[|stack| - 1].VisitChildren? {
          err, states, stack := VisitStep(metaNodes, root, states, stack, order, graph, outputs);
        } else {
          err, graph, outputs, states, stableSeeds, stack, order :=
            ProcessStep(metaNodes, root, seed, env, graph, outputs, states, stableSeeds, stack, order);
        }
        if err.Some? {
          return Err(err.value), order, graph, outputs;
        }
      }
      FinishInvariant(metaNodes, root, states, order, graph, outputs);
      r := FinishBuild(graph, outputs[root]);
      finalGraph, finalOutputs := graph, outputs;
    }
  }
}
