/** The graph of high-level ("meta") SDF nodes of the voxel generator and its
    compilation into a graph of atomic SDF nodes
    (engine/crates/impact_voxel/src/generation/sdf/meta.rs). */
module MetaSDF {
  import opened Wrappers
  import Arith

  /** Index of a meta node in its graph (a `u32` in the source). */
  type MetaSDFNodeID = nat

  /** Index of an atomic node in the compiled SDF graph. */
  type SDFNodeID = nat

  /** The number of `u32` values: node IDs must fit in a `u32`. */
  const U32_COUNT: nat := 0x1_0000_0000

  // ---------------------------------------------------------------------
  // Meta nodes
  // ---------------------------------------------------------------------

  datatype PrimitiveKind = BoxSDF | SphereSDF | CapsuleSDF | GradientNoiseSDF

  datatype SDFModifierKind =
    | SDFTranslation | SDFRotation | SDFScaling
    | MultifractalNoiseSDFModifier | MultiscaleSphereSDFModifier

  datatype TransformSourceKind = StratifiedGridTransforms | SphereSurfaceTransforms

  datatype TransformOpKind = TransformTranslation | TransformRotation | TransformScaling

  datatype SurfaceOpKind = ClosestTranslationToSurface | RayTranslationToSurface | RotationToGradient

  /** A meta node: its kind, the IDs of its children, its seed and, for the
      combinations, its smoothness. The node kinds of the source are grouped
      by the shape of their inputs; the kind inside a group keeps them apart.
      The parameter specifications the nodes sample from are not modelled. */
  datatype MetaSDFNode =
    | Primitive(primitive: PrimitiveKind, seed: nat)
    | SDFModifier(modifier: SDFModifierKind, childId: MetaSDFNodeID, seed: nat)
    | SDFUnion(child1Id: MetaSDFNodeID, child2Id: MetaSDFNodeID, smoothness: real)
    | SDFSubtraction(child1Id: MetaSDFNodeID, child2Id: MetaSDFNodeID, smoothness: real)
    | SDFIntersection(child1Id: MetaSDFNodeID, child2Id: MetaSDFNodeID, smoothness: real)
    | SDFGroupUnion(childId: MetaSDFNodeID, smoothness: real)
    | TransformSource(source: TransformSourceKind, seed: nat)
    | TransformOp(op: TransformOpKind, childId: MetaSDFNodeID, seed: nat)
    | SurfaceOp(surfaceOp: SurfaceOpKind, surfaceSdfId: MetaSDFNodeID, subjectId: MetaSDFNodeID)
    | TransformApplication(sdfId: MetaSDFNodeID, transformId: MetaSDFNodeID)
    | StochasticSelection(childId: MetaSDFNodeID, seed: nat)

  /** The children of a node, first input first. */
  function ChildIds(node: MetaSDFNode): (r: seq<MetaSDFNodeID>)
    ensures |r| <= 2
  {
    match node
    case Primitive(_, _) => []
    case TransformSource(_, _) => []
    case SDFModifier(_, c, _) => [c]
    case SDFGroupUnion(c, _) => [c]
    case TransformOp(_, c, _) => [c]
    case StochasticSelection(c, _) => [c]
    case SDFUnion(c1, c2, _) => [c1, c2]
    case SDFSubtraction(c1, c2, _) => [c1, c2]
    case SDFIntersection(c1, c2, _) => [c1, c2]
    case SurfaceOp(_, c1, c2) => [c1, c2]
    case TransformApplication(c1, c2) => [c1, c2]
  }

  /** Every child ID of `node` is below `n`, constructor by constructor. */
  predicate ChildrenBelow(node: MetaSDFNode, n: nat)
  {
    match node
    case Primitive(_, _) => true
    case TransformSource(_, _) => true
    case SDFModifier(_, c, _) => c < n
    case SDFGroupUnion(c, _) => c < n
    case TransformOp(_, c, _) => c < n
    case StochasticSelection(c, _) => c < n
    case SDFUnion(c1, c2, _) => c1 < n && c2 < n
    case SDFSubtraction(c1, c2, _) => c1 < n && c2 < n
    case SDFIntersection(c1, c2, _) => c1 < n && c2 < n
    case SurfaceOp(_, c1, c2) => c1 < n && c2 < n
    case TransformApplication(c1, c2) => c1 < n && c2 < n
  }

  /** `ChildrenBelow` says the same as a bound on every listed child. */
  lemma ChildrenBelowListed(node: MetaSDFNode, n: nat)
    ensures ChildrenBelow(node, n) <==> forall c | c in ChildIds(node) :: c < n
  {
    var cs := ChildIds(node);
    assert forall i | 0 <= i < |cs| :: cs[i] in cs;
    assert cs == [] || cs == [cs[0]] || cs == [cs[0], cs[1]];
  }

  // ---------------------------------------------------------------------
  // Transforms, outputs and the atomic graph
  // ---------------------------------------------------------------------

  datatype Vector3 = Vector3(x: real, y: real, z: real)

  datatype UnitQuaternion = UnitQuaternion(w: real, i: real, j: real, k: real)

  /** A similarity transform: uniform scaling, then rotation, then translation. */
  datatype Similarity3 = Similarity3(scaling: real, rotation: UnitQuaternion, translation: Vector3)

  const IDENTITY_ROTATION: UnitQuaternion := UnitQuaternion(1.0, 0.0, 0.0, 0.0)
  const ZERO_VECTOR: Vector3 := Vector3(0.0, 0.0, 0.0)
  const IDENTITY_TRANSFORM: Similarity3 := Similarity3(1.0, IDENTITY_ROTATION, ZERO_VECTOR)

  /** What a resolved meta node hands to its parents. */
  datatype MetaSDFNodeOutput =
    | SingleSDF(sdf: Option<SDFNodeID>)
    | SDFGroup(sdfs: seq<SDFNodeID>)
    | SingleTransform(transform: Option<Similarity3>)
    | TransformGroup(transforms: seq<Similarity3>)

  /** `MetaSDFNodeOutput::label`. */
  function Label(output: MetaSDFNodeOutput): string
  {
    match output
    case SingleSDF(_) => "SingleSDF"
    case SDFGroup(_) => "SDFGroup"
    case SingleTransform(_) => "SingleTransform"
    case TransformGroup(_) => "TransformGroup"
  }

  /** An atomic SDF node. Sampled primitive and modifier parameters are not
      modelled; the transform components and smoothness are. */
  datatype SDFNode =
    | PrimitiveNode(primitive: PrimitiveKind)
    | ModifierNode(modifier: SDFModifierKind, input: SDFNodeID)
    | ScalingNode(input: SDFNodeID, scaling: real)
    | RotationNode(input: SDFNodeID, rotation: UnitQuaternion)
    | TranslationNode(input: SDFNodeID, translation: Vector3)
    | UnionNode(input1: SDFNodeID, input2: SDFNodeID, smoothness: real)
    | SubtractionNode(input1: SDFNodeID, input2: SDFNodeID, smoothness: real)
    | IntersectionNode(input1: SDFNodeID, input2: SDFNodeID, smoothness: real)

  function Inputs(node: SDFNode): seq<SDFNodeID>
  {
    match node
    case PrimitiveNode(_) => []
    case ModifierNode(_, a) => [a]
    case ScalingNode(a, _) => [a]
    case RotationNode(a, _) => [a]
    case TranslationNode(a, _) => [a]
    case UnionNode(a, b, _) => [a, b]
    case SubtractionNode(a, b, _) => [a, b]
    case IntersectionNode(a, b, _) => [a, b]
  }

  /** The compiled graph: its nodes and the node to evaluate, if any. */
  datatype SDFGraph = SDFGraph(nodes: seq<SDFNode>, root: Option<SDFNodeID>)

  /** Every atomic node refers only to nodes added before it, so the
      compiled graph has no cycle. */
  ghost predicate GraphSound(g: seq<SDFNode>)
  {
    forall i, c | 0 <= i < |g| && c in Inputs(g[i]) :: c < i
  }

  /** Every atomic node an output names exists among the first `n` nodes. */
  ghost predicate OutputIn(output: MetaSDFNodeOutput, n: nat)
  {
    match output
    case SingleSDF(s) => s.Some? ==> s.value < n
    case SDFGroup(ids) => forall id | id in ids :: id < n
    case SingleTransform(_) => true
    case TransformGroup(_) => true
  }

  /** A sound extension of the atomic graph `g` together with an output that
      names only nodes of the extension. */
  ghost predicate SoundStep(g: seq<SDFNode>, after: seq<SDFNode>, output: MetaSDFNodeOutput)
  {
    g <= after && GraphSound(after) && OutputIn(output, |after|)
  }

  /** Why building the meta graph failed. */
  datatype BuildError =
    | MissingMetaNode(id: MetaSDFNodeID)
    | CycleDetected
    | RootNotSingleSDF
    | UnexpectedInput(nodeName: string, got: string)
    | InvalidParameters(node: MetaSDFNode)
    | ResolveFailed(node: MetaSDFNode)

  /** An error raised while resolving one node, as opposed to one about the
      shape of the meta graph. */
  predicate NodeError(e: BuildError)
  {
    e.UnexpectedInput? || e.InvalidParameters? || e.ResolveFailed?
  }

  /** A resolved node: the grown atomic graph and the node's output. */
  type Resolution = (seq<SDFNode>, MetaSDFNodeOutput)

  /** `smoothness.max(0.0)`. */
  function NonNegative(x: real): (r: real)
    ensures r >= 0.0 && (x >= 0.0 ==> r == x)
  {
    if x >= 0.0 then x else 0.0
  }

  // ---------------------------------------------------------------------
  // Enum parsers
  // ---------------------------------------------------------------------

  datatype CompositionMode = Pre | Post

  datatype SphereSurfaceRotation = Identity | Radial

  /** The variant's name as written in the source. */
  function CompositionModeName(mode: CompositionMode): string
  {
    match mode
    case Pre => "Pre"
    case Post => "Post"
  }

  function SphereSurfaceRotationName(rotation: SphereSurfaceRotation): string
  {
    match rotation
    case Identity => "Identity"
    case Radial => "Radial"
  }

  /** `CompositionMode::try_from_str`: accepts exactly the two variant names. */
  function CompositionModeFromStr(variant: string): (r: Result<CompositionMode, string>)
    ensures r.Ok? <==> variant == "Pre" || variant == "Post"
    ensures r.Ok? ==> CompositionModeName(r.value) == variant
    ensures r.Err? ==> r.error == "Invalid CompositionMode variant: " + variant
  {
    if variant == "Pre" then Ok(Pre)
    else if variant == "Post" then Ok(Post)
    else Err("Invalid CompositionMode variant: " + variant)
  }

  /** `SphereSurfaceRotation::try_from_str`: accepts exactly the two variant names. */
  function SphereSurfaceRotationFromStr(variant: string): (r: Result<SphereSurfaceRotation, string>)
    ensures r.Ok? <==> variant == "Identity" || variant == "Radial"
    ensures r.Ok? ==> SphereSurfaceRotationName(r.value) == variant
    ensures r.Err? ==> r.error == "Invalid SphereSurfaceRotation variant: " + variant
  {
    if variant == "Identity" then Ok(Identity)
    else if variant == "Radial" then Ok(Radial)
    else Err("Invalid SphereSurfaceRotation variant: " + variant)
  }

  /** Parsing a variant's own name gives the variant back. */
  lemma ParsersInvertNames(mode: CompositionMode, rotation: SphereSurfaceRotation)
    ensures CompositionModeFromStr(CompositionModeName(mode)) == Ok(mode)
    ensures SphereSurfaceRotationFromStr(SphereSurfaceRotationName(rotation)) == Ok(rotation)
  {
  }

  // ---------------------------------------------------------------------
  // Stable seeds
  // ---------------------------------------------------------------------

  /** The type tag each node kind mixes into its stable seed. */
  function Tag(node: MetaSDFNode): nat
  {
    match node
    case Primitive(k, _) =>
      (match k case BoxSDF => 0x01 case SphereSDF => 0x02 case CapsuleSDF => 0x03 case GradientNoiseSDF => 0x04)
    case SDFModifier(k, _, _) =>
      (match k
       case SDFTranslation => 0x10 case SDFRotation => 0x11 case SDFScaling => 0x12
       case MultifractalNoiseSDFModifier => 0x20 case MultiscaleSphereSDFModifier => 0x21)
    case SDFUnion(_, _, _) => 0x30
    case SDFSubtraction(_, _, _) => 0x31
    case SDFIntersection(_, _, _) => 0x32
    case SDFGroupUnion(_, _) => 0x33
    case TransformSource(k, _) => (match k case StratifiedGridTransforms => 0x40 case SphereSurfaceTransforms => 0x41)
    case TransformOp(k, _, _) =>
      (match k case TransformTranslation => 0x50 case TransformRotation => 0x51 case TransformScaling => 0x52)
    case SurfaceOp(k, _, _) =>
      (match k case ClosestTranslationToSurface => 0x60 case RayTranslationToSurface => 0x61
       case RotationToGradient => 0x62)
    case TransformApplication(_, _) => 0x70
    case StochasticSelection(_, _) => 0x80
  }

  /** The source's node kind, with its group and the kind inside the group. */
  function Kind(node: MetaSDFNode): MetaSDFNode
  {
    match node
    case Primitive(k, _) => Primitive(k, 0)
    case SDFModifier(k, _, _) => SDFModifier(k, 0, 0)
    case SDFUnion(_, _, _) => SDFUnion(0, 0, 0.0)
    case SDFSubtraction(_, _, _) => SDFSubtraction(0, 0, 0.0)
    case SDFIntersection(_, _, _) => SDFIntersection(0, 0, 0.0)
    case SDFGroupUnion(_, _) => SDFGroupUnion(0, 0.0)
    case TransformSource(k, _) => TransformSource(k, 0)
    case TransformOp(k, _, _) => TransformOp(k, 0, 0)
    case SurfaceOp(k, _, _) => SurfaceOp(k, 0, 0)
    case TransformApplication(_, _) => TransformApplication(0, 0)
    case StochasticSelection(_, _) => StochasticSelection(0, 0)
  }

  /** No two node kinds share a tag. */
  lemma TagIdentifiesKind(a: MetaSDFNode, b: MetaSDFNode)
    ensures Tag(a) == Tag(b) <==> Kind(a) == Kind(b)
  {
  }

  /** The two seeds in ascending order, then mixed: the order of the children
      does not matter. */
  function CommutativeMix(mix3: (nat, nat, nat) -> nat, tag: nat, s1: nat, s2: nat): nat
  {
    if s1 <= s2 then mix3(tag, s1, s2) else mix3(tag, s2, s1)
  }

  /** Every entry of a sequence whose members are below `n` is below `n`. */
  lemma ChildIdsBelow(children: seq<nat>, n: nat)
    requires forall c | c in children :: c < n
    ensures forall i | 0 <= i < |children| :: children[i] < n
  {
    forall i | 0 <= i < |children| ensures children[i] < n {
      assert children[i] in children;
    }
  }

  /** `obtain_stable_seed`: mixes the node's tag with its own seed (when it
      has one) and the stable seeds of its children; `mix2` and `mix3` are
      the two- and three-state splitmix mixers. Indexing a child past the
      end of `stableSeeds` panics. */
  function ObtainStableSeed(node: MetaSDFNode, stableSeeds: seq<nat>,
                            mix2: (nat, nat) -> nat, mix3: (nat, nat, nat) -> nat): nat
    requires forall c | c in ChildIds(node) :: c < |stableSeeds|
  {
    var tag := Tag(node);
    var children := ChildIds(node);
    ChildIdsBelow(children, |stableSeeds|);
    match node
    case Primitive(_, seed) => mix2(tag, seed)
    case TransformSource(_, seed) => mix2(tag, seed)
    case SDFModifier(_, _, seed) => mix3(tag, seed, stableSeeds[children[0]])
    case TransformOp(_, _, seed) => mix3(tag, seed, stableSeeds[children[0]])
    case StochasticSelection(_, seed) => mix3(tag, seed, stableSeeds[children[0]])
    case SDFGroupUnion(_, _) => mix2(tag, stableSeeds[children[0]])
    case SDFUnion(_, _, _) => CommutativeMix(mix3, tag, stableSeeds[children[0]], stableSeeds[children[1]])
    case SDFIntersection(_, _, _) => CommutativeMix(mix3, tag, stableSeeds[children[0]], stableSeeds[children[1]])
    case SDFSubtraction(_, _, _) => mix3(tag, stableSeeds[children[0]], stableSeeds[children[1]])
    case SurfaceOp(_, _, _) => mix3(tag, stableSeeds[children[0]], stableSeeds[children[1]])
    case TransformApplication(_, _) => mix3(tag, stableSeeds[children[0]], stableSeeds[children[1]])
  }

  /** A stable seed depends only on the node and its children's stable seeds,
      not on any other entry. */
  lemma StableSeedReadsOnlyChildren(node: MetaSDFNode, seeds1: seq<nat>, seeds2: seq<nat>,
                                    mix2: (nat, nat) -> nat, mix3: (nat, nat, nat) -> nat)
    requires forall c | c in ChildIds(node) :: c < |seeds1| && c < |seeds2| && seeds1[c] == seeds2[c]
    ensures ObtainStableSeed(node, seeds1, mix2, mix3) == ObtainStableSeed(node, seeds2, mix2, mix3)
  {
  }

  /** Swapping the children of a union or an intersection keeps its stable
      seed, whatever the mixer and the smoothness. */
  lemma CommutativeSeedsIgnoreChildOrder(c1: MetaSDFNodeID, c2: MetaSDFNodeID, s1: real, s2: real,
                                         stableSeeds: seq<nat>,
                                         mix2: (nat, nat) -> nat, mix3: (nat, nat, nat) -> nat)
    requires c1 < |stableSeeds| && c2 < |stableSeeds|
    ensures ObtainStableSeed(SDFUnion(c1, c2, s1), stableSeeds, mix2, mix3) ==
            ObtainStableSeed(SDFUnion(c2, c1, s2), stableSeeds, mix2, mix3)
    ensures ObtainStableSeed(SDFIntersection(c1, c2, s1), stableSeeds, mix2, mix3) ==
            ObtainStableSeed(SDFIntersection(c2, c1, s2), stableSeeds, mix2, mix3)
  {
  }

  /** A subtraction's stable seed keeps the order of its children: swapping
      them changes the seed whenever the mixer tells the two orders apart. */
  lemma SubtractionSeedKeepsChildOrder(c1: MetaSDFNodeID, c2: MetaSDFNodeID, s: real,
                                       stableSeeds: seq<nat>,
                                       mix2: (nat, nat) -> nat, mix3: (nat, nat, nat) -> nat)
    requires c1 < |stableSeeds| && c2 < |stableSeeds|
    requires mix3(0x31, stableSeeds[c1], stableSeeds[c2]) != mix3(0x31, stableSeeds[c2], stableSeeds[c1])
    ensures ObtainStableSeed(SDFSubtraction(c1, c2, s), stableSeeds, mix2, mix3) !=
            ObtainStableSeed(SDFSubtraction(c2, c1, s), stableSeeds, mix2, mix3)
  {
  }

  // ---------------------------------------------------------------------
  // Binary combinations
  // ---------------------------------------------------------------------

  /** `MetaSDFUnion::resolve`: both inputs must be single SDFs; a missing
      input leaves the other one as the result, two present inputs get a new
      union node. */
  function ResolveUnion(g: seq<SDFNode>, out1: MetaSDFNodeOutput, out2: MetaSDFNodeOutput, smoothness: real)
    : (r: Result<Resolution, BuildError>)
    ensures r.Err? <==> !(out1.SingleSDF? && out2.SingleSDF?)
    ensures r.Ok? ==> r.value.1.SingleSDF? && (r.value.1.sdf.None? <==> out1.sdf.None? && out2.sdf.None?)
    ensures r.Ok? && out1.sdf.Some? && out2.sdf.Some? ==>
      r.value.0 == g + [UnionNode(out1.sdf.value, out2.sdf.value, NonNegative(smoothness))] &&
      r.value.1 == SingleSDF(Some(|g|))
    ensures r.Ok? && GraphSound(g) && OutputIn(out1, |g|) && OutputIn(out2, |g|) ==> SoundStep(g, r.value.0, r.value.1)
  {
    if !(out1.SingleSDF? && out2.SingleSDF?) then Err(UnexpectedInput("SDFUnion", Label(out1) + " and " + Label(out2)))
    else match (out1.sdf, out2.sdf)
      case (_, None) => Ok((g, SingleSDF(out1.sdf)))
      case (None, _) => Ok((g, SingleSDF(out2.sdf)))
      case (Some(a), Some(b)) => Ok((g + [UnionNode(a, b, NonNegative(smoothness))], SingleSDF(Some(|g|))))
  }

  /** `MetaSDFSubtraction::resolve`: nothing minus anything is nothing;
      anything minus nothing is itself. */
  function ResolveSubtraction(g: seq<SDFNode>, out1: MetaSDFNodeOutput, out2: MetaSDFNodeOutput, smoothness: real)
    : (r: Result<Resolution, BuildError>)
    ensures r.Err? <==> !(out1.SingleSDF? && out2.SingleSDF?)
    ensures r.Ok? ==> r.value.1.SingleSDF? && (r.value.1.sdf.None? <==> out1.sdf.None?)
    ensures r.Ok? && out1.sdf.Some? && out2.sdf.Some? ==>
      r.value.0 == g + [SubtractionNode(out1.sdf.value, out2.sdf.value, NonNegative(smoothness))] &&
      r.value.1 == SingleSDF(Some(|g|))
    ensures r.Ok? && GraphSound(g) && OutputIn(out1, |g|) && OutputIn(out2, |g|) ==> SoundStep(g, r.value.0, r.value.1)
  {
    if !(out1.SingleSDF? && out2.SingleSDF?) then
      Err(UnexpectedInput("SDFSubtraction", Label(out1) + " and " + Label(out2)))
    else match (out1.sdf, out2.sdf)
      case (None, _) => Ok((g, SingleSDF(None)))
      case (Some(a), None) => Ok((g, SingleSDF(Some(a))))
      case (Some(a), Some(b)) => Ok((g + [SubtractionNode(a, b, NonNegative(smoothness))], SingleSDF(Some(|g|))))
  }

  /** `MetaSDFIntersection::resolve`: a missing input makes the intersection
      missing. */
  function ResolveIntersection(g: seq<SDFNode>, out1: MetaSDFNodeOutput, out2: MetaSDFNodeOutput, smoothness: real)
    : (r: Result<Resolution, BuildError>)
    ensures r.Err? <==> !(out1.SingleSDF? && out2.SingleSDF?)
    ensures r.Ok? ==> r.value.1.SingleSDF? && (r.value.1.sdf.None? <==> out1.sdf.None? || out2.sdf.None?)
    ensures r.Ok? && out1.sdf.Some? && out2.sdf.Some? ==>
      r.value.0 == g + [IntersectionNode(out1.sdf.value, out2.sdf.value, NonNegative(smoothness))] &&
      r.value.1 == SingleSDF(Some(|g|))
    ensures r.Ok? && GraphSound(g) && OutputIn(out1, |g|) && OutputIn(out2, |g|) ==> SoundStep(g, r.value.0, r.value.1)
  {
    if !(out1.SingleSDF? && out2.SingleSDF?) then
      Err(UnexpectedInput("SDFIntersection", Label(out1) + " and " + Label(out2)))
    else match (out1.sdf, out2.sdf)
      case (None, _) => Ok((g, SingleSDF(None)))
      case (_, None) => Ok((g, SingleSDF(None)))
      case (Some(a), Some(b)) => Ok((g + [IntersectionNode(a, b, NonNegative(smoothness))], SingleSDF(Some(|g|))))
  }

  /** A missing SDF is the identity of union on either side, absorbs
      intersection on either side, and on subtraction empties the result as
      the first input and is ignored as the second; none of these adds a
      node. */
  lemma MissingInputPropagation(g: seq<SDFNode>, o: MetaSDFNodeOutput, s: real)
    requires o.SingleSDF?
    ensures ResolveUnion(g, SingleSDF(None), o, s) == Ok((g, o))
    ensures ResolveUnion(g, o, SingleSDF(None), s) == Ok((g, o))
    ensures ResolveIntersection(g, SingleSDF(None), o, s) == Ok((g, SingleSDF(None)))
    ensures ResolveIntersection(g, o, SingleSDF(None), s) == Ok((g, SingleSDF(None)))
    ensures ResolveSubtraction(g, SingleSDF(None), o, s) == Ok((g, SingleSDF(None)))
    ensures ResolveSubtraction(g, o, SingleSDF(None), s) == Ok((g, o))
  {
  }

  // ---------------------------------------------------------------------
  // Primitives and unary SDF modifiers

  /** The resolution of a primitive: one atomic node holding the sampled
      shape, or the sampling error. `paramsValid` stands for whether the
      parameter distributions of `node` sample successfully. */
  function ResolvePrimitive(g: seq<SDFNode>, kind: PrimitiveKind, paramsValid: bool, node: MetaSDFNode)
    : (r: Result<Resolution, BuildError>)
    ensures r.Err? <==> !paramsValid
    ensures r.Ok? ==> r.value.0 == g + [PrimitiveNode(kind)] && r.value.1 == SingleSDF(Some(|g|))
    ensures r.Ok? && GraphSound(g) ==> SoundStep(g, r.value.0, r.value.1)
  {
    if !paramsValid then Err(InvalidParameters(node))
    else Ok((g + [PrimitiveNode(kind)], SingleSDF(Some(|g|))))
  }

  function ModifierName(kind: SDFModifierKind): string
  {
    match kind
    case SDFTranslation => "SDFTranslation"
    case SDFRotation => "SDFRotation"
    case SDFScaling => "SDFScaling"
    case MultifractalNoiseSDFModifier => "MultifractalNoiseSDFModifier"
    case MultiscaleSphereSDFModifier => "MultiscaleSphereSDFModifier"
  }

  /** `unary_sdf_group_op`: one new modifier node per input, in input order,
      stopping at the first failed parameter sampling. */
  method UnarySDFGroupOp(g: seq<SDFNode>, kind: SDFModifierKind, inputs: seq<SDFNodeID>,
                         paramsValid: bool, node: MetaSDFNode)
    returns (r: Result<(seq<SDFNode>, seq<SDFNodeID>), BuildError>)
    ensures r.Err? ==> r.error == InvalidParameters(node)
    ensures r.Err? <==> inputs != [] && !paramsValid
    ensures r.Ok? ==> |r.value.0| == |g| + |inputs| && g <= r.value.0 && |r.value.1| == |inputs|
    ensures r.Ok? ==> forall i | 0 <= i < |inputs| ::
      r.value.1[i] == |g| + i && r.value.0[|g| + i] == ModifierNode(kind, inputs[i])
    ensures r.Ok? && GraphSound(g) && (forall id | id in inputs :: id < |g|) ==>
      GraphSound(r.value.0) && forall id | id in r.value.1 :: id < |r.value.0|
  {
    var graph := g;
    var outputIds: seq<SDFNodeID> := [];
    for i := 0 to |inputs|
      invariant |graph| == |g| + i && g <= graph && |outputIds| == i
      invariant forall k | 0 <= k < i :: outputIds[k] == |g| + k && graph[|g| + k] == ModifierNode(kind, inputs[k])
      invariant i > 0 ==> paramsValid
    {
      if !paramsValid {
        return Err(InvalidParameters(node));
      }
      outputIds := outputIds + [|graph|];
      graph := graph + [ModifierNode(kind, inputs[i])];
    }
    r := Ok((graph, outputIds));
    if GraphSound(g) && (forall id | id in inputs :: id < |g|) {
      forall j, c | 0 <= j < |graph| && c in Inputs(graph[j])
        ensures c < j
      {
        if j >= |g| {
          assert graph[j] == ModifierNode(kind, inputs[j - |g|]);
          assert inputs[j - |g|] in inputs;
        } else {
          assert graph[j] == g[j];
        }
      }
    }
  }

  /** `resolve_unary_sdf_op` for the SDF modifiers: a missing SDF stays
      missing, a single SDF and each SDF of a group get one modifier node,
      and any other input is an error. */
  method ResolveSDFModifier(g: seq<SDFNode>, kind: SDFModifierKind, childOutput: MetaSDFNodeOutput,
                            paramsValid: bool, node: MetaSDFNode)
    returns (r: Result<Resolution, BuildError>)
    ensures r.Err? ==> r.error.UnexpectedInput? || r.error == InvalidParameters(node)
    ensures r.Err? <==>
      !(childOutput.SingleSDF? || childOutput.SDFGroup?) ||
      (!paramsValid && ((childOutput.SingleSDF? && childOutput.sdf.Some?) || (childOutput.SDFGroup? && childOutput.sdfs != [])))
    ensures childOutput == SingleSDF(None) ==> r == Ok((g, SingleSDF(None)))
    ensures r.Ok? && childOutput.SingleSDF? && childOutput.sdf.Some? ==>
      r.value.0 == g + [ModifierNode(kind, childOutput.sdf.value)] && r.value.1 == SingleSDF(Some(|g|))
    ensures r.Ok? && childOutput.SDFGroup? ==>
      r.value.1.SDFGroup? && |r.value.1.sdfs| == |childOutput.sdfs| && |r.value.0| == |g| + |childOutput.sdfs| &&
      forall i | 0 <= i < |childOutput.sdfs| ::
        r.value.1.sdfs[i] == |g| + i && r.value.0[|g| + i] == ModifierNode(kind, childOutput.sdfs[i])
    ensures r.Ok? && GraphSound(g) && OutputIn(childOutput, |g|) ==> SoundStep(g, r.value.0, r.value.1)
  {
    match childOutput {
      case SingleSDF(None) =>
        r := Ok((g, SingleSDF(None)));
      case SingleSDF(Some(input)) =>
        if !paramsValid {
          r := Err(InvalidParameters(node));
        } else {
          r := Ok((g + [ModifierNode(kind, input)], SingleSDF(Some(|g|))));
        }
      case SDFGroup(inputs) =>
        var group := UnarySDFGroupOp(g, kind, inputs, paramsValid, node);
        if group.Err? {
          r := Err(group.error);
        } else {
          r := Ok((group.value.0, SDFGroup(group.value.1)));
        }
      case _ =>
        r := Err(UnexpectedInput(ModifierName(kind), Label(childOutput)));
    }
  }

  // ---------------------------------------------------------------------
  // Balanced binary trees of unions

  /** What `emit_balanced_binary_tree` leaves behind: while more than one
      entry is queued, the first two are combined by a new union node whose
      ID joins the back of the queue. */
  function Reduced(g: seq<SDFNode>, queue: seq<SDFNodeID>, smoothness: real): (seq<SDFNode>, seq<SDFNodeID>)
    decreases |queue|
  {
    if |queue| <= 1 then (g, queue)
    else Reduced(g + [UnionNode(queue[0], queue[1], smoothness)], queue[2..] + [|g|], smoothness)
  }

  /** The nodes from `base` on are unions of earlier nodes. */
  ghost predicate UnionsFrom(g: seq<SDFNode>, base: nat)
  {
    base <= |g| && forall i | base <= i < |g| :: g[i].UnionNode? && g[i].input1 < i && g[i].input2 < i
  }

  /** The nodes below `base` that the union tree rooted at `id` combines,
      with multiplicity. */
  ghost function Covered(g: seq<SDFNode>, base: nat, id: SDFNodeID): multiset<SDFNodeID>
    requires UnionsFrom(g, base) && id < |g|
    decreases id
  {
    if id < base then multiset{id}
    else Covered(g, base, g[id].input1) + Covered(g, base, g[id].input2)
  }

  ghost function CoveredAll(g: seq<SDFNode>, base: nat, queue: seq<SDFNodeID>): multiset<SDFNodeID>
    requires UnionsFrom(g, base) && forall id | id in queue :: id < |g|
    decreases |queue|
  {
    if queue == [] then multiset{}
    else
      assert queue[0] in queue && forall id | id in queue[1..] :: id in queue;
      Covered(g, base, queue[0]) + CoveredAll(g, base, queue[1..])
  }

  /** Appending a node does not change what an existing tree covers. */
  lemma {:induction false} CoveredGrows(g: seq<SDFNode>, base: nat, n: SDFNode, id: SDFNodeID)
    requires UnionsFrom(g, base) && UnionsFrom(g + [n], base) && id < |g|
    ensures Covered(g + [n], base, id) == Covered(g, base, id)
    decreases id
  {
    if id >= base {
      assert (g + [n])[id] == g[id];
      CoveredGrows(g, base, n, g[id].input1);
      CoveredGrows(g, base, n, g[id].input2);
    }
  }

  lemma {:induction false} CoveredAllGrows(g: seq<SDFNode>, base: nat, n: SDFNode, queue: seq<SDFNodeID>)
    requires UnionsFrom(g, base) && UnionsFrom(g + [n], base) && forall id | id in queue :: id < |g|
    ensures CoveredAll(g + [n], base, queue) == CoveredAll(g, base, queue)
    decreases |queue|
  {
    if queue != [] {
      assert queue[0] in queue && forall id | id in queue[1..] :: id in queue;
      CoveredGrows(g, base, n, queue[0]);
      CoveredAllGrows(g, base, n, queue[1..]);
    }
  }

  lemma {:induction false} CoveredAllAppend(g: seq<SDFNode>, base: nat, queue: seq<SDFNodeID>, id: SDFNodeID)
    requires UnionsFrom(g, base) && (forall x | x in queue :: x < |g|) && id < |g|
    ensures CoveredAll(g, base, queue + [id]) == CoveredAll(g, base, queue) + Covered(g, base, id)
    decreases |queue|
  {
    if queue == [] {
      assert CoveredAll(g, base, [id]) == Covered(g, base, id) + CoveredAll(g, base, []);
    } else {
      assert (queue + [id])[1..] == queue[1..] + [id];
      assert forall x | x in queue[1..] :: x in queue;
      CoveredAllAppend(g, base, queue[1..], id);
    }
  }

  /** Below `base` every queued node covers only itself. */
  lemma {:induction false} CoveredAllLeaves(g: seq<SDFNode>, leaves: seq<SDFNodeID>)
    requires forall id | id in leaves :: id < |g|
    ensures UnionsFrom(g, |g|) && CoveredAll(g, |g|, leaves) == multiset(leaves)
    decreases |leaves|
  {
    if leaves != [] {
      assert leaves[0] in leaves && forall id | id in leaves[1..] :: id in leaves;
      CoveredAllLeaves(g, leaves[1..]);
      assert leaves == [leaves[0]] + leaves[1..];
      assert multiset(leaves) == multiset{leaves[0]} + multiset(leaves[1..]);
    }
  }

  /** The reduction adds one node per queued entry but one, leaves the
      graph it started from in place and ends with at most one entry. */
  lemma {:induction false} ReducedSize(g: seq<SDFNode>, queue: seq<SDFNodeID>, s: real)
    ensures var (gOut, qOut) := Reduced(g, queue, s);
      g <= gOut && |qOut| <= 1 && (|qOut| == 1 <==> queue != []) &&
      |gOut| == |g| + (if queue == [] then 0 else |queue| - 1)
    decreases |queue|
  {
    if |queue| > 1 {
      ReducedSize(g + [UnionNode(queue[0], queue[1], s)], queue[2..] + [|g|], s);
    }
  }

  /** One reduction step adds a union of two queued nodes. */
  lemma ReduceStepShape(g: seq<SDFNode>, base: nat, queue: seq<SDFNodeID>, s: real)
    requires UnionsFrom(g, base) && (forall id | id in queue :: id < |g|) && |queue| > 1
    ensures var g1 := g + [UnionNode(queue[0], queue[1], s)];
      UnionsFrom(g1, base) && (forall id | id in queue[2..] + [|g|] :: id < |g1|)
  {
    var g1 := g + [UnionNode(queue[0], queue[1], s)];
    assert queue[0] in queue && queue[1] in queue;
    assert forall i | base <= i < |g| :: g1[i] == g[i];
    assert forall id | id in queue[2..] :: id in queue;
  }

  /** One reduction step keeps what the queue covers. */
  lemma ReduceStepCovers(g: seq<SDFNode>, base: nat, queue: seq<SDFNodeID>, s: real)
    requires UnionsFrom(g, base) && (forall id | id in queue :: id < |g|) && |queue| > 1
    ensures var g1 := g + [UnionNode(queue[0], queue[1], s)];
      var q1 := queue[2..] + [|g|];
      UnionsFrom(g1, base) && (forall id | id in q1 :: id < |g1|) &&
      CoveredAll(g1, base, q1) == CoveredAll(g, base, queue)
  {
    ReduceStepShape(g, base, queue, s);
    var n := UnionNode(queue[0], queue[1], s);
    var g1 := g + [n];
    var rest := queue[2..];
    assert queue[0] in queue && queue[1] in queue;
    assert forall id | id in rest :: id in queue;
    CoveredAllAppend(g1, base, rest, |g|);
    CoveredAllGrows(g, base, n, rest);
    CoveredGrows(g, base, n, queue[0]);
    CoveredGrows(g, base, n, queue[1]);
    assert Covered(g1, base, |g|) == Covered(g1, base, queue[0]) + Covered(g1, base, queue[1]);
    assert queue[1..][1..] == rest;
    assert forall id | id in queue[1..] :: id in queue;
    assert CoveredAll(g, base, queue[1..]) == Covered(g, base, queue[1]) + CoveredAll(g, base, rest);
  }

  /** The reduction of a non-empty queue of existing nodes ends in one
      union tree that covers exactly what the queue covered. */
  lemma {:induction false} ReducedCovers(g: seq<SDFNode>, base: nat, queue: seq<SDFNodeID>, s: real)
    requires UnionsFrom(g, base) && (forall id | id in queue :: id < |g|) && queue != []
    ensures var (gOut, qOut) := Reduced(g, queue, s);
      UnionsFrom(gOut, base) && |qOut| == 1 && qOut[0] < |gOut| &&
      Covered(gOut, base, qOut[0]) == CoveredAll(g, base, queue)
    decreases |queue|
  {
    if |queue| == 1 {
      assert queue[0] in queue;
      assert CoveredAll(g, base, queue) == Covered(g, base, queue[0]) + CoveredAll(g, base, []);
    } else {
      ReduceStepCovers(g, base, queue, s);
      ReducedCovers(g + [UnionNode(queue[0], queue[1], s)], base, queue[2..] + [|g|], s);
    }
  }

  /** A graph that is sound up to `base` and continues with unions of
      earlier nodes is sound. */
  lemma UnionsKeepSound(g: seq<SDFNode>, base: nat)
    requires UnionsFrom(g, base) && GraphSound(g[..base])
    ensures GraphSound(g)
  {
    forall i, c | 0 <= i < |g| && c in Inputs(g[i])
      ensures c < i
    {
      if i < base {
        assert g[..base][i] == g[i];
      }
    }
  }

  /** `emit_balanced_binary_tree` with unions of the given smoothness as
      parent nodes. */
  method EmitBalancedUnionTree(g: seq<SDFNode>, leaves: seq<SDFNodeID>, smoothness: real)
    returns (graph: seq<SDFNode>, root: Option<SDFNodeID>)
    ensures (graph, if root.Some? then [root.value] else []) == Reduced(g, leaves, smoothness)
    ensures g <= graph && (root.None? <==> leaves == [])
    ensures |leaves| == 1 ==> graph == g && root == Some(leaves[0])
    ensures leaves != [] ==> |graph| == |g| + |leaves| - 1
    ensures (forall id | id in leaves :: id < |g|) && leaves != [] ==>
      UnionsFrom(graph, |g|) && root.value < |graph| && Covered(graph, |g|, root.value) == multiset(leaves)
  {
    graph := g;
    var queue: seq<SDFNodeID> := leaves;
    while |queue| > 1
      invariant Reduced(graph, queue, smoothness) == Reduced(g, leaves, smoothness)
      decreases |queue|
    {
      var child1: SDFNodeID := queue[0];
      var child2: SDFNodeID := queue[1];
      queue := queue[2..];
      var parent: SDFNodeID := |graph|;
      graph := graph + [UnionNode(child1, child2, smoothness)];
      queue := queue + [parent];
    }
    root := if queue == [] then None else Some(queue[0]);
    assert queue == (if root.Some? then [root.value] else []);
    ReducedSize(g, leaves, smoothness);
    if (forall id | id in leaves :: id < |g|) && leaves != [] {
      CoveredAllLeaves(g, leaves);
      ReducedCovers(g, |g|, leaves, smoothness);
    }
  }

  /** `MetaSDFGroupUnion::resolve`: a single SDF passes through, a group is
      combined into one balanced tree of unions covering each member once. */
  method ResolveGroupUnion(g: seq<SDFNode>, childOutput: MetaSDFNodeOutput, smoothness: real)
    returns (r: Result<Resolution, BuildError>)
    ensures r.Err? ==> r.error == UnexpectedInput("SDFGroupUnion", Label(childOutput))
    ensures r.Err? <==> !(childOutput.SingleSDF? || childOutput.SDFGroup?)
    ensures childOutput.SingleSDF? ==> r == Ok((g, childOutput))
    ensures r.Ok? && childOutput.SDFGroup? ==>
      r.value.1.SingleSDF? && (r.value.1.sdf.None? <==> childOutput.sdfs == []) &&
      |r.value.0| == |g| + (if childOutput.sdfs == [] then 0 else |childOutput.sdfs| - 1)
    ensures r.Ok? && childOutput.SDFGroup? && childOutput.sdfs != [] && OutputIn(childOutput, |g|) ==>
      UnionsFrom(r.value.0, |g|) && r.value.1.sdf.value < |r.value.0| &&
      (forall i | |g| <= i < |r.value.0| :: r.value.0[i].smoothness == NonNegative(smoothness)) &&
      Covered(r.value.0, |g|, r.value.1.sdf.value) == multiset(childOutput.sdfs)
    ensures r.Ok? && GraphSound(g) && OutputIn(childOutput, |g|) ==> SoundStep(g, r.value.0, r.value.1)
  {
    match childOutput {
      case SingleSDF(_) =>
        r := Ok((g, childOutput));
      case SDFGroup(leaves) =>
        var graph, root := EmitBalancedUnionTree(g, leaves, NonNegative(smoothness));
        r := Ok((graph, SingleSDF(root)));
        if OutputIn(childOutput, |g|) && leaves != [] {
          ReducedSmoothness(g, leaves, NonNegative(smoothness));
          if GraphSound(g) {
            assert graph[..|g|] == g;
            UnionsKeepSound(graph, |g|);
          }
        }
      case _ =>
        r := Err(UnexpectedInput("SDFGroupUnion", Label(childOutput)));
    }
  }

  /** Every node the reduction adds is a union of the given smoothness. */
  lemma {:induction false} ReducedSmoothness(g: seq<SDFNode>, queue: seq<SDFNodeID>, s: real)
    ensures var gOut := Reduced(g, queue, s).0;
      |g| <= |gOut| && forall i | |g| <= i < |gOut| :: gOut[i].UnionNode? && gOut[i].smoothness == s
    decreases |queue|
  {
    if |queue| > 1 {
      var g1 := g + [UnionNode(queue[0], queue[1], s)];
      ReducedSmoothness(g1, queue[2..] + [|g|], s);
      ReducedSize(g1, queue[2..] + [|g|], s);
      var gOut := Reduced(g, queue, s).0;
      assert g1 <= gOut;
      assert gOut[|g|] == g1[|g|];
    }
  }

  // ---------------------------------------------------------------------
  // Transform application

  /** The closure `apply_transform`: a scaling node unless the scaling is
      one, then a rotation node unless the rotation is the identity, then a
      translation node unless the translation is zero. */
  function ApplyTransform(g: seq<SDFNode>, sdf: SDFNodeID, t: Similarity3): (seq<SDFNode>, SDFNodeID)
  {
    var (g1, id1) := if t.scaling != 1.0 then (g + [ScalingNode(sdf, t.scaling)], |g|) else (g, sdf);
    var (g2, id2) := if t.rotation != IDENTITY_ROTATION then (g1 + [RotationNode(id1, t.rotation)], |g1|) else (g1, id1);
    if t.translation != ZERO_VECTOR then (g2 + [TranslationNode(id2, t.translation)], |g2|) else (g2, id2)
  }

  /** How many of the three components of `t` differ from the identity. */
  function ComponentCount(t: Similarity3): nat
  {
    (if t.scaling != 1.0 then 1 else 0) + (if t.rotation != IDENTITY_ROTATION then 1 else 0) +
    (if t.translation != ZERO_VECTOR then 1 else 0)
  }

  /** Reads a chain of transform nodes back: the node below the chain (the
      first one under `floor`, or the first that is not a transform node)
      and the similarity the chain applies to it. */
  ghost function Decode(g: seq<SDFNode>, id: SDFNodeID, floor: nat): (SDFNodeID, Similarity3)
    decreases id
  {
    if id < floor || id >= |g| then (id, IDENTITY_TRANSFORM)
    else match g[id]
      case ScalingNode(a, s) =>
        if a < id then var d := Decode(g, a, floor); (d.0, d.1.(scaling := s)) else (id, IDENTITY_TRANSFORM)
      case RotationNode(a, q) =>
        if a < id then var d := Decode(g, a, floor); (d.0, d.1.(rotation := q)) else (id, IDENTITY_TRANSFORM)
      case TranslationNode(a, v) =>
        if a < id then var d := Decode(g, a, floor); (d.0, d.1.(translation := v)) else (id, IDENTITY_TRANSFORM)
      case _ => (id, IDENTITY_TRANSFORM)
  }

  lemma {:induction false} DecodeGrows(g: seq<SDFNode>, ext: seq<SDFNode>, id: SDFNodeID, floor: nat)
    requires id < |g|
    ensures Decode(g + ext, id, floor) == Decode(g, id, floor)
    decreases id
  {
    if id >= floor {
      assert (g + ext)[id] == g[id];
      if (g[id].ScalingNode? || g[id].RotationNode? || g[id].TranslationNode?) && g[id].input < id {
        DecodeGrows(g, ext, g[id].input, floor);
      }
    }
  }

  /** Appending a node whose inputs exist keeps the graph sound. */
  lemma AppendKeepsSound(g: seq<SDFNode>, n: SDFNode)
    requires GraphSound(g) && forall c | c in Inputs(n) :: c < |g|
    ensures GraphSound(g + [n])
  {
    forall i, c | 0 <= i < |g + [n]| && c in Inputs((g + [n])[i])
      ensures c < i
    {
      if i < |g| {
        assert (g + [n])[i] == g[i];
      }
    }
  }

  /** Applying a transform to an existing SDF adds one node per
      non-identity component, and reading the new chain back gives the SDF
      and the transform. */
  lemma ApplyTransformRoundTrip(g: seq<SDFNode>, sdf: SDFNodeID, t: Similarity3, floor: nat)
    requires sdf < floor <= |g|
    ensures var (gOut, id) := ApplyTransform(g, sdf, t);
      g <= gOut && |gOut| == |g| + ComponentCount(t) && id < |gOut| &&
      Decode(gOut, id, floor) == (sdf, t) && (GraphSound(g) ==> GraphSound(gOut))
  {
    var g1 := if t.scaling != 1.0 then g + [ScalingNode(sdf, t.scaling)] else g;
    var id1 := if t.scaling != 1.0 then |g| else sdf;
    if t.scaling != 1.0 {
      DecodeGrows(g, [ScalingNode(sdf, t.scaling)], sdf, floor);
      if GraphSound(g) {
        AppendKeepsSound(g, ScalingNode(sdf, t.scaling));
      }
    }
    assert Decode(g1, id1, floor) == (sdf, Similarity3(t.scaling, IDENTITY_ROTATION, ZERO_VECTOR));
    var g2 := if t.rotation != IDENTITY_ROTATION then g1 + [RotationNode(id1, t.rotation)] else g1;
    var id2 := if t.rotation != IDENTITY_ROTATION then |g1| else id1;
    if t.rotation != IDENTITY_ROTATION {
      DecodeGrows(g1, [RotationNode(id1, t.rotation)], id1, floor);
      if GraphSound(g1) {
        AppendKeepsSound(g1, RotationNode(id1, t.rotation));
      }
    }
    assert Decode(g2, id2, floor) == (sdf, Similarity3(t.scaling, t.rotation, ZERO_VECTOR));
    if t.translation != ZERO_VECTOR {
      DecodeGrows(g2, [TranslationNode(id2, t.translation)], id2, floor);
      if GraphSound(g2) {
        AppendKeepsSound(g2, TranslationNode(id2, t.translation));
      }
    }
  }

  /** The SDFs a `SingleSDF` or `SDFGroup` output lists. */
  function SDFsOf(output: MetaSDFNodeOutput): seq<SDFNodeID>
  {
    match output
    case SingleSDF(s) => if s.Some? then [s.value] else []
    case SDFGroup(ids) => ids
    case _ => []
  }

  /** The transforms a `SingleTransform` or `TransformGroup` output lists. */
  function TransformsOf(output: MetaSDFNodeOutput): seq<Similarity3>
  {
    match output
    case SingleTransform(t) => if t.Some? then [t.value] else []
    case TransformGroup(ts) => ts
    case _ => []
  }

  /** Every transform applied in turn to one SDF. */
  function AppliedTo(g: seq<SDFNode>, sdf: SDFNodeID, ts: seq<Similarity3>): (seq<SDFNode>, seq<SDFNodeID>)
    decreases |ts|
  {
    if ts == [] then (g, [])
    else
      var applied := ApplyTransform(g, sdf, ts[0]);
      var rest := AppliedTo(applied.0, sdf, ts[1..]);
      (rest.0, [applied.1] + rest.1)
  }

  /** Every transform applied to every SDF, SDF-major. */
  function AppliedPairs(g: seq<SDFNode>, sdfs: seq<SDFNodeID>, ts: seq<Similarity3>): (seq<SDFNode>, seq<SDFNodeID>)
    decreases |sdfs|
  {
    if sdfs == [] then (g, [])
    else
      var first := AppliedTo(g, sdfs[0], ts);
      var rest := AppliedPairs(first.0, sdfs[1..], ts);
      (rest.0, first.1 + rest.1)
  }

  /** Output `j` of applying every transform to `sdf` reads back as `sdf`
      under transform `j`. */
  lemma {:induction false} AppliedToRoundTrip(g: seq<SDFNode>, sdf: SDFNodeID, ts: seq<Similarity3>, floor: nat)
    requires sdf < floor <= |g|
    ensures var res := AppliedTo(g, sdf, ts);
      g <= res.0 && |res.1| == |ts| && (GraphSound(g) ==> GraphSound(res.0)) &&
      forall j | 0 <= j < |ts| :: res.1[j] < |res.0| && Decode(res.0, res.1[j], floor) == (sdf, ts[j])
    decreases |ts|
  {
    if ts != [] {
      var applied := ApplyTransform(g, sdf, ts[0]);
      ApplyTransformRoundTrip(g, sdf, ts[0], floor);
      AppliedToRoundTrip(applied.0, sdf, ts[1..], floor);
      var rest := AppliedTo(applied.0, sdf, ts[1..]);
      assert rest.0 == applied.0 + rest.0[|applied.0|..];
      DecodeGrows(applied.0, rest.0[|applied.0|..], applied.1, floor);
    }
  }

  /** The (SDF, transform) pairs in SDF-major order. */
  function Pairs(sdfs: seq<SDFNodeID>, ts: seq<Similarity3>): seq<(SDFNodeID, Similarity3)>
    decreases |sdfs|
  {
    if sdfs == [] then [] else seq(|ts|, j requires 0 <= j < |ts| => (sdfs[0], ts[j])) + Pairs(sdfs[1..], ts)
  }

  /** There are `|sdfs| * |ts|` pairs. */
  lemma {:induction false} PairsLength(sdfs: seq<SDFNodeID>, ts: seq<Similarity3>)
    ensures |Pairs(sdfs, ts)| == |sdfs| * |ts|
    decreases |sdfs|
  {
    if sdfs != [] {
      PairsLength(sdfs[1..], ts);
      Arith.MulStep(|sdfs| - 1, |ts|);
    }
  }

  /** Pair `i * |ts| + j` is SDF `i` with transform `j`. */
  lemma {:induction false} PairAt(sdfs: seq<SDFNodeID>, ts: seq<Similarity3>, i: nat, j: nat)
    requires i < |sdfs| && j < |ts|
    ensures i * |ts| + j < |Pairs(sdfs, ts)| && Pairs(sdfs, ts)[i * |ts| + j] == (sdfs[i], ts[j])
    decreases i
  {
    var n := |ts|;
    PairsLength(sdfs[1..], ts);
    if i > 0 {
      PairAt(sdfs[1..], ts, i - 1, j);
      var k := (i - 1) * n + j;
      Arith.MulStep(i - 1, n);
      assert i * n + j == n + k;
      assert sdfs[1..][i - 1] == sdfs[i];
    }
  }

  /** Output `k` reads back as pair `k`. */
  ghost predicate PairsDecoded(gOut: seq<SDFNode>, ids: seq<SDFNodeID>, sdfs: seq<SDFNodeID>,
                               ts: seq<Similarity3>, floor: nat)
  {
    |ids| == |Pairs(sdfs, ts)| &&
    forall k | 0 <= k < |ids| :: ids[k] < |gOut| && Decode(gOut, ids[k], floor) == Pairs(sdfs, ts)[k]
  }

  /** Applying every transform to every existing SDF decodes pairwise. */
  lemma {:induction false} AppliedPairsRoundTrip(g: seq<SDFNode>, sdfs: seq<SDFNodeID>, ts: seq<Similarity3>, floor: nat)
    requires floor <= |g| && forall sdf | sdf in sdfs :: sdf < floor
    ensures var res := AppliedPairs(g, sdfs, ts);
      g <= res.0 && (GraphSound(g) ==> GraphSound(res.0)) && PairsDecoded(res.0, res.1, sdfs, ts, floor)
    decreases |sdfs|
  {
    if sdfs != [] {
      assert sdfs[0] in sdfs && forall sdf | sdf in sdfs[1..] :: sdf in sdfs;
      var first := AppliedTo(g, sdfs[0], ts);
      AppliedToRoundTrip(g, sdfs[0], ts, floor);
      AppliedPairsRoundTrip(first.0, sdfs[1..], ts, floor);
      var rest := AppliedPairs(first.0, sdfs[1..], ts);
      assert rest.0 == first.0 + rest.0[|first.0|..];
      var head := seq(|ts|, j requires 0 <= j < |ts| => (sdfs[0], ts[j]));
      assert Pairs(sdfs, ts) == head + Pairs(sdfs[1..], ts);
      DecodedAfterGrowth(first.0, rest.0, first.1, sdfs[0], ts, floor);
      DecodedConcat(rest.0, first.1, rest.1, head, Pairs(sdfs[1..], ts), floor);
    }
  }

  /** Outputs that decode in a graph still decode once nodes are appended. */
  lemma DecodedAfterGrowth(g: seq<SDFNode>, gOut: seq<SDFNode>, ids: seq<SDFNodeID>, sdf: SDFNodeID,
                           ts: seq<Similarity3>, floor: nat)
    requires g <= gOut && |ids| == |ts|
    requires forall j | 0 <= j < |ts| :: ids[j] < |g| && Decode(g, ids[j], floor) == (sdf, ts[j])
    ensures forall j | 0 <= j < |ts| :: ids[j] < |gOut| && Decode(gOut, ids[j], floor) == (sdf, ts[j])
  {
    assert gOut == g + gOut[|g|..];
    forall j | 0 <= j < |ts| ensures Decode(gOut, ids[j], floor) == (sdf, ts[j]) {
      DecodeGrows(g, gOut[|g|..], ids[j], floor);
    }
  }

  /** Two blocks of outputs that decode as two blocks of pairs decode as
      their concatenation. */
  lemma DecodedConcat(gOut: seq<SDFNode>, ids1: seq<SDFNodeID>, ids2: seq<SDFNodeID>,
                      p1: seq<(SDFNodeID, Similarity3)>, p2: seq<(SDFNodeID, Similarity3)>, floor: nat)
    requires |ids1| == |p1| && |ids2| == |p2|
    requires forall j | 0 <= j < |ids1| :: ids1[j] < |gOut| && Decode(gOut, ids1[j], floor) == p1[j]
    requires forall j | 0 <= j < |ids2| :: ids2[j] < |gOut| && Decode(gOut, ids2[j], floor) == p2[j]
    ensures forall k | 0 <= k < |ids1 + ids2| ::
      (ids1 + ids2)[k] < |gOut| && Decode(gOut, (ids1 + ids2)[k], floor) == (p1 + p2)[k]
  {
    forall k | 0 <= k < |ids1 + ids2|
      ensures (ids1 + ids2)[k] < |gOut| && Decode(gOut, (ids1 + ids2)[k], floor) == (p1 + p2)[k]
    {
      if k >= |ids1| {
        assert (ids1 + ids2)[k] == ids2[k - |ids1|] && (p1 + p2)[k] == p2[k - |ids1|];
      }
    }
  }

  /** The inner loop of `MetaTransformApplication::resolve`. */
  method ApplyAllTransforms(g: seq<SDFNode>, sdf: SDFNodeID, ts: seq<Similarity3>)
    returns (graph: seq<SDFNode>, outputIds: seq<SDFNodeID>)
    ensures (graph, outputIds) == AppliedTo(g, sdf, ts)
  {
    graph := g;
    outputIds := [];
    assert ts[0..] == ts;
    for j := 0 to |ts|
      invariant AppliedTo(graph, sdf, ts[j..]).0 == AppliedTo(g, sdf, ts).0
      invariant outputIds + AppliedTo(graph, sdf, ts[j..]).1 == AppliedTo(g, sdf, ts).1
    {
      assert ts[j..][0] == ts[j] && ts[j..][1..] == ts[j + 1..];
      var applied := ApplyTransform(graph, sdf, ts[j]);
      var rest := AppliedTo(applied.0, sdf, ts[j + 1..]);
      assert outputIds + ([applied.1] + rest.1) == (outputIds + [applied.1]) + rest.1;
      graph := applied.0;
      outputIds := outputIds + [applied.1];
    }
    assert ts[|ts|..] == [];
    assert AppliedTo(graph, sdf, ts[|ts|..]) == (graph, []);
    assert outputIds + [] == outputIds;
  }

  /** `MetaTransformApplication::resolve`: every transform applied to every
      SDF, SDF-major, as a group; a wrong kind of input is an error, the SDF
      input being checked first. */
  method ResolveTransformApplication(g: seq<SDFNode>, sdfOutput: MetaSDFNodeOutput, transformOutput: MetaSDFNodeOutput)
    returns (r: Result<Resolution, BuildError>)
    ensures r.Err? ==> r.error.UnexpectedInput? && r.error.nodeName == "TransformApplication"
    ensures r.Err? <==>
      !(sdfOutput.SingleSDF? || sdfOutput.SDFGroup?) || !(transformOutput.SingleTransform? || transformOutput.TransformGroup?)
    ensures r.Err? && !(sdfOutput.SingleSDF? || sdfOutput.SDFGroup?) ==>
      r.error == UnexpectedInput("TransformApplication", Label(sdfOutput))
    ensures r.Ok? ==> r.value.1.SDFGroup? && r.value == (AppliedPairs(g, SDFsOf(sdfOutput), TransformsOf(transformOutput)).0,
                                                         SDFGroup(AppliedPairs(g, SDFsOf(sdfOutput), TransformsOf(transformOutput)).1))
    ensures r.Ok? && OutputIn(sdfOutput, |g|) ==>
      PairsDecoded(r.value.0, r.value.1.sdfs, SDFsOf(sdfOutput), TransformsOf(transformOutput), |g|)
    ensures r.Ok? && GraphSound(g) && OutputIn(sdfOutput, |g|) ==> SoundStep(g, r.value.0, r.value.1)
  {
    if !(sdfOutput.SingleSDF? || sdfOutput.SDFGroup?) {
      return Err(UnexpectedInput("TransformApplication", Label(sdfOutput)));
    }
    if !(transformOutput.SingleTransform? || transformOutput.TransformGroup?) {
      return Err(UnexpectedInput("TransformApplication", Label(transformOutput)));
    }
    var sdfs := SDFsOf(sdfOutput);
    var ts := TransformsOf(transformOutput);
    var graph := g;
    var outputIds: seq<SDFNodeID> := [];
    assert sdfs[0..] == sdfs;
    for i := 0 to |sdfs|
      invariant AppliedPairs(graph, sdfs[i..], ts).0 == AppliedPairs(g, sdfs, ts).0
      invariant outputIds + AppliedPairs(graph, sdfs[i..], ts).1 == AppliedPairs(g, sdfs, ts).1
    {
      assert sdfs[i..][0] == sdfs[i] && sdfs[i..][1..] == sdfs[i + 1..];
      var applied, appliedIds := ApplyAllTransforms(graph, sdfs[i], ts);
      var rest := AppliedPairs(applied, sdfs[i + 1..], ts);
      assert outputIds + (appliedIds + rest.1) == (outputIds + appliedIds) + rest.1;
      graph := applied;
      outputIds := outputIds + appliedIds;
    }
    assert sdfs[|sdfs|..] == [];
    assert AppliedPairs(graph, sdfs[|sdfs|..], ts) == (graph, []);
    assert outputIds + [] == outputIds;
    r := Ok((graph, SDFGroup(outputIds)));
    PairsOutputIn(g, sdfOutput, transformOutput);
  }

  /** The resolved transform application extends the graph soundly and
      names only nodes of the extension. */
  lemma PairsOutputIn(g: seq<SDFNode>, sdfOutput: MetaSDFNodeOutput, transformOutput: MetaSDFNodeOutput)
    ensures var res := AppliedPairs(g, SDFsOf(sdfOutput), TransformsOf(transformOutput));
      OutputIn(sdfOutput, |g|) ==>
        PairsDecoded(res.0, res.1, SDFsOf(sdfOutput), TransformsOf(transformOutput), |g|) &&
        (GraphSound(g) ==> SoundStep(g, res.0, SDFGroup(res.1)))
  {
    var sdfs := SDFsOf(sdfOutput);
    if OutputIn(sdfOutput, |g|) {
      assert forall sdf | sdf in sdfs :: sdf < |g|;
      AppliedPairsRoundTrip(g, sdfs, TransformsOf(transformOutput), |g|);
    }
  }
}
