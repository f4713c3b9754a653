/** Postprocessing management (src/scene/postprocessing.rs): which render
    passes the postprocessor sets up for ambient occlusion, bloom and tone
    mapping, in what order, and which of them are active given the current
    toggles. Material specifications, their hashed IDs and the exposure
    value are not modelled: a pass is described by what it reads, what it
    writes and what kind of pass it is. */
module Postprocessing {

  /** `ToneMapping`. `None` is renamed so it does not read as an absent
      value. */
  datatype ToneMapping = NoToneMapping | ACES | KhronosPBRNeutral

  /** `ToneMapping::all()`, in declaration order. */
  const ALL_TONE_MAPPINGS: seq<ToneMapping> := [NoToneMapping, ACES, KhronosPBRNeutral]

  /** Position of a tone mapping in `ALL_TONE_MAPPINGS`. */
  function ToneMappingIdx(mapping: ToneMapping): (idx: nat)
    ensures idx < |ALL_TONE_MAPPINGS| && ALL_TONE_MAPPINGS[idx] == mapping
    ensures forall j :: 0 <= j < |ALL_TONE_MAPPINGS| && ALL_TONE_MAPPINGS[j] == mapping ==> j == idx
  {
    match mapping
    case NoToneMapping => 0
    case ACES => 1
    case KhronosPBRNeutral => 2
  }

  /** The tone mapping `cycle_tone_mapping` switches to. */
  function NextToneMapping(mapping: ToneMapping): ToneMapping
  {
    match mapping
    case NoToneMapping => ACES
    case ACES => KhronosPBRNeutral
    case KhronosPBRNeutral => NoToneMapping
  }

  /** Cycling walks through all three mappings in the order of
      `ToneMapping::all()` and comes back after exactly three steps. */
  lemma CycleHasPeriodThree(mapping: ToneMapping)
    ensures NextToneMapping(NextToneMapping(NextToneMapping(mapping))) == mapping
    ensures NextToneMapping(mapping) != mapping
    ensures NextToneMapping(NextToneMapping(mapping)) != mapping
    ensures ToneMappingIdx(NextToneMapping(mapping)) == (ToneMappingIdx(mapping) + 1) % |ALL_TONE_MAPPINGS|
  {
  }

  /** `RenderAttachmentQuantity`, restricted to the attachments the
      postprocessing passes read or write. */
  datatype RenderAttachmentQuantity =
    | Luminance
    | EmissiveLuminance
    | EmissiveLuminanceAux
    | AmbientReflectedLuminance

  /** `GaussianBlurDirection`. */
  datatype GaussianBlurDirection = Horizontal | Vertical

  /** A postprocessing `RenderPassSpecification`, reduced to the kind of
      pass and the attachments it connects. */
  datatype PostprocessingPass =
    | Passthrough(input: RenderAttachmentQuantity, output: RenderAttachmentQuantity)
    | UnoccludedAmbientApplication
    | AmbientOcclusionComputation
    | AmbientOcclusionApplication
    | GaussianBlur(input: RenderAttachmentQuantity, output: RenderAttachmentQuantity,
                   direction: GaussianBlurDirection)
    | ToneMappingPass(mapping: ToneMapping, input: RenderAttachmentQuantity)

  /** `setup_ambient_occlusion_materials_and_render_passes`: the
      fallback pass that applies unoccluded ambient light, then the
      occlusion computation and its application. */
  function AmbientOcclusionPasses(): (passes: seq<PostprocessingPass>)
    ensures |passes| == 3
    ensures passes[0].UnoccludedAmbientApplication?
    ensures passes[1].AmbientOcclusionComputation? && passes[2].AmbientOcclusionApplication?
  {
    [UnoccludedAmbientApplication, AmbientOcclusionComputation, AmbientOcclusionApplication]
  }

  /** `setup_tone_mapping_materials_and_render_passes`: one pass per
      tone mapping, reading the luminance attachment. */
  function ToneMappingPasses(): (passes: seq<PostprocessingPass>)
    ensures |passes| == |ALL_TONE_MAPPINGS|
    ensures forall j :: 0 <= j < |passes| ==>
      passes[j] == ToneMappingPass(ALL_TONE_MAPPINGS[j], Luminance)
  {
    [ToneMappingPass(NoToneMapping, Luminance), ToneMappingPass(ACES, Luminance),
     ToneMappingPass(KhronosPBRNeutral, Luminance)]
  }

  /** The pass at position `i` of a bloom chain with `nPasses` passes:
      first a passthrough of the emissive luminance, then horizontal and
      vertical blurs ping-ponging between the emissive luminance and its
      auxiliary attachment, the very last blur writing the luminance. */
  function BloomPassAt(i: nat, nPasses: nat): PostprocessingPass
  {
    if i == 0 then Passthrough(EmissiveLuminance, Luminance)
    else if i % 2 == 1 then GaussianBlur(EmissiveLuminance, EmissiveLuminanceAux, Horizontal)
    else if i + 1 == nPasses then GaussianBlur(EmissiveLuminanceAux, Luminance, Vertical)
    else GaussianBlur(EmissiveLuminanceAux, EmissiveLuminance, Vertical)
  }

  /** `setup_bloom_materials_and_render_passes`: one passthrough pass,
      then, when there are iterations at all, a horizontal and a vertical
      blur per iteration. */
  method SetupBloomPasses(nIterations: nat) returns (passes: seq<PostprocessingPass>)
    ensures |passes| == 1 + 2 * nIterations
    ensures forall i :: 0 <= i < |passes| ==> passes[i] == BloomPassAt(i, |passes|)
  {
    passes := [Passthrough(EmissiveLuminance, Luminance)];
    if nIterations > 0 {
      for iteration := 1 to nIterations
        invariant |passes| == 2 * iteration - 1
        invariant forall i :: 0 <= i < |passes| ==> passes[i] == BloomPassAt(i, 1 + 2 * nIterations)
      {
        passes := passes + [GaussianBlur(EmissiveLuminance, EmissiveLuminanceAux, Horizontal)];
        passes := passes + [GaussianBlur(EmissiveLuminanceAux, EmissiveLuminance, Vertical)];
      }
      passes := passes + [GaussianBlur(EmissiveLuminance, EmissiveLuminanceAux, Horizontal)];
      // The last pass writes to the luminance attachment.
      passes := passes + [GaussianBlur(EmissiveLuminanceAux, Luminance, Vertical)];
    }
  }

  /** Link `i` of a bloom chain of `nPasses` passes is a blur that writes
      what the next pass reads, in the other direction, and does not write
      the luminance. */
  predicate ChainLink(i: nat, nPasses: nat)
  {
    var pass, next := BloomPassAt(i, nPasses), BloomPassAt(i + 1, nPasses);
    && pass.GaussianBlur? && next.GaussianBlur?
    && pass.output == next.input
    && pass.direction != next.direction
    && pass.output != Luminance
  }

  /** The bloom chain is well connected: every blur but the last writes
      the attachment the next blur reads, the directions alternate, the
      chain starts from the emissive luminance, and of all the blurs only
      the final one writes the luminance. Without iterations only the
      passthrough remains. */
  lemma {:induction false} BloomChainIsConnected(nIterations: nat, nPasses: nat)
    requires nPasses == 1 + 2 * nIterations
    ensures nIterations == 0 ==> BloomPassAt(0, nPasses) == Passthrough(EmissiveLuminance, Luminance)
    ensures forall i :: 1 <= i < nPasses - 1 ==> ChainLink(i, nPasses)
    ensures nIterations > 0 ==>
      BloomPassAt(nPasses - 1, nPasses) == GaussianBlur(EmissiveLuminanceAux, Luminance, Vertical)
    ensures nIterations > 0 ==> BloomPassAt(1, nPasses).input == EmissiveLuminance
  {
    forall i | 1 <= i < nPasses - 1
      ensures ChainLink(i, nPasses)
    {
      if i % 2 == 1 {
        assert (i + 1) % 2 == 0;
      } else {
        assert (i + 1) % 2 == 1;
      }
    }
  }

  /** When a postprocessing pass is active: the unoccluded ambient pass
      and the bloom passthrough stand in for ambient occlusion and bloom
      while those are disabled, and of the tone mapping passes only the
      current mapping's runs. */
  predicate ShouldBeActive(pass: PostprocessingPass, aoEnabled: bool, bloomEnabled: bool,
                           toneMapping: ToneMapping)
  {
    match pass
    case UnoccludedAmbientApplication => !aoEnabled
    case AmbientOcclusionComputation => aoEnabled
    case AmbientOcclusionApplication => aoEnabled
    case Passthrough(_, _) => !bloomEnabled
    case GaussianBlur(_, _, _) => bloomEnabled
    case ToneMappingPass(mapping, _) => mapping == toneMapping
  }

  /** `Postprocessor`. */
  class Postprocessor {
    var aoEnabled: bool
    var aoPasses: seq<PostprocessingPass>
    var bloomEnabled: bool
    var bloomPasses: seq<PostprocessingPass>
    var toneMapping: ToneMapping
    var toneMappingPasses: seq<PostprocessingPass>

    /** The pass lists are the ones the setup functions produce, for some
        number of bloom iterations. */
    ghost predicate Valid()
      reads this
    {
      && aoPasses == AmbientOcclusionPasses()
      && |bloomPasses| % 2 == 1
      && (forall i :: 0 <= i < |bloomPasses| ==> bloomPasses[i] == BloomPassAt(i, |bloomPasses|))
      && toneMappingPasses == ToneMappingPasses()
    }

    /** `Postprocessor::new`, with the ambient occlusion sample count and
        radius, the blur sample counts and the exposure left out. */
    constructor(aoInitiallyEnabled: bool, bloomInitiallyEnabled: bool, bloomIterations: nat,
                toneMapping: ToneMapping)
      ensures Valid()
      ensures aoEnabled == aoInitiallyEnabled && bloomEnabled == bloomInitiallyEnabled
      ensures this.toneMapping == toneMapping
      ensures |bloomPasses| == 1 + 2 * bloomIterations
    {
      var bloom := SetupBloomPasses(bloomIterations);
      aoEnabled := aoInitiallyEnabled;
      aoPasses := AmbientOcclusionPasses();
      bloomEnabled := bloomInitiallyEnabled;
      bloomPasses := bloom;
      this.toneMapping := toneMapping;
      toneMappingPasses := ToneMappingPasses();
    }

    /** `render_passes`: ambient occlusion, then bloom, then tone mapping.
        The source asserts three ambient occlusion passes and one tone
        mapping pass per mapping. */
    function RenderPasses(): (passes: seq<PostprocessingPass>)
      reads this
      requires |aoPasses| == 3 && |toneMappingPasses| == |ALL_TONE_MAPPINGS|
      ensures |passes| == 3 + |bloomPasses| + |ALL_TONE_MAPPINGS|
      ensures passes[..3] == aoPasses
      ensures passes[3..3 + |bloomPasses|] == bloomPasses
      ensures passes[3 + |bloomPasses|..] == toneMappingPasses
    {
      aoPasses + bloomPasses + toneMappingPasses
    }

    /** `render_pass_states`, as "is active" flags. The same assertions
        hold, and the bloom list must not be empty (its length minus one is
        taken in unsigned arithmetic). */
    function RenderPassStates(): (states: seq<bool>)
      reads this
      requires |aoPasses| == 3 && |toneMappingPasses| == |ALL_TONE_MAPPINGS| && |bloomPasses| >= 1
      ensures |states| == |RenderPasses()|
      // exactly one of the unoccluded and the occluded ambient paths runs
      ensures states[0] == !aoEnabled && states[1] == aoEnabled && states[2] == aoEnabled
      // exactly one of the bloom passthrough and the blur chain runs
      ensures states[3] == !bloomEnabled
      ensures forall i :: 4 <= i < 3 + |bloomPasses| ==> states[i] == bloomEnabled
      // exactly one tone mapping pass runs: the current mapping's
      ensures states[3 + |bloomPasses| + ToneMappingIdx(toneMapping)]
      ensures forall i :: 3 + |bloomPasses| <= i < |states| && i != 3 + |bloomPasses| + ToneMappingIdx(toneMapping) ==>
        !states[i]
    {
      var ao, bloom, current := aoEnabled, bloomEnabled, toneMapping;
      [!ao, ao, ao]
      + [!bloom]
      + seq(|bloomPasses| - 1, _ => bloom)
      + seq(|ALL_TONE_MAPPINGS|, j requires 0 <= j < |ALL_TONE_MAPPINGS| => ALL_TONE_MAPPINGS[j] == current)
    }

    /** The states are in the same order as the passes: each state says
        exactly whether its pass should run under the current toggles. */
    lemma StatesMatchPasses()
      requires Valid() && |bloomPasses| >= 1
      ensures forall i :: 0 <= i < |RenderPasses()| ==>
        RenderPassStates()[i] == ShouldBeActive(RenderPasses()[i], aoEnabled, bloomEnabled, toneMapping)
    {
      var passes, states := RenderPasses(), RenderPassStates();
      var nb := |bloomPasses|;
      forall i | 0 <= i < |passes|
        ensures states[i] == ShouldBeActive(passes[i], aoEnabled, bloomEnabled, toneMapping)
      {
        if i < 3 {
          assert passes[i] == aoPasses[i];
        } else if i < 3 + nb {
          assert passes[i] == bloomPasses[i - 3] == BloomPassAt(i - 3, nb);
        } else {
          assert passes[i] == toneMappingPasses[i - 3 - nb];
        }
      }
    }

    /** `toggle_ambient_occlusion`. */
    method ToggleAmbientOcclusion()
      modifies this
      ensures aoEnabled == !old(aoEnabled)
      ensures bloomEnabled == old(bloomEnabled) && toneMapping == old(toneMapping)
      ensures aoPasses == old(aoPasses) && bloomPasses == old(bloomPasses)
      ensures toneMappingPasses == old(toneMappingPasses)
    {
      aoEnabled := !aoEnabled;
    }

    /** `toggle_bloom`. */
    method ToggleBloom()
      modifies this
      ensures bloomEnabled == !old(bloomEnabled)
      ensures aoEnabled == old(aoEnabled) && toneMapping == old(toneMapping)
      ensures aoPasses == old(aoPasses) && bloomPasses == old(bloomPasses)
      ensures toneMappingPasses == old(toneMappingPasses)
    {
      bloomEnabled := !bloomEnabled;
    }

    /** `cycle_tone_mapping`. */
    method CycleToneMapping()
      modifies this
      ensures toneMapping == NextToneMapping(old(toneMapping))
      ensures aoEnabled == old(aoEnabled) && bloomEnabled == old(bloomEnabled)
      ensures aoPasses == old(aoPasses) && bloomPasses == old(bloomPasses)
      ensures toneMappingPasses == old(toneMappingPasses)
    {
      toneMapping := match toneMapping
        case NoToneMapping => ACES
        case ACES => KhronosPBRNeutral
        case KhronosPBRNeutral => NoToneMapping;
    }
  }

  /** Toggling twice restores every field, and a toggle leaves the other
      effect's pass states and the tone mapping states alone; cycling the
      tone mapping three times restores it. */
  method ToggleAndCycleRoundTrips(p: Postprocessor)
    requires p.Valid() && |p.bloomPasses| >= 1
    modifies p
    ensures p.aoEnabled == old(p.aoEnabled) && p.bloomEnabled == old(p.bloomEnabled)
    ensures p.toneMapping == old(p.toneMapping)
    ensures p.Valid()
  {
    p.ToggleAmbientOcclusion();
    p.ToggleAmbientOcclusion();
    p.ToggleBloom();
    p.ToggleBloom();
    p.CycleToneMapping();
    p.CycleToneMapping();
    p.CycleToneMapping();
    CycleHasPeriodThree(old(p.toneMapping));
  }
}
