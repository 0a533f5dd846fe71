/**
 * The batch shader and pipeline tables of the hardware renderer: which
 * fragment shaders and pipelines are generated for the device's features,
 * how each pipeline blends and tests depth, and which pipeline a batch draw
 * selects.
 */
module Pipelines {
  import opened GpuTypes

  /** Device capabilities and settings that shape the tables. */
  datatype Features = Features(
    framebufferFetch: bool,
    dualSourceBlend: bool,
    pgxpDepthBuffer: bool,
    textureFilter: TextureFilter)

  /**
   * Whether a batch must be drawn twice, once for opaque and once for
   * transparent pixels: only a textured, semi-transparent batch without
   * framebuffer fetch is, and a textured subtractive one always is.
   */
  predicate NeedsTwoPassRendering(f: Features, textureMode: TextureMode, transparency: TransparencyMode)
    ensures NeedsTwoPassRendering(f, textureMode, transparency) ==>
      textureMode != TEXTURE_MODE_DISABLED && transparency != Disabled && !f.framebufferFetch
    ensures textureMode != TEXTURE_MODE_DISABLED && !f.framebufferFetch && transparency == BackgroundMinusForeground ==>
      NeedsTwoPassRendering(f, textureMode, transparency)
  {
    textureMode != TEXTURE_MODE_DISABLED && !f.framebufferFetch &&
    (transparency == BackgroundMinusForeground || (!f.dualSourceBlend && transparency != Disabled))
  }

  /**
   * Whether blending must happen in the fragment shader, reading the
   * framebuffer: never without framebuffer fetch; with it, always for
   * subtractive blending, and without dual-source blending for every
   * semi-transparent batch and for blended texture filtering.
   */
  predicate NeedsShaderBlending(f: Features, transparency: TransparencyMode)
    ensures NeedsShaderBlending(f, transparency) ==> f.framebufferFetch
    ensures f.framebufferFetch && transparency == BackgroundMinusForeground ==> NeedsShaderBlending(f, transparency)
    ensures f.framebufferFetch && !f.dualSourceBlend &&
            (transparency != Disabled || IsBlendedTextureFiltering(f.textureFilter)) ==>
      NeedsShaderBlending(f, transparency)
  {
    f.framebufferFetch &&
    (transparency == BackgroundMinusForeground ||
     (!f.dualSourceBlend && (transparency != Disabled || IsBlendedTextureFiltering(f.textureFilter))))
  }

  /** The single-pass render mode of a batch with the given transparency. */
  function GetRenderMode(transparency: TransparencyMode): (m: BatchRenderMode)
    ensures m == TransparencyDisabled || m == TransparentAndOpaque
    ensures m == TransparencyDisabled <==> transparency == Disabled
  {
    if transparency == Disabled then TransparencyDisabled else TransparentAndOpaque
  }

  /** Depth functions: slot 0 always passes, 1 is greater-or-equal, 2 is less-or-equal. */
  datatype DepthFunc = Always | GreaterEqual | LessEqual
  type DepthTest = d: nat | d < 3

  function DepthFuncOf(d: DepthTest): DepthFunc {
    if d == 0 then Always else if d == 1 then GreaterEqual else LessEqual
  }

  /** The depth-test slot a batch draw uses. */
  function DepthTestIndex(useDepthBuffer: bool, checkMaskBeforeDraw: bool): (d: DepthTest)
    ensures d == 2 <==> useDepthBuffer
    ensures d == 1 <==> !useDepthBuffer && checkMaskBeforeDraw
  {
    if useDepthBuffer then 2 else if checkMaskBeforeDraw then 1 else 0
  }

  datatype FragmentKey = FragmentKey(
    renderMode: BatchRenderMode,
    transparency: TransparencyMode,
    textureMode: TextureMode,
    dithering: bool,
    interlacing: bool)

  datatype PipelineKey = PipelineKey(
    depthTest: DepthTest,
    renderMode: BatchRenderMode,
    textureMode: TextureMode,
    transparency: TransparencyMode,
    dithering: bool,
    interlacing: bool)

  /**
   * With framebuffer fetch only the single-pass render modes get shaders;
   * without it only the shaders that do no blending of their own.
   */
  predicate FragmentGenerated(f: Features, k: FragmentKey) {
    if f.framebufferFetch then k.renderMode == TransparencyDisabled || k.renderMode == TransparentAndOpaque
    else k.transparency == Disabled
  }

  /** With framebuffer fetch the multi-pass render modes get no pipeline. */
  predicate PipelineGenerated(f: Features, k: PipelineKey) {
    !f.framebufferFetch || k.renderMode == TransparencyDisabled || k.renderMode == TransparentAndOpaque
  }

  datatype BlendFunc = One | Zero | SrcAlpha1 | ConstantColor
  datatype BlendOp = Add | ReverseSubtract

  datatype BlendState =
    | NoBlending
    | Blending(srcBlend: BlendFunc, dstBlend: BlendFunc, blendOp: BlendOp,
               srcAlphaBlend: BlendFunc, dstAlphaBlend: BlendFunc, alphaBlendOp: BlendOp,
               constant: u32)

  datatype PipelineConfig = PipelineConfig(
    textured: bool,
    fragment: FragmentKey,
    depthFunc: DepthFunc,
    depthWrite: bool,
    blend: BlendState)

  /** True when the render mode lets transparent pixels through to be blended. */
  predicate BlendsTransparentPixels(m: BatchRenderMode) {
    m != TransparencyDisabled && m != OnlyOpaque
  }

  /** The fixed-function blend state of a pipeline. */
  function BlendStateFor(f: Features, k: PipelineKey, useShaderBlending: bool): (b: BlendState)
    ensures b.Blending? <==>
      !useShaderBlending &&
      ((k.transparency != Disabled && BlendsTransparentPixels(k.renderMode)) ||
       (k.textureMode != TEXTURE_MODE_DISABLED && IsBlendedTextureFiltering(f.textureFilter)))
    ensures b.Blending? ==> b.srcBlend == One && b.srcAlphaBlend == One && b.alphaBlendOp == Add
    ensures b.Blending? ==>
      (b.blendOp == ReverseSubtract <==> k.transparency == BackgroundMinusForeground && BlendsTransparentPixels(k.renderMode))
    ensures b.Blending? && f.dualSourceBlend ==> b.dstBlend == SrcAlpha1 && b.dstAlphaBlend == Zero
    ensures b.Blending? && !f.dualSourceBlend ==>
      if k.transparency == HalfBackgroundPlusHalfForeground
      then b.dstBlend == ConstantColor && b.dstAlphaBlend == ConstantColor && b.constant == 0x00808080
      else b.dstBlend == One && b.dstAlphaBlend == Zero
  {
    var textured := k.textureMode != TEXTURE_MODE_DISABLED;
    if !useShaderBlending &&
       ((k.transparency != Disabled && BlendsTransparentPixels(k.renderMode)) ||
        (textured && IsBlendedTextureFiltering(f.textureFilter)))
    then
      var op := if k.transparency == BackgroundMinusForeground && BlendsTransparentPixels(k.renderMode)
                then ReverseSubtract else Add;
      if f.dualSourceBlend then Blending(One, SrcAlpha1, op, One, Zero, Add, 0)
      else if k.transparency == HalfBackgroundPlusHalfForeground
      then Blending(One, ConstantColor, op, One, ConstantColor, Add, 0x00808080)
      else Blending(One, One, op, One, Zero, Add, 0)
    else NoBlending
  }

  /** The configuration of the pipeline in slot `k`, as the compile loop builds it. */
  function PipelineConfigFor(f: Features, k: PipelineKey): (c: PipelineConfig)
    ensures c.textured <==> k.textureMode != TEXTURE_MODE_DISABLED
    ensures c.fragment.renderMode == k.renderMode && c.fragment.textureMode == k.textureMode
    ensures c.fragment.dithering == k.dithering && c.fragment.interlacing == k.interlacing
    ensures c.fragment.transparency == k.transparency || c.fragment.transparency == Disabled
    ensures c.depthWrite <==> !f.pgxpDepthBuffer || k.depthTest != 0
    ensures c.depthFunc == DepthFuncOf(k.depthTest)
  {
    var textured := k.textureMode != TEXTURE_MODE_DISABLED;
    var useShaderBlending := textured && NeedsShaderBlending(f, k.transparency);
    var fragment := FragmentKey(k.renderMode, if useShaderBlending then k.transparency else Disabled,
                                k.textureMode, k.dithering, k.interlacing);
    PipelineConfig(textured, fragment, DepthFuncOf(k.depthTest), !f.pgxpDepthBuffer || k.depthTest != 0,
                   BlendStateFor(f, k, useShaderBlending))
  }

  /** Two-pass rendering is only ever needed on devices without framebuffer fetch. */
  lemma TwoPassOnlyWithoutFramebufferFetch(f: Features, tm: TextureMode, t: TransparencyMode)
    ensures NeedsTwoPassRendering(f, tm, t) ==> !f.framebufferFetch
    ensures NeedsShaderBlending(f, t) ==> f.framebufferFetch
    ensures !(NeedsTwoPassRendering(f, tm, t) && NeedsShaderBlending(f, t))
  {
  }

  /** Every generated pipeline refers to a fragment shader that was generated. */
  lemma PipelineFragmentsGenerated(f: Features, k: PipelineKey)
    requires PipelineGenerated(f, k)
    ensures FragmentGenerated(f, PipelineConfigFor(f, k).fragment)
  {
  }

  /** The render passes a batch draw performs, before any wireframe overlay. */
  function BatchRenderPasses(f: Features, textureMode: TextureMode, transparency: TransparencyMode): (ps: seq<BatchRenderMode>)
    ensures |ps| == (if NeedsTwoPassRendering(f, textureMode, transparency) then 2 else 1)
    ensures NeedsTwoPassRendering(f, textureMode, transparency) ==> ps == [OnlyOpaque, OnlyTransparent]
    ensures !NeedsTwoPassRendering(f, textureMode, transparency) ==> ps == [GetRenderMode(transparency)]
  {
    if NeedsTwoPassRendering(f, textureMode, transparency) then [OnlyOpaque, OnlyTransparent]
    else [GetRenderMode(transparency)]
  }

  /** The pipeline slot a draw of `renderMode` selects for the current batch state. */
  function SelectedPipeline(renderMode: BatchRenderMode, useDepthBuffer: bool, checkMaskBeforeDraw: bool,
                            textureMode: TextureMode, transparency: TransparencyMode,
                            dithering: bool, interlacing: bool): (k: PipelineKey)
    ensures k.depthTest == 2 <==> useDepthBuffer
    ensures k.depthTest == 1 <==> !useDepthBuffer && checkMaskBeforeDraw
    ensures k.depthTest == 0 <==> !useDepthBuffer && !checkMaskBeforeDraw
    ensures k.renderMode == renderMode && k.textureMode == textureMode && k.transparency == transparency
    ensures k.dithering == dithering && k.interlacing == interlacing
  {
    PipelineKey(DepthTestIndex(useDepthBuffer, checkMaskBeforeDraw), renderMode, textureMode, transparency,
                dithering, interlacing)
  }

  /** Every pipeline a batch draw can select was generated. */
  lemma SelectedPipelinesGenerated(f: Features, useDepthBuffer: bool, checkMaskBeforeDraw: bool,
                                   textureMode: TextureMode, transparency: TransparencyMode,
                                   dithering: bool, interlacing: bool, i: nat)
    requires i < |BatchRenderPasses(f, textureMode, transparency)|
    ensures PipelineGenerated(f, SelectedPipeline(BatchRenderPasses(f, textureMode, transparency)[i],
                                                  useDepthBuffer, checkMaskBeforeDraw, textureMode, transparency,
                                                  dithering, interlacing))
  {
  }

  // ----- Ordinals: the position of a slot in the compile loops' iteration order -----

  function B(b: bool): nat { if b then 1 else 0 }

  /** Fragment shader loops run over render mode, transparency, texture mode, dithering, interlacing. */
  function FragmentOrdinal(k: FragmentKey): (n: nat)
    ensures n < 720
  {
    (((RenderModeIndex(k.renderMode) * 5 + TransparencyIndex(k.transparency)) * 9 + k.textureMode) * 2
     + B(k.dithering)) * 2 + B(k.interlacing)
  }

  /** Pipeline loops run over depth test, render mode, transparency, texture mode, dithering, interlacing. */
  function PipelineOrdinal(k: PipelineKey): (n: nat)
    ensures n < 2160
  {
    ((((k.depthTest * 4 + RenderModeIndex(k.renderMode)) * 5 + TransparencyIndex(k.transparency)) * 9
      + k.textureMode) * 2 + B(k.dithering)) * 2 + B(k.interlacing)
  }

  lemma TransparencyIndexInjective(a: TransparencyMode, b: TransparencyMode)
    requires TransparencyIndex(a) == TransparencyIndex(b)
    ensures a == b
  {
  }

  lemma RenderModeIndexInjective(a: BatchRenderMode, b: BatchRenderMode)
    requires RenderModeIndex(a) == RenderModeIndex(b)
    ensures a == b
  {
  }

  /** What the compile step produces when every shader and pipeline could be created. */
  datatype Tables = Tables(fragments: set<FragmentKey>, pipelines: map<PipelineKey, PipelineConfig>)

  /**
   * Generates the batch vertex shaders, fragment shaders and pipelines in the
   * order of the compile loops. Creation of each object by the device is
   * given by the three predicates; the first failure ends the step.
   */
  method CompileBatchPipelines(f: Features, vertexShaderOk: bool -> bool, fragmentShaderOk: FragmentKey -> bool,
                               pipelineOk: PipelineConfig -> bool) returns (r: Option<Tables>)
    ensures r.Some? <==>
      vertexShaderOk(false) && vertexShaderOk(true) &&
      (forall k: FragmentKey :: FragmentGenerated(f, k) ==> fragmentShaderOk(k)) &&
      (forall k: PipelineKey :: PipelineGenerated(f, k) ==> pipelineOk(PipelineConfigFor(f, k)))
    ensures r.Some? ==> forall k :: k in r.value.fragments <==> FragmentGenerated(f, k)
    ensures r.Some? ==> forall k :: k in r.value.pipelines <==> PipelineGenerated(f, k)
    ensures r.Some? ==> forall k :: k in r.value.pipelines ==> r.value.pipelines[k] == PipelineConfigFor(f, k)
  {
    if !vertexShaderOk(false) || !vertexShaderOk(true) {
      return None;
    }
    var fragments := CompileFragmentShaders(f, fragmentShaderOk);
    if fragments.None? {
      return None;
    }
    var pipelines := CompilePipelineTable(f, pipelineOk);
    if pipelines.None? {
      return None;
    }
    return Some(Tables(fragments.value, pipelines.value));
  }

  /** The fragment shader loops of the compile step. */
  method CompileFragmentShaders(f: Features, ok: FragmentKey -> bool) returns (r: Option<set<FragmentKey>>)
    ensures r.Some? <==> forall k: FragmentKey :: FragmentGenerated(f, k) ==> ok(k)
    ensures r.Some? ==> forall k :: k in r.value <==> FragmentGenerated(f, k)
  {
    var shaders: set<FragmentKey> := {};
    for rm := 0 to 4
      invariant forall k: FragmentKey :: k in shaders <==> FragmentGenerated(f, k) && FragmentOrdinal(k) < rm * 180
      invariant forall k: FragmentKey :: FragmentGenerated(f, k) && FragmentOrdinal(k) < rm * 180 ==> ok(k)
    {
      for tm := 0 to 5
        invariant forall k: FragmentKey :: k in shaders <==> FragmentGenerated(f, k) && FragmentOrdinal(k) < rm * 180 + tm * 36
        invariant forall k: FragmentKey :: FragmentGenerated(f, k) && FragmentOrdinal(k) < rm * 180 + tm * 36 ==> ok(k)
      {
        var renderMode := RenderModeOfIndex(rm);
        var transparency := TransparencyOfIndex(tm);
        var skip := if f.framebufferFetch then renderMode != TransparencyDisabled && renderMode != TransparentAndOpaque
                    else transparency != Disabled;
        if skip {
          FragmentBlockSkipped(f, rm, tm);
          continue;
        }
        var block := CompileFragmentBlock(f, ok, renderMode, transparency);
        if block.None? {
          return None;
        }
        FragmentBlockOrdinals(rm, tm);
        shaders := shaders + block.value;
      }
    }
    return Some(shaders);
  }

  /** A skipped (render mode, transparency) block holds no generated shader. */
  lemma FragmentBlockSkipped(f: Features, rm: nat, tm: nat)
    requires rm < 4 && tm < 5
    requires if f.framebufferFetch then RenderModeOfIndex(rm) != TransparencyDisabled && RenderModeOfIndex(rm) != TransparentAndOpaque
             else TransparencyOfIndex(tm) != Disabled
    ensures forall k :: rm * 180 + tm * 36 <= FragmentOrdinal(k) < rm * 180 + tm * 36 + 36 ==> !FragmentGenerated(f, k)
  {
    forall k | rm * 180 + tm * 36 <= FragmentOrdinal(k) < rm * 180 + tm * 36 + 36
      ensures !FragmentGenerated(f, k)
    {
      assert RenderModeIndex(k.renderMode) == rm && TransparencyIndex(k.transparency) == tm;
      RenderModeIndexInjective(k.renderMode, RenderModeOfIndex(rm));
      TransparencyIndexInjective(k.transparency, TransparencyOfIndex(tm));
    }
  }

  /** The keys of a block are exactly those whose ordinal lies in the block's range. */
  lemma FragmentBlockOrdinals(rm: nat, tm: nat)
    requires rm < 4 && tm < 5
    ensures forall k :: rm * 180 + tm * 36 <= FragmentOrdinal(k) < rm * 180 + tm * 36 + 36 <==>
      k.renderMode == RenderModeOfIndex(rm) && k.transparency == TransparencyOfIndex(tm)
  {
    forall k ensures rm * 180 + tm * 36 <= FragmentOrdinal(k) < rm * 180 + tm * 36 + 36 <==>
      k.renderMode == RenderModeOfIndex(rm) && k.transparency == TransparencyOfIndex(tm)
    {
      if rm * 180 + tm * 36 <= FragmentOrdinal(k) < rm * 180 + tm * 36 + 36 {
        assert RenderModeIndex(k.renderMode) == rm && TransparencyIndex(k.transparency) == tm;
        RenderModeIndexInjective(k.renderMode, RenderModeOfIndex(rm));
        TransparencyIndexInjective(k.transparency, TransparencyOfIndex(tm));
      }
    }
  }

  /** The variant (dithering, interlacing) comes before (di, il) in the order of the two innermost loops. */
  predicate VariantBefore(dithering: bool, interlacing: bool, di: nat, il: nat) {
    B(dithering) < di || (B(dithering) == di && B(interlacing) < il)
  }

  /** The texture mode loop for one render mode and transparency. */
  method CompileFragmentBlock(f: Features, ok: FragmentKey -> bool, renderMode: BatchRenderMode,
                              transparency: TransparencyMode) returns (r: Option<set<FragmentKey>>)
    ensures r.Some? <==> forall k: FragmentKey :: k.renderMode == renderMode && k.transparency == transparency ==> ok(k)
    ensures r.Some? ==> forall k: FragmentKey :: k in r.value <==> k.renderMode == renderMode && k.transparency == transparency
  {
    var shaders: set<FragmentKey> := {};
    for tx := 0 to 9
      invariant forall k: FragmentKey :: k in shaders <==>
        k.renderMode == renderMode && k.transparency == transparency && k.textureMode < tx
      invariant forall k: FragmentKey :: k.renderMode == renderMode && k.transparency == transparency && k.textureMode < tx ==> ok(k)
    {
      var variants := CompileFragmentVariants(ok, renderMode, transparency, tx);
      if variants.None? {
        return None;
      }
      shaders := shaders + variants.value;
    }
    return Some(shaders);
  }

  /** The dithering and interlacing loops for one render mode, transparency and texture mode. */
  method CompileFragmentVariants(ok: FragmentKey -> bool, renderMode: BatchRenderMode, transparency: TransparencyMode,
                                 textureMode: TextureMode) returns (r: Option<set<FragmentKey>>)
    ensures r.Some? <==> forall k: FragmentKey ::
      k.renderMode == renderMode && k.transparency == transparency && k.textureMode == textureMode ==> ok(k)
    ensures r.Some? ==> forall k: FragmentKey :: k in r.value <==>
      k.renderMode == renderMode && k.transparency == transparency && k.textureMode == textureMode
  {
    var shaders: set<FragmentKey> := {};
    for di := 0 to 2
      invariant forall k: FragmentKey :: k in shaders <==> InFragmentVariants(k, renderMode, transparency, textureMode, di, 0)
      invariant forall k: FragmentKey :: InFragmentVariants(k, renderMode, transparency, textureMode, di, 0) ==> ok(k)
    {
      for il := 0 to 2
        invariant forall k: FragmentKey :: k in shaders <==> InFragmentVariants(k, renderMode, transparency, textureMode, di, il)
        invariant forall k: FragmentKey :: InFragmentVariants(k, renderMode, transparency, textureMode, di, il) ==> ok(k)
      {
        var key := FragmentKey(renderMode, transparency, textureMode, di == 1, il == 1);
        forall k: FragmentKey | InFragmentVariants(k, renderMode, transparency, textureMode, di, il + 1)
          ensures k == key || InFragmentVariants(k, renderMode, transparency, textureMode, di, il)
        {
        }
        if !ok(key) {
          return None;
        }
        shaders := shaders + {key};
      }
    }
    return Some(shaders);
  }

  /** The shader `k` has the given render mode, transparency and texture mode, and comes before (di, il). */
  predicate InFragmentVariants(k: FragmentKey, renderMode: BatchRenderMode, transparency: TransparencyMode,
                               textureMode: TextureMode, di: nat, il: nat) {
    k.renderMode == renderMode && k.transparency == transparency && k.textureMode == textureMode &&
    VariantBefore(k.dithering, k.interlacing, di, il)
  }

  /** The pipeline loops of the compile step. */
  method CompilePipelineTable(f: Features, ok: PipelineConfig -> bool) returns (r: Option<map<PipelineKey, PipelineConfig>>)
    ensures r.Some? <==> forall k: PipelineKey :: PipelineGenerated(f, k) ==> ok(PipelineConfigFor(f, k))
    ensures r.Some? ==> forall k :: k in r.value <==> PipelineGenerated(f, k)
    ensures r.Some? ==> forall k :: k in r.value ==> r.value[k] == PipelineConfigFor(f, k)
  {
    var table: map<PipelineKey, PipelineConfig> := map[];
    for dt := 0 to 3
      invariant forall k: PipelineKey :: k in table <==> PipelineGenerated(f, k) && PipelineOrdinal(k) < dt * 720
      invariant forall k :: k in table ==> table[k] == PipelineConfigFor(f, k)
      invariant forall k: PipelineKey :: PipelineGenerated(f, k) && PipelineOrdinal(k) < dt * 720 ==> ok(PipelineConfigFor(f, k))
    {
      for rm := 0 to 4
        invariant forall k: PipelineKey :: k in table <==> PipelineGenerated(f, k) && PipelineOrdinal(k) < dt * 720 + rm * 180
        invariant forall k :: k in table ==> table[k] == PipelineConfigFor(f, k)
        invariant forall k: PipelineKey :: PipelineGenerated(f, k) && PipelineOrdinal(k) < dt * 720 + rm * 180 ==> ok(PipelineConfigFor(f, k))
      {
        var renderMode := RenderModeOfIndex(rm);
        if f.framebufferFetch && renderMode != TransparencyDisabled && renderMode != TransparentAndOpaque {
          PipelineBlockOrdinals(dt, rm);
          continue;
        }
        var block := CompilePipelineBlock(f, ok, dt, renderMode);
        if block.None? {
          PipelineBlockOrdinals(dt, rm);
          return None;
        }
        PipelineBlockOrdinals(dt, rm);
        table := table + block.value;
      }
    }
    return Some(table);
  }

  lemma PipelineBlockOrdinals(dt: nat, rm: nat)
    requires dt < 3 && rm < 4
    ensures forall k :: dt * 720 + rm * 180 <= PipelineOrdinal(k) < dt * 720 + rm * 180 + 180 <==>
      k.depthTest == dt && k.renderMode == RenderModeOfIndex(rm)
  {
    forall k ensures dt * 720 + rm * 180 <= PipelineOrdinal(k) < dt * 720 + rm * 180 + 180 <==>
      k.depthTest == dt && k.renderMode == RenderModeOfIndex(rm)
    {
      if dt * 720 + rm * 180 <= PipelineOrdinal(k) < dt * 720 + rm * 180 + 180 {
        assert k.depthTest == dt && RenderModeIndex(k.renderMode) == rm;
        RenderModeIndexInjective(k.renderMode, RenderModeOfIndex(rm));
      }
    }
  }

  /** The transparency, texture mode, dithering and interlacing loops for one depth test and render mode. */
  method CompilePipelineBlock(f: Features, ok: PipelineConfig -> bool, dt: DepthTest, renderMode: BatchRenderMode)
    returns (r: Option<map<PipelineKey, PipelineConfig>>)
    ensures r.Some? <==> forall k: PipelineKey :: k.depthTest == dt && k.renderMode == renderMode ==> ok(PipelineConfigFor(f, k))
    ensures r.Some? ==> forall k :: k in r.value <==> k.depthTest == dt && k.renderMode == renderMode
    ensures r.Some? ==> forall k :: k in r.value ==> r.value[k] == PipelineConfigFor(f, k)
  {
    var table: map<PipelineKey, PipelineConfig> := map[];
    for tm := 0 to 5
      invariant forall k: PipelineKey :: k in table <==> k.depthTest == dt && k.renderMode == renderMode && TransparencyIndex(k.transparency) < tm
      invariant forall k :: k in table ==> table[k] == PipelineConfigFor(f, k)
      invariant forall k: PipelineKey :: k.depthTest == dt && k.renderMode == renderMode && TransparencyIndex(k.transparency) < tm ==>
        ok(PipelineConfigFor(f, k))
    {
      var transparency := TransparencyOfIndex(tm);
      var block := CompilePipelineRow(f, ok, dt, renderMode, transparency);
      if block.None? {
        return None;
      }
      forall k: PipelineKey | k.depthTest == dt && k.renderMode == renderMode && TransparencyIndex(k.transparency) == tm
        ensures k.transparency == transparency
      {
        TransparencyIndexInjective(k.transparency, transparency);
      }
      table := table + block.value;
    }
    return Some(table);
  }

  /** The texture mode loop for one depth test, render mode and transparency. */
  method CompilePipelineRow(f: Features, ok: PipelineConfig -> bool, dt: DepthTest, renderMode: BatchRenderMode,
                            transparency: TransparencyMode) returns (r: Option<map<PipelineKey, PipelineConfig>>)
    ensures r.Some? <==> forall k: PipelineKey ::
      k.depthTest == dt && k.renderMode == renderMode && k.transparency == transparency ==> ok(PipelineConfigFor(f, k))
    ensures r.Some? ==> forall k: PipelineKey ::
      k in r.value <==> k.depthTest == dt && k.renderMode == renderMode && k.transparency == transparency
    ensures r.Some? ==> forall k :: k in r.value ==> r.value[k] == PipelineConfigFor(f, k)
  {
    var table: map<PipelineKey, PipelineConfig> := map[];
    for tx := 0 to 9
      invariant forall k: PipelineKey :: k in table <==>
        k.depthTest == dt && k.renderMode == renderMode && k.transparency == transparency && k.textureMode < tx
      invariant forall k :: k in table ==> table[k] == PipelineConfigFor(f, k)
      invariant forall k: PipelineKey ::
        k.depthTest == dt && k.renderMode == renderMode && k.transparency == transparency && k.textureMode < tx ==>
        ok(PipelineConfigFor(f, k))
    {
      var variants := CompilePipelineVariants(k => PipelineConfigFor(f, k), ok, dt, renderMode, transparency, tx);
      if variants.None? {
        return None;
      }
      table := table + variants.value;
    }
    return Some(table);
  }

  /**
   * The dithering and interlacing loops for one depth test, render mode,
   * transparency and texture mode; `config` gives the configuration of each
   * slot.
   */
  method CompilePipelineVariants(config: PipelineKey -> PipelineConfig, ok: PipelineConfig -> bool, dt: DepthTest,
                                 renderMode: BatchRenderMode, transparency: TransparencyMode, textureMode: TextureMode)
    returns (r: Option<map<PipelineKey, PipelineConfig>>)
    ensures r.Some? <==> forall k: PipelineKey ::
      InPipelineVariants(k, dt, renderMode, transparency, textureMode, 2, 0) ==> ok(config(k))
    ensures r.Some? ==> forall k: PipelineKey ::
      k in r.value <==> InPipelineVariants(k, dt, renderMode, transparency, textureMode, 2, 0)
    ensures r.Some? ==> forall k :: k in r.value ==> r.value[k] == config(k)
  {
    var table: map<PipelineKey, PipelineConfig> := map[];
    for di := 0 to 2
      invariant forall k: PipelineKey :: k in table <==> InPipelineVariants(k, dt, renderMode, transparency, textureMode, di, 0)
      invariant forall k :: k in table ==> table[k] == config(k)
      invariant forall k: PipelineKey :: InPipelineVariants(k, dt, renderMode, transparency, textureMode, di, 0) ==> ok(config(k))
    {
      for il := 0 to 2
        invariant forall k: PipelineKey :: k in table <==> InPipelineVariants(k, dt, renderMode, transparency, textureMode, di, il)
        invariant forall k :: k in table ==> table[k] == config(k)
        invariant forall k: PipelineKey ::
          InPipelineVariants(k, dt, renderMode, transparency, textureMode, di, il) ==> ok(config(k))
      {
        var key := PipelineKey(dt, renderMode, textureMode, transparency, di == 1, il == 1);
        forall k: PipelineKey | InPipelineVariants(k, dt, renderMode, transparency, textureMode, di, il + 1)
          ensures k == key || InPipelineVariants(k, dt, renderMode, transparency, textureMode, di, il)
        {
        }
        var c := config(key);
        if !ok(c) {
          return None;
        }
        table := table[key := c];
      }
    }
    return Some(table);
  }

  /** The pipeline `k` has the given depth test, render mode, transparency and texture mode, and comes before (di, il). */
  predicate InPipelineVariants(k: PipelineKey, dt: DepthTest, renderMode: BatchRenderMode, transparency: TransparencyMode,
                               textureMode: TextureMode, di: nat, il: nat) {
    k.depthTest == dt && k.renderMode == renderMode && k.transparency == transparency && k.textureMode == textureMode &&
    VariantBefore(k.dithering, k.interlacing, di, il)
  }
}
