/**
 * The hardware renderer's batching and VRAM-coherency state machine. Vertices
 * of consecutive primitives that share a batch configuration are written
 * into a mapped vertex buffer and drawn together when the batch is flushed.
 * The renderer samples textures from a copy of VRAM (the read texture), so
 * it tracks the VRAM area drawn since that copy was last refreshed (the
 * dirty rectangle) and refreshes the copy before a primitive samples from
 * that area.
 *
 * Device calls are recorded in the ghost `log`; vertices added to the
 * buffer are recorded in the ghost `stream`; the ghost `written` lists the
 * VRAM areas written since the read texture was last refreshed.
 */
module GpuHardware {
  import opened GpuTypes
  import opened Rectangles
  import opened Pipelines
  import opened HwHelpers
  import opened HwState
  import opened HwBatch
  import opened RectangleSplit
  import opened TexPageOverlap

  /** The vertex buffer: unmapped, or mapped with room for `space` vertices of which `vertices` are written. */
  datatype VertexBuffer = Unmapped | Mapped(space: nat, vertices: seq<BatchVertex>)
  {
    /** The vertices written since the buffer was mapped (none when unmapped). */
    function Contents(): seq<BatchVertex> {
      if Mapped? then vertices else []
    }

    /** The room left in the buffer (none when unmapped). */
    function Free(): nat {
      if Mapped? && |vertices| <= space then space - |vertices| else 0
    }
  }

  /** The texture mode a command draws with: the page's mode, with the raw bit when asked for, or Disabled. */
  function CommandTextureMode(rc: RenderCommand, d: DrawMode): (m: TextureMode)
    ensures !TexturingEnabled(rc) <==> m == TEXTURE_MODE_DISABLED
    ensures TexturingEnabled(rc) ==> m % RAW_TEXTURE_BIT == d.textureModeBits && (m >= RAW_TEXTURE_BIT <==> rc.rawTextureEnable)
  {
    if TexturingEnabled(rc) then (if rc.rawTextureEnable then d.textureModeBits + RAW_TEXTURE_BIT else d.textureModeBits)
    else TEXTURE_MODE_DISABLED
  }

  /** The transparency a command draws with. */
  function CommandTransparency(rc: RenderCommand, d: DrawMode): (t: TransparencyMode)
    ensures t == (if rc.transparencyEnable then d.transparency else Disabled)
  {
    if rc.transparencyEnable then d.transparency else Disabled
  }

  /** Dithering applies only outside true-colour mode, to commands that dither, when the status register enables it. */
  function CommandDithering(rc: RenderCommand, trueColor: bool, s: GpuStatus): (b: bool)
    ensures b <==> !trueColor && rc.ditheringEnabled && s.ditherEnable
  {
    if !trueColor && rc.ditheringEnabled then s.ditherEnable else false
  }

  /**
   * A command needs a new batch when its batch configuration differs from the
   * current one, and always when it subtracts the foreground from the
   * background without framebuffer fetch, which is drawn one primitive per batch.
   */
  predicate NeedsNewBatch(f: Features, textureMode: TextureMode, transparency: TransparencyMode, dithering: bool,
                          batch: BatchConfig)
    ensures textureMode != batch.textureMode || transparency != batch.transparency || dithering != batch.dithering ==>
      NeedsNewBatch(f, textureMode, transparency, dithering, batch)
    ensures textureMode == batch.textureMode && transparency == batch.transparency && dithering == batch.dithering ==>
      (NeedsNewBatch(f, textureMode, transparency, dithering, batch) <==>
       transparency == BackgroundMinusForeground && !f.framebufferFetch)
  {
    textureMode != batch.textureMode || transparency != batch.transparency
    || (transparency == BackgroundMinusForeground && !f.framebufferFetch) || dithering != batch.dithering
  }

  /** The vertices a command with parameters `p` adds to the batch when the drawing area is not empty. */
  function CommandVertices(rc: RenderCommand, p: Payload, offsetX: int, offsetY: int, depth: nat, texpage: u32,
                           computeUVRange: bool): seq<BatchVertex>
    requires WellFormed(rc, p)
  {
    match p
    case PolygonData(ps) => PolygonEmitted(LoadedPolygon(rc, ps, offsetX, offsetY, depth, texpage, computeUVRange))
    case RectangleData(x, y, texcoord, widthAndHeight) =>
      var r := RectangleShapeOf(rc, offsetX, offsetY, x, y, texcoord, widthAndHeight);
      RectangleVertices(r.x, r.y, depth, rc.color, texpage, r.texLeft, r.texTop, r.width, r.height)
    case LineData(pts) => PolylineVertices(rc, pts, |pts|, offsetX, offsetY, depth)
  }

  /** The current page's palette lies in the dirty area. */
  predicate PaletteDirty(d: DrawMode, dirty: Rect) {
    dirty.Valid() && d.usingPalette && d.paletteRect.Intersects(dirty)
  }

  /** The current texture page meets the dirty area. */
  predicate PageDirty(d: DrawMode, dirty: Rect) {
    dirty.Valid() && d.texturePageRect.Intersects(dirty)
  }

  /** Transparency blended by the fixed-function blender, with the factors held in the uniforms. */
  predicate FixedFunctionBlend(f: Features, textureMode: TextureMode, transparency: TransparencyMode) {
    transparency != Disabled && (textureMode == TEXTURE_MODE_DISABLED || !NeedsShaderBlending(f, transparency))
  }

  /** The status register's mask bits differ from the batch's. */
  predicate MaskStateChanged(b: BatchConfig, s: GpuStatus) {
    b.checkMaskBeforeDraw != s.checkMaskBeforeDraw || b.setMaskWhileDrawing != s.setMaskWhileDrawing
  }

  /** The texture-window uniforms: the AND masks (x, y) and the OR values (x, y). */
  function WindowUniforms(w: TextureWindow): ((nat, nat), (nat, nat)) {
    ((w.andX, w.andY), (w.orX, w.orY))
  }

  /** The configuration of a new batch: the command's modes, and the mask and interlace state of the status register. */
  function BatchFor(b: BatchConfig, textureMode: TextureMode, transparency: TransparencyMode, dithering: bool,
                    s: GpuStatus): (r: BatchConfig)
    ensures r.textureMode == textureMode && r.transparency == transparency && r.dithering == dithering
    ensures r.checkMaskBeforeDraw == s.checkMaskBeforeDraw && r.setMaskWhileDrawing == s.setMaskWhileDrawing
    ensures r.interlacing == s.interlacedRendering && r.useDepthBuffer == b.useDepthBuffer
  {
    b.(textureMode := textureMode, transparency := transparency, dithering := dithering,
       interlacing := s.interlacedRendering, checkMaskBeforeDraw := s.checkMaskBeforeDraw,
       setMaskWhileDrawing := s.setMaskWhileDrawing)
  }

  /**
   * The uniforms of a new batch: the fixed-function blend factors of its
   * transparency, the set-mask flag when the mask state changed, the
   * displayed field when interlacing, and the texture window when it changed.
   */
  function BatchUniforms(u: UboData, f: Features, textureMode: TextureMode, transparency: TransparencyMode,
                         b: BatchConfig, s: GpuStatus, d: DrawMode): (r: UboData)
    ensures (r.srcAlphaQuarters, r.dstAlphaQuarters) ==
      if FixedFunctionBlend(f, textureMode, transparency) then TransparentAlpha(transparency)
      else (u.srcAlphaQuarters, u.dstAlphaQuarters)
    ensures r.setMaskWhileDrawing ==
      if MaskStateChanged(b, s) then (if s.setMaskWhileDrawing then 1 else 0) else u.setMaskWhileDrawing
    ensures r.interlacedDisplayedField == if s.interlacedRendering then s.activeLineLSB else u.interlacedDisplayedField
    ensures (r.windowAnd, r.windowOr) == if d.textureWindowChanged then WindowUniforms(d.textureWindow) else (u.windowAnd, u.windowOr)
  {
    var alpha := if FixedFunctionBlend(f, textureMode, transparency) then TransparentAlpha(transparency)
                 else (u.srcAlphaQuarters, u.dstAlphaQuarters);
    var window := if d.textureWindowChanged then WindowUniforms(d.textureWindow) else (u.windowAnd, u.windowOr);
    UboData(alpha.0, alpha.1,
            if MaskStateChanged(b, s) then (if s.setMaskWhileDrawing then 1 else 0) else u.setMaskWhileDrawing,
            if s.interlacedRendering then s.activeLineLSB else u.interlacedDisplayedField,
            window.0, window.1)
  }

  /** The sampled range is not inside the UV range gathered so far. */
  predicate OutsideUVRange(r: TexelRange, uv: Rect) {
    r.minX < uv.left || r.minY < uv.top || r.maxX >= uv.right || r.maxY >= uv.bottom
  }

  /** A VRAM write meets the current texture page, or its palette when one is used. */
  predicate PageTouched(d: DrawMode, r: Rect) {
    d.texturePageRect.Intersects(r) || (d.usingPalette && d.paletteRect.Intersects(r))
  }

  /** The packed form of UV limits, as stored in every vertex. */
  function PackedLimits(l: UVLimits): u32 {
    PackUVLimits(l.minU, l.maxU, l.minV, l.maxV)
  }

  /** The number of 32-bit texels a readback of `width` 16-bit pixels is encoded into. */
  function EncodedWidth(width: u32): (e: nat)
    ensures width < U32_MAX ==> width <= 2 * e <= width + 1
  {
    WrapU32(width + 1) / 2
  }

  /** The vertices of a polygon as loaded: every vertex carries the packed UV limits when they are computed. */
  function LoadedPolygon(rc: RenderCommand, ps: seq<PolygonVertex>, offsetX: int, offsetY: int, depth: nat,
                         texpage: u32, computeUVRange: bool): (vs: seq<BatchVertex>)
    ensures |vs| == |ps| && AllNative(vs)
  {
    var bvs := PolygonBatchVertices(rc, ps, offsetX, offsetY, depth, texpage);
    if |ps| > 0 && computeUVRange && rc.textureEnable then WithUVLimits(bvs, PackedLimits(PolygonUVLimits(bvs)))
    else bvs
  }

  /**
   * Every area written lies in VRAM and in the dirty area `dirty`. It is
   * stated write by write, from the last one back.
   */
  predicate WritesTracked(written: seq<Rect>, dirty: Rect)
    decreases |written|
  {
    |written| == 0 ||
    (WritesTracked(written[..|written| - 1], dirty) &&
     VramRect.Covers(written[|written| - 1]) && dirty.Covers(written[|written| - 1]))
  }

  /** Each tracked write lies in VRAM and in the dirty area. */
  lemma {:induction false} WritesTrackedAt(written: seq<Rect>, dirty: Rect, i: nat)
    requires WritesTracked(written, dirty) && i < |written|
    ensures VramRect.Covers(written[i]) && dirty.Covers(written[i])
    decreases |written|
  {
    if i < |written| - 1 {
      WritesTrackedAt(written[..|written| - 1], dirty, i);
    }
  }

  /** Writes tracked by one dirty area are tracked by any area covering it, and by the whole of VRAM. */
  lemma {:induction false} WritesTrackedWithin(written: seq<Rect>, dirty: Rect, bigger: Rect)
    requires WritesTracked(written, dirty) && (bigger.Covers(dirty) || bigger == VramRect)
    ensures WritesTracked(written, bigger)
    decreases |written|
  {
    if |written| > 0 {
      WritesTrackedWithin(written[..|written| - 1], dirty, bigger);
    }
  }

  /** Adding a write to the dirty area keeps every earlier write tracked and tracks the new one. */
  lemma WritesTrackedInclude(written: seq<Rect>, dirty: Rect, r: Rect)
    requires WritesTracked(written, dirty) && VramRect.Covers(r)
    ensures WritesTracked(written + [r], dirty.IncludeRect(r))
  {
    WritesTrackedWithin(written, dirty, dirty.IncludeRect(r));
    assert (written + [r])[..|written|] == written;
  }

  /** `s` ends with `t`. */
  predicate EndsWith<T(==)>(s: seq<T>, t: seq<T>) {
    |t| <= |s| && s[|s| - |t|..] == t
  }

  /** The texels of UV limits `l` on page `texpage`, under texture window `w`, lie in UV range `uv`. */
  predicate UVRangeHolds(uv: Rect, w: TextureWindow, texpage: u32, l: UVLimits) {
    uv.Covers(SampledRect(SampledRangeCorrected(texpage, w.andX, w.orX, w.andY, w.orY, l.minU, l.minV, l.maxU, l.maxV)))
  }

  /** The texels of every sub-quad of `qs` lie in UV range `uv`. */
  predicate QuadsCovered(uv: Rect, w: TextureWindow, texpage: u32, qs: seq<SubQuad>) {
    forall i :: 0 <= i < |qs| ==> QuadInPage(qs[i]) && UVRangeHolds(uv, w, texpage, QuadUVLimits(qs[i]))
  }

  /** A grown UV range still holds what it held. */
  lemma QuadsCoveredGrow(uv: Rect, uv2: Rect, w: TextureWindow, texpage: u32, qs: seq<SubQuad>)
    requires QuadsCovered(uv, w, texpage, qs) && uv2.Covers(uv)
    ensures QuadsCovered(uv2, w, texpage, qs)
  {
  }

  lemma QuadsCoveredAppend(uv: Rect, w: TextureWindow, texpage: u32, qs: seq<SubQuad>, rs: seq<SubQuad>)
    requires QuadsCovered(uv, w, texpage, qs) && QuadsCovered(uv, w, texpage, rs)
    ensures QuadsCovered(uv, w, texpage, qs + rs)
  {
    assert forall i :: 0 <= i < |qs + rs| ==> (qs + rs)[i] == (if i < |qs| then qs[i] else rs[i - |qs|]);
  }

  lemma EndsWithAppend<T>(s: seq<T>, t: seq<T>)
    ensures EndsWith(s + t, t)
  {
    assert (s + t)[|s + t| - |t|..] == t;
  }

  lemma EndsWithExtend<T>(s: seq<T>, t: seq<T>, u: seq<T>)
    requires EndsWith(s, t)
    ensures EndsWith(s + u, t + u)
  {
    assert (s + u)[|s + u| - |t + u|..] == s[|s| - |t|..] + u;
  }

  lemma PrefixTrans<T>(a: seq<T>, b: seq<T>, c: seq<T>)
    requires a <= b && b <= c
    ensures a <= c
  {
  }

  lemma PrefixAppend<T>(a: seq<T>, b: seq<T>)
    ensures a <= a + b
  {
  }

  lemma AppendAssoc<T>(a: seq<T>, b: seq<T>, c: seq<T>, d: seq<T>)
    ensures a + b + c + d == a + (b + (c + d))
  {
  }

  lemma AppendAssoc3<T>(a: seq<T>, b: seq<T>, c: seq<T>)
    ensures a + b + c == a + (b + c) && b + [] == b
  {
  }

  /**
   * The readback of VRAM area `b`: its pixels are packed two 16-bit values per
   * 32-bit word, so the encoded width is half the 32-bit width, rounded up.
   */
  function ReadbackOf(b: Rect): DeviceEvent {
    ReadVRAMDownload(b, EncodedWidth(WrapU32(b.right - b.left)), WrapU32(b.bottom - b.top))
  }

  /** None of the writes `ws` overlaps `r`. */
  predicate Untouched(ws: seq<Rect>, r: Rect) {
    forall i :: 0 <= i < |ws| ==> !ws[i].Intersects(r)
  }

  /** When the dirty area misses `r`, so does every write it tracks. */
  lemma UntouchedWhenClean(written: seq<Rect>, dirty: Rect, r: Rect)
    requires WritesTracked(written, dirty) && !dirty.Intersects(r)
    ensures Untouched(written, r)
  {
    forall i | 0 <= i < |written| ensures !written[i].Intersects(r) {
      WritesTrackedAt(written, dirty, i);
      if written[i].Intersects(r) {
        CoversPreservesIntersection(dirty, written[i], r);
      }
    }
  }

  class GpuHw {
    // Device capabilities and settings, fixed while the renderer exists.
    const features: Features
    const wireframe: WireframeMode
    const resolutionScale: nat
    const multisampled: bool
    const partialMsaaResolve: bool
    const textureCopyToSelf: bool
    const clampUVs: bool
    const trueColor: bool
    const pgxp: bool
    /** Whether the software renderer runs alongside and serves VRAM reads. */
    const softwareReadbacks: bool
    /** The vertex room the device grants beyond the number of vertices asked for. */
    const deviceSlack: nat -> nat

    // The batch being built.
    var batch: BatchConfig
    var ubo: UboData
    var uboDirty: bool
    var buffer: VertexBuffer
    var currentDepth: nat

    // VRAM coherency tracking.
    var vramDirtyRect: Rect
    var currentUVRange: Rect
    var texpageDirty: bool
    var computeUVRange: bool

    // Registers kept by the command processor, read here.
    var drawMode: DrawMode
    var drawingArea: Rect
    var drawingAreaChanged: bool
    /** Whether the last PGXP polygon depth was nearer than the far plane (set by the depth-clear check). */
    var lastDepthBelowFar: bool
    var drawingOffsetX: int
    var drawingOffsetY: int
    var status: GpuStatus
    var renderCommand: RenderCommand
    var polyLineVertexCount: nat

    ghost var log: seq<DeviceEvent>
    ghost var stream: seq<BatchVertex>
    /** The batch configuration the vertices in the buffer were added under. */
    ghost var bufferBatch: BatchConfig
    ghost var written: seq<Rect>
    /** The uniforms the device holds for batch draws, if any. */
    ghost var deviceUbo: Option<UboData>

    ghost predicate Valid()
      reads this`drawingArea, this`buffer, this`stream, this`bufferBatch, this`batch, this`texpageDirty,
            this`vramDirtyRect, this`written, this`uboDirty, this`deviceUbo, this`ubo
    {
      resolutionScale >= 1 &&
      drawingArea.right < VRAM_WIDTH && drawingArea.bottom < VRAM_HEIGHT &&
      BufferInStream() && WritesInDirtyArea() && UniformsOnDevice()
    }

    /** The buffer holds the last vertices added, all under the current batch configuration. */
    ghost predicate BufferInStream()
      reads this`buffer, this`stream, this`bufferBatch, this`batch
    {
      (buffer.Mapped? ==> |buffer.vertices| <= buffer.space) &&
      EndsWith(stream, buffer.Contents()) &&
      (|buffer.Contents()| > 0 ==> bufferBatch == batch)
    }

    /** A dirty texture page comes with a dirty area, and every write since the last refresh lies in it. */
    ghost predicate WritesInDirtyArea()
      reads this`texpageDirty, this`vramDirtyRect, this`written
    {
      (texpageDirty ==> vramDirtyRect.Valid()) && WritesTracked(written, vramDirtyRect)
    }

    /** A clear dirty flag means the device holds the batch uniforms. */
    ghost predicate UniformsOnDevice()
      reads this`uboDirty, this`deviceUbo, this`ubo
    {
      !uboDirty ==> deviceUbo == Some(ubo)
    }

    /** The vertices a command reserves room for. */
    function Required(): nat
      reads this`renderCommand, this`polyLineVertexCount
    {
      RequiredVertices(renderCommand, polyLineVertexCount)
    }

    /** The device calls a flush makes now. */
    ghost function PendingFlush(): seq<DeviceEvent>
      reads this`buffer, this`batch, this`uboDirty, this`ubo
    {
      if buffer.Mapped? then FlushEvents(features, wireframe, batch, buffer.vertices, uboDirty, ubo) else []
    }

    /** The device calls a depth-buffer reset makes after its flush. */
    ghost function DepthResetEvents(): seq<DeviceEvent>
      reads this`drawingArea
    {
      [UpdateDepthFromMask, ScissorTo(ScissorRect(drawingArea, resolutionScale))]
    }

    /** The event refreshing the read texture over the dirty area `dirty`. */
    ghost function ReadTextureUpdate(dirty: Rect): DeviceEvent
    {
      if !multisampled then CopyToReadTexture(dirty.Scaled(resolutionScale))
      else if partialMsaaResolve then ResolveToReadTexture(dirty.Scaled(resolutionScale))
      else ResolveToReadTexture(VramRect.Scaled(resolutionScale))
    }

    /** A freshly mapped, empty buffer with room for the current command. */
    ghost predicate Refilled()
      reads this`buffer, this`renderCommand, this`polyLineVertexCount
    {
      buffer.Mapped? && buffer.vertices == [] && buffer.Free() >= Required()
    }

    /** The device calls made so far are kept; new ones only follow them. */
    twostate predicate LogGrew()
      reads this`log
    {
      old(log) <= log
    }

    /** The buffer gained no more vertices than were added. */
    twostate predicate GrewBy()
      reads this`stream, this`buffer
    {
      |old(stream)| <= |stream| && |buffer.Contents()| <= |old(buffer.Contents())| + (|stream| - |old(stream)|)
    }

    /**
     * The renderer after initialisation: settings fixed, an empty default
     * batch with its uniforms still to upload, the depth counter at 1, UV
     * ranges gathered only when UVs are clamped, and the whole of VRAM dirty
     * with the texture page to be checked.
     */
    constructor (features: Features, wireframe: WireframeMode, resolutionScale: nat, multisampled: bool,
                 partialMsaaResolve: bool, textureCopyToSelf: bool, clampUVs: bool, trueColor: bool, pgxp: bool,
                 softwareReadbacks: bool, deviceSlack: nat -> nat, drawMode: DrawMode, drawingArea: Rect,
                 status: GpuStatus)
      requires resolutionScale >= 1
      requires drawingArea.right < VRAM_WIDTH && drawingArea.bottom < VRAM_HEIGHT
      ensures Valid()
      ensures this.features == features && this.wireframe == wireframe && this.resolutionScale == resolutionScale
      ensures this.multisampled == multisampled && this.partialMsaaResolve == partialMsaaResolve
      ensures this.textureCopyToSelf == textureCopyToSelf && this.clampUVs == clampUVs && this.trueColor == trueColor
      ensures this.pgxp == pgxp && this.softwareReadbacks == softwareReadbacks && this.deviceSlack == deviceSlack
      ensures buffer == Unmapped && batch == DefaultBatch && ubo == DefaultUbo && uboDirty && currentDepth == 1
      ensures vramDirtyRect == VramRect && currentUVRange == Invalid && !texpageDirty && computeUVRange == clampUVs
      ensures this.drawMode == drawMode.(texturePageChanged := true) && this.drawingArea == drawingArea
      ensures this.status == status && log == [] && stream == [] && written == []
    {
      this.features := features;
      this.wireframe := wireframe;
      this.resolutionScale := resolutionScale;
      this.multisampled := multisampled;
      this.partialMsaaResolve := partialMsaaResolve;
      this.textureCopyToSelf := textureCopyToSelf;
      this.clampUVs := clampUVs;
      this.trueColor := trueColor;
      this.pgxp := pgxp;
      this.softwareReadbacks := softwareReadbacks;
      this.deviceSlack := deviceSlack;
      batch := DefaultBatch;
      ubo := DefaultUbo;
      uboDirty := true;
      buffer := Unmapped;
      currentDepth := 1;
      vramDirtyRect := VramRect;
      currentUVRange := Invalid;
      texpageDirty := false;
      computeUVRange := clampUVs;
      this.drawMode := drawMode.(texturePageChanged := true);
      this.drawingArea := drawingArea;
      drawingAreaChanged := false;
      lastDepthBelowFar := false;
      drawingOffsetX := 0;
      drawingOffsetY := 0;
      this.status := status;
      renderCommand := RenderCommand(Polygon, false, false, false, false, false, false, false, VariableSize, 0);
      polyLineVertexCount := 0;
      log := [];
      stream := [];
      bufferBatch := DefaultBatch;
      written := [];
      deviceUbo := None;
    }

    // ----- The vertex buffer -----

    /** The vertex room the device grants when asked for `required` vertices: never less. */
    function Granted(required: nat): (space: nat)
      ensures space >= required
    {
      required + deviceSlack(required)
    }

    /** Maps the vertex buffer with room for at least `required` vertices. */
    method MapBatchVertexPointer(required: nat)
      requires Valid() && buffer.Unmapped?
      modifies this`buffer, this`log
      ensures Valid()
      ensures buffer == Mapped(Granted(required), []) && buffer.Free() >= required
      ensures log == old(log) + [MapVertexBuffer(required, Granted(required))]
    {
      var space := Granted(required);
      log := log + [MapVertexBuffer(required, space)];
      buffer := Mapped(space, []);
    }

    /** Hands the written vertices to the device and unmaps the buffer. */
    method UnmapBatchVertexPointer()
      requires Valid() && buffer.Mapped?
      modifies this`buffer, this`log, this`bufferBatch
      ensures Valid()
      ensures buffer == Unmapped && log == old(log) + [UnmapVertexBuffer(old(buffer).vertices)]
    {
      log := log + [UnmapVertexBuffer(buffer.vertices)];
      buffer := Unmapped;
    }

    /** Appends vertices to the mapped buffer under the current batch configuration. */
    method AddVertices(vs: seq<BatchVertex>)
      requires Valid() && buffer.Mapped? && buffer.Free() >= |vs|
      modifies this`buffer, this`stream, this`bufferBatch
      ensures Valid() && GrewBy()
      ensures buffer == Mapped(old(buffer).space, old(buffer).vertices + vs)
      ensures buffer.Free() == old(buffer).Free() - |vs|
      ensures stream == old(stream) + vs
    {
      EndsWithExtend(stream, buffer.vertices, vs);
      buffer := Mapped(buffer.space, buffer.vertices + vs);
      stream := stream + vs;
      bufferBatch := batch;
    }

    /** Draws `count` vertices of the batch with the pipeline for `mode` and the batch state. */
    method DrawBatchVertices(mode: BatchRenderMode, count: nat)
      modifies this`log
      ensures log == old(log) + [DrawBatch(SelectedPipeline(mode, batch.useDepthBuffer, batch.checkMaskBeforeDraw,
                                                               batch.textureMode, batch.transparency, batch.dithering,
                                                               batch.interlacing), count)]
    {
      var key := SelectedPipeline(mode, batch.useDepthBuffer, batch.checkMaskBeforeDraw, batch.textureMode,
                                  batch.transparency, batch.dithering, batch.interlacing);
      log := log + [DrawBatch(key, count)];
    }

    /**
     * Unmaps the buffer and draws the batch: uniforms first when they
     * changed, then one pass (or an opaque and a transparent pass), then the
     * wireframe overlay.
     */
    method FlushRender()
      requires Valid()
      modifies this`buffer, this`log, this`bufferBatch, this`uboDirty, this`deviceUbo
      ensures Valid() && GrewBy()
      ensures buffer == Unmapped
      ensures log == old(log) + old(PendingFlush())
      ensures uboDirty == (old(uboDirty) && |old(buffer).Contents()| == 0)
    {
      if buffer.Unmapped? {
        return;
      }
      var count := |buffer.vertices|;
      ghost var log0, unmap := log, [UnmapVertexBuffer(buffer.vertices)];
      ghost var upload := if uboDirty then [UploadUniforms(ubo)] else [];
      ghost var draws := if count == 0 then [] else upload + FlushDraws(features, wireframe, batch, count);
      assert PendingFlush() == unmap + draws;
      UnmapBatchVertexPointer();
      if count > 0 {
        DrawPendingBatch(count);
      }
      AppendAssoc3(log0, unmap, draws);
    }

    /** The device calls of a non-empty flushed batch: the uniforms when they changed, then the draws. */
    method DrawPendingBatch(count: nat)
      requires Valid()
      modifies this`log, this`uboDirty, this`deviceUbo
      ensures Valid() && !uboDirty
      ensures log == old(log) + ((if old(uboDirty) then [UploadUniforms(ubo)] else [])
                                 + FlushDraws(features, wireframe, batch, count))
    {
      ghost var log0, upload := log, if uboDirty then [UploadUniforms(ubo)] else [];
      UploadDirtyUniforms();
      DrawFlushedBatch(count);
      AppendAssoc3(log0, upload, FlushDraws(features, wireframe, batch, count));
    }

    /** Hands changed uniforms to the device. */
    method UploadDirtyUniforms()
      requires Valid()
      modifies this`log, this`uboDirty, this`deviceUbo
      ensures Valid() && !uboDirty
      ensures log == old(log) + (if old(uboDirty) then [UploadUniforms(ubo)] else [])
    {
      if uboDirty {
        log := log + [UploadUniforms(ubo)];
        deviceUbo := Some(ubo);
        uboDirty := false;
      }
    }

    /** The draws of a flushed batch of `count` vertices. */
    method DrawFlushedBatch(count: nat)
      modifies this`log
      ensures log == old(log) + FlushDraws(features, wireframe, batch, count)
    {
      if wireframe != OnlyWireframe {
        if NeedsTwoPassRendering(features, batch.textureMode, batch.transparency) {
          DrawBatchVertices(OnlyOpaque, count);
          DrawBatchVertices(OnlyTransparent, count);
        } else {
          DrawBatchVertices(GetRenderMode(batch.transparency), count);
        }
      }
      if wireframe != WireframeDisabled {
        log := log + [DrawWireframe(count)];
      }
    }

    /** Limits drawing to the drawing area, scaled to the render resolution. */
    method SetScissor()
      modifies this`log
      ensures log == old(log) + [ScissorTo(ScissorRect(drawingArea, resolutionScale))]
    {
      log := log + [ScissorTo(ScissorRect(drawingArea, resolutionScale))];
    }

    /** Rebuilds the depth buffer from the mask bits of VRAM; the PGXP depth buffer is left alone. */
    method UpdateDepthBufferFromMaskBit()
      modifies this`log
      ensures log == old(log) + (if features.pgxpDepthBuffer then [] else DepthResetEvents())
    {
      if features.pgxpDepthBuffer {
        return;
      }
      log := log + [UpdateDepthFromMask];
      SetScissor();
    }

    /** Restarts the depth counter after flushing the batch and rebuilding the depth buffer. */
    method ResetBatchVertexDepth()
      requires Valid()
      modifies this`buffer, this`log, this`bufferBatch, this`uboDirty, this`deviceUbo, this`currentDepth
      ensures Valid() && GrewBy()
      ensures features.pgxpDepthBuffer ==>
        unchanged(this`buffer, this`log, this`bufferBatch, this`uboDirty, this`deviceUbo, this`currentDepth)
      ensures !features.pgxpDepthBuffer ==>
        buffer == Unmapped && currentDepth == 1 && log == old(log) + old(PendingFlush()) + DepthResetEvents() &&
        uboDirty == (old(uboDirty) && |old(buffer).Contents()| == 0)
    {
      if features.pgxpDepthBuffer {
        return;
      }
      FlushRender();
      UpdateDepthBufferFromMaskBit();
      currentDepth := 1;
    }

    /** Makes sure the mapped buffer has room for `required` vertices, flushing and remapping when it has not. */
    method EnsureVertexBufferSpace(required: nat)
      requires Valid()
      modifies this`buffer, this`log, this`bufferBatch, this`uboDirty, this`deviceUbo
      ensures Valid() && GrewBy()
      ensures buffer.Mapped? && buffer.Free() >= required
      ensures old(buffer).Mapped? && old(buffer).Free() >= required ==>
        unchanged(this`buffer, this`log, this`bufferBatch, this`uboDirty, this`deviceUbo)
      ensures !(old(buffer).Mapped? && old(buffer).Free() >= required) ==>
        buffer.vertices == [] && log == old(log) + old(PendingFlush()) + [MapVertexBuffer(required, Granted(required))]
    {
      if buffer.Mapped? {
        if buffer.Free() >= required {
          return;
        }
        FlushRender();
      }
      MapBatchVertexPointer(required);
    }

    /**
     * Makes room for the current command: restarts the depth counter when the
     * command's vertices would run past the last depth value, and otherwise
     * keeps the mapped buffer when it has room. The depth reset flushes, so
     * the buffer is mapped afresh after it; with the PGXP depth buffer no
     * reset happens and the room check applies as usual.
     */
    method EnsureVertexBufferSpaceForCurrentCommand()
      requires Valid()
      modifies this`buffer, this`log, this`bufferBatch, this`uboDirty, this`deviceUbo, this`currentDepth
      ensures Valid() && GrewBy()
      ensures buffer.Mapped? && buffer.Free() >= Required()
      ensures var plan := EnsureSpacePlan(features.pgxpDepthBuffer, old(currentDepth), Required(), old(buffer).Mapped?,
                                          old(buffer).Free());
        (plan == [] ==>
          unchanged(this`buffer, this`log, this`bufferBatch, this`uboDirty, this`deviceUbo, this`currentDepth)) &&
        (plan != [] ==>
          buffer.vertices == [] &&
          currentDepth == (if plan[0] == ResetDepth then 1 else old(currentDepth)) &&
          log == old(log) + old(PendingFlush()) + (if plan[0] == ResetDepth then DepthResetEvents() else [])
                 + [MapVertexBuffer(Required(), Granted(Required()))])
      ensures !features.pgxpDepthBuffer && 1 + Required() <= MAX_BATCH_VERTEX_COUNTER_IDS ==>
        currentDepth + Required() <= MAX_BATCH_VERTEX_COUNTER_IDS
      ensures old(log) <= log
    {
      var required := Required();
      if currentDepth + required > MAX_BATCH_VERTEX_COUNTER_IDS && !features.pgxpDepthBuffer {
        ResetDepthAndMap(required);
      } else if buffer.Mapped? {
        if buffer.Free() >= required {
          return;
        }
        FlushAndMap(required);
      } else {
        MapBatchVertexPointer(required);
      }
    }

    /** The overflow branch: the depth reset (which flushes), then a fresh buffer. */
    method ResetDepthAndMap(required: nat)
      requires Valid() && !features.pgxpDepthBuffer
      modifies this`buffer, this`log, this`bufferBatch, this`uboDirty, this`deviceUbo, this`currentDepth
      ensures Valid() && GrewBy()
      ensures buffer == Mapped(Granted(required), []) && currentDepth == 1
      ensures log == old(log) + old(PendingFlush()) + DepthResetEvents() + [MapVertexBuffer(required, Granted(required))]
    {
      ResetBatchVertexDepth();
      MapBatchVertexPointer(required);
    }

    /** The full-buffer branch: the pending batch is drawn, then a fresh buffer. */
    method FlushAndMap(required: nat)
      requires Valid() && buffer.Mapped?
      modifies this`buffer, this`log, this`bufferBatch, this`uboDirty, this`deviceUbo
      ensures Valid() && GrewBy()
      ensures buffer == Mapped(Granted(required), [])
      ensures log == old(log) + old(PendingFlush()) + [MapVertexBuffer(required, Granted(required))]
    {
      FlushRender();
      MapBatchVertexPointer(required);
    }

    /** Draws the pending batch and makes room for the current command in a fresh buffer. */
    method FlushAndRefill()
      requires Valid()
      modifies this`buffer, this`log, this`bufferBatch, this`uboDirty, this`deviceUbo, this`currentDepth
      ensures old(log) <= log
      ensures Valid() && GrewBy() && Refilled()
      ensures old(log) + old(PendingFlush()) <= log
    {
      FlushRender();
      EnsureVertexBufferSpaceForCurrentCommand();
    }

    // ----- VRAM coherency -----

    /** Empties the dirty area. */
    method ClearVRAMDirtyRectangle()
      modifies this`vramDirtyRect
      ensures vramDirtyRect == Invalid
    {
      vramDirtyRect := Invalid;
    }

    /** Copies (or resolves) the dirty area of VRAM into the read texture; nothing is dirty afterwards. */
    method UpdateVRAMReadTexture()
      requires Valid()
      modifies this`texpageDirty, this`vramDirtyRect, this`written, this`log
      ensures Valid()
      ensures !texpageDirty && vramDirtyRect == Invalid && written == []
      ensures log == old(log) + [ReadTextureUpdate(old(vramDirtyRect))]
    {
      texpageDirty := false;
      if multisampled {
        if partialMsaaResolve {
          log := log + [ResolveToReadTexture(vramDirtyRect.Scaled(resolutionScale))];
        } else {
          log := log + [ResolveToReadTexture(VramRect.Scaled(resolutionScale))];
        }
      } else {
        log := log + [CopyToReadTexture(vramDirtyRect.Scaled(resolutionScale))];
      }
      ClearVRAMDirtyRectangle();
      written := [];
    }

    /** Marks the whole of VRAM dirty and the texture page changed. */
    method SetFullVRAMDirtyRectangle()
      requires Valid()
      modifies this`vramDirtyRect, this`drawMode, this`written
      ensures Valid()
      ensures vramDirtyRect == VramRect && drawMode == old(drawMode).(texturePageChanged := true)
      ensures written == old(written) + [VramRect]
    {
      WritesTrackedInclude(written, vramDirtyRect, VramRect);
      WritesTrackedWithin(written + [VramRect], vramDirtyRect.IncludeRect(VramRect), VramRect);
      vramDirtyRect := VramRect;
      drawMode := drawMode.(texturePageChanged := true);
      written := written + [VramRect];
    }

    /**
     * Adds a VRAM write to the dirty area; a write over the current texture
     * page or palette marks the page changed, so the next textured command
     * checks it.
     */
    method IncludeVRAMDirtyRectangle(r: Rect)
      requires Valid() && VramRect.Covers(r)
      modifies this`vramDirtyRect, this`drawMode, this`written
      ensures Valid()
      ensures vramDirtyRect == old(vramDirtyRect).IncludeRect(r) && written == old(written) + [r]
      ensures drawMode == old(drawMode).(texturePageChanged := old(drawMode).texturePageChanged || PageTouched(old(drawMode), r))
    {
      WritesTrackedInclude(written, vramDirtyRect, r);
      vramDirtyRect := vramDirtyRect.IncludeRect(r);
      written := written + [r];
      if !drawMode.texturePageChanged && PageTouched(drawMode, r) {
        drawMode := drawMode.(texturePageChanged := true);
      }
    }

    /** Adds the clipped area a primitive draws to the dirty area. */
    method IncludeDrawnArea(r: Rect)
      requires Valid() && VramRect.Covers(r)
      modifies this`vramDirtyRect, this`written
      ensures Valid()
      ensures vramDirtyRect == old(vramDirtyRect).IncludeRect(r) && written == old(written) + [r]
    {
      WritesTrackedInclude(written, vramDirtyRect, r);
      vramDirtyRect := vramDirtyRect.IncludeRect(r);
      written := written + [r];
    }

    /** The VRAM range a primitive sampling texture coordinates min..max of page `texpage` uses under window `w`. */
    static function SampledUnder(w: TextureWindow, texpage: u32, minU: u32, minV: u32, maxU: u32, maxV: u32): TexelRange {
      SampledRangeCorrected(texpage, w.andX, w.orX, w.andY, w.orY, minU, minV, maxU, maxV)
    }

    /**
     * The outcome of a texture-page overlap check that had to look: the UV
     * range grows to hold the sampled texels, and either it still misses the
     * dirty area or the pending batch was drawn and the read texture refreshed.
     */
    twostate predicate OverlapHandled(r: TexelRange)
      reads this`texpageDirty, this`currentUVRange, this`vramDirtyRect, this`written, this`buffer, this`log,
            this`batch, this`uboDirty, this`ubo
    {
      old(texpageDirty) && OutsideUVRange(r, old(currentUVRange)) ==>
        currentUVRange == IncludeSampled(old(currentUVRange), r) &&
        (texpageDirty ==> vramDirtyRect == old(vramDirtyRect) && !currentUVRange.Intersects(vramDirtyRect)) &&
        (!texpageDirty ==>
          currentUVRange.Intersects(old(vramDirtyRect)) && vramDirtyRect == Invalid && written == [] &&
          buffer.Contents() == [] && |log| > |old(log)| && log[|log| - 1] == ReadTextureUpdate(old(vramDirtyRect)) &&
          (|old(buffer.Contents())| > 0 ==> old(log) + old(PendingFlush()) <= log))
    }

    /**
     * Refreshes the read texture before a primitive samples VRAM that was
     * drawn since the last refresh. Only a range outside the UV range
     * gathered so far is checked; the gathered range then grows to hold it.
     */
    method CheckForTexPageOverlap(texpage: u32, minU: u32, minV: u32, maxU: u32, maxV: u32)
      requires Valid()
      modifies this`buffer, this`log, this`bufferBatch, this`uboDirty, this`deviceUbo, this`currentDepth,
               this`currentUVRange, this`texpageDirty, this`vramDirtyRect, this`written
      ensures old(log) <= log
      ensures Valid() && GrewBy()
      ensures buffer == old(buffer) || Refilled()
      ensures var r := SampledUnder(drawMode.textureWindow, texpage, minU, minV, maxU, maxV);
        !(old(texpageDirty) && OutsideUVRange(r, old(currentUVRange))) ==>
        unchanged(this`buffer, this`log, this`bufferBatch, this`uboDirty, this`deviceUbo, this`currentDepth,
                  this`currentUVRange, this`texpageDirty, this`vramDirtyRect, this`written)
      ensures OverlapHandled(SampledUnder(drawMode.textureWindow, texpage, minU, minV, maxU, maxV))
      ensures texpageDirty ==>
        currentUVRange.Covers(SampledRect(SampledUnder(drawMode.textureWindow, texpage, minU, minV, maxU, maxV)))
      ensures texpageDirty ==> old(texpageDirty) && currentUVRange.Covers(old(currentUVRange))
    {
      if !texpageDirty {
        return;
      }
      var r := SampledUnder(drawMode.textureWindow, texpage, minU, minV, maxU, maxV);
      CheckSampledRange(r);
    }

    /** The overlap check for the VRAM range `r` that a primitive samples. */
    method CheckSampledRange(r: TexelRange)
      requires Valid() && texpageDirty
      modifies this`buffer, this`log, this`bufferBatch, this`uboDirty, this`deviceUbo, this`currentDepth,
               this`currentUVRange, this`texpageDirty, this`vramDirtyRect, this`written
      ensures old(log) <= log
      ensures Valid() && GrewBy()
      ensures buffer == old(buffer) || Refilled()
      ensures !OutsideUVRange(r, old(currentUVRange)) ==>
        unchanged(this`buffer, this`log, this`bufferBatch, this`uboDirty, this`deviceUbo, this`currentDepth,
                  this`currentUVRange, this`texpageDirty, this`vramDirtyRect, this`written)
      ensures OverlapHandled(r)
      ensures texpageDirty ==> currentUVRange.Covers(SampledRect(r)) && currentUVRange.Covers(old(currentUVRange))
    {
      if r.minX < currentUVRange.left || r.minY < currentUVRange.top || r.maxX >= currentUVRange.right
         || r.maxY >= currentUVRange.bottom {
        currentUVRange := IncludeSampled(currentUVRange, r);
        if currentUVRange.Intersects(vramDirtyRect) {
          RefreshReadTexture();
        }
      }
    }

    /** Draws the pending batch, if any, and refreshes the read texture over the dirty area. */
    method RefreshReadTexture()
      requires Valid()
      modifies this`buffer, this`log, this`bufferBatch, this`uboDirty, this`deviceUbo, this`currentDepth,
               this`texpageDirty, this`vramDirtyRect, this`written
      ensures old(log) <= log
      ensures Valid() && GrewBy()
      ensures buffer == old(buffer) || Refilled()
      ensures !texpageDirty && vramDirtyRect == Invalid && written == [] && buffer.Contents() == []
      ensures |log| > |old(log)| && log[|log| - 1] == ReadTextureUpdate(old(vramDirtyRect))
      ensures |old(buffer.Contents())| > 0 ==> old(log) + old(PendingFlush()) <= log
    {
      if |buffer.Contents()| > 0 {
        FlushAndRefill();
      }
      UpdateVRAMReadTexture();
    }

    /**
     * Sets the UV limits of a textured polygon: the smallest and largest
     * texture coordinate each way, the largest pulled in by one when it
     * differs from the smallest. The limits are checked against the dirty
     * area first.
     */
    method ComputePolygonUVLimits(texpage: u32, vs: array<BatchVertex>)
      requires Valid() && vs.Length >= 1 && ByteTexcoords(vs[..])
      modifies vs, this`buffer, this`log, this`bufferBatch, this`uboDirty, this`deviceUbo, this`currentDepth,
               this`currentUVRange, this`texpageDirty, this`vramDirtyRect, this`written
      ensures old(log) <= log
      ensures Valid() && GrewBy()
      ensures vs[..] == WithUVLimits(old(vs[..]), PackedLimits(PolygonUVLimits(old(vs[..]))))
      ensures buffer == old(buffer) || Refilled()
      ensures texpageDirty ==> UVRangeHolds(currentUVRange, drawMode.textureWindow, texpage, PolygonUVLimits(old(vs[..])))
    {
      var l := PolygonLimitsOf(vs);
      CheckForTexPageOverlap(texpage, l.minU, l.minV, l.maxU, l.maxV);
      StoreUVLimits(vs, PackUVLimits(l.minU, l.maxU, l.minV, l.maxV));
    }

    /** The polygon's UV limits, gathered over its vertices. */
    static method PolygonLimitsOf(vs: array<BatchVertex>) returns (l: UVLimits)
      requires vs.Length >= 1 && ByteTexcoords(vs[..])
      ensures l == PolygonUVLimits(vs[..])
    {
      var minU: nat, maxU: nat, minV: nat, maxV: nat := vs[0].u, vs[0].u, vs[0].v, vs[0].v;
      var i := 1;
      assert vs[..1] == [vs[0]];
      while i < vs.Length
        invariant 1 <= i <= vs.Length
        invariant minU == MinU(vs[..i]) && maxU == MaxU(vs[..i]) && minV == MinV(vs[..i]) && maxV == MaxV(vs[..i])
      {
        assert vs[..i + 1][..i] == vs[..i];
        minU := Min(minU, vs[i].u);
        maxU := Max(maxU, vs[i].u);
        minV := Min(minV, vs[i].v);
        maxV := Max(maxV, vs[i].v);
        i := i + 1;
      }
      assert vs[..vs.Length] == vs[..];
      ByteExtrema(vs[..]);
      if minU != maxU {
        maxU := maxU - 1;
      }
      if minV != maxV {
        maxV := maxV - 1;
      }
      l := UVLimits(minU, maxU, minV, maxV);
    }

    /** Stores the packed limits in every vertex. */
    static method StoreUVLimits(vs: array<BatchVertex>, packed: u32)
      modifies vs
      ensures vs[..] == WithUVLimits(old(vs[..]), packed)
    {
      ghost var vs0 := vs[..];
      var i := 0;
      while i < vs.Length
        invariant 0 <= i <= vs.Length
        invariant forall k :: 0 <= k < i ==> vs[k] == vs0[k].(uvLimits := packed)
        invariant forall k :: i <= k < vs.Length ==> vs[k] == vs0[k]
      {
        vs[i] := vs[i].(uvLimits := packed);
        i := i + 1;
      }
    }

    /**
     * Switches the batch's depth test. A non-empty batch is drawn first with
     * the old setting, and room for the current command is made again.
     */
    method SetBatchDepthBuffer(enabled: bool)
      requires Valid()
      modifies this`batch, this`buffer, this`log, this`bufferBatch, this`uboDirty, this`deviceUbo, this`currentDepth
      ensures old(log) <= log
      ensures Valid() && GrewBy()
      ensures batch == old(batch).(useDepthBuffer := enabled)
      ensures buffer == old(buffer) || Refilled()
      ensures old(batch).useDepthBuffer != enabled && |old(buffer).Contents()| > 0 ==>
        Refilled() && old(log) + old(PendingFlush()) <= log
      ensures old(batch).useDepthBuffer == enabled || |old(buffer).Contents()| == 0 ==>
        buffer == old(buffer) && log == old(log) && currentDepth == old(currentDepth)
    {
      if batch.useDepthBuffer == enabled {
        return;
      }
      if |buffer.Contents()| > 0 {
        FlushAndRefill();
      }
      batch := batch.(useDepthBuffer := enabled);
    }
  
    // ----- Loading primitives -----

    /** Whether a polygon is drawn with the depth test, after the PGXP checks. */
    function PolygonDepthTest(validW: bool): bool
      reads this`batch
    {
      if pgxp && !validW then false
      else if pgxp && features.pgxpDepthBuffer then batch.transparency == Disabled
      else batch.useDepthBuffer
    }

    /**
     * Loads a triangle or quad: settles the depth test (PGXP), computes and
     * checks the UV limits of a textured polygon, and adds each triangle that
     * is not too large, marking its clipped area dirty. Nothing is drawn when
     * the drawing area is empty.
     */
    method LoadPolygon(ps: seq<PolygonVertex>, validW: bool, texpage: u32, depth: nat)
      requires Valid() && renderCommand.primitive == Polygon && |ps| == (if renderCommand.quadPolygon then 4 else 3)
      requires buffer.Mapped? && buffer.Free() >= Required()
      modifies this`batch, this`buffer, this`log, this`bufferBatch, this`uboDirty, this`deviceUbo, this`currentDepth,
               this`currentUVRange, this`texpageDirty, this`vramDirtyRect, this`written, this`stream
      ensures old(log) <= log
      ensures Valid()
      ensures batch == old(batch).(useDepthBuffer := old(PolygonDepthTest(validW)))
      ensures var vs := LoadedPolygon(renderCommand, ps, drawingOffsetX, drawingOffsetY, depth, texpage, computeUVRange);
        drawingArea.Valid() ==> stream == old(stream) + PolygonEmitted(vs) && EndsWith(written, PolygonWrites(vs, drawingArea))
      ensures !drawingArea.Valid() ==> stream == old(stream)
    {
      SettlePolygonDepth(validW);
      BuildAndEmitPolygon(ps, texpage, depth);
    }

    /** With PGXP, a polygon without valid depths is drawn without the depth test, and with the PGXP depth buffer an opaque one with it. */
    method SettlePolygonDepth(validW: bool)
      requires Valid()
      modifies this`batch, this`buffer, this`log, this`bufferBatch, this`uboDirty, this`deviceUbo, this`currentDepth
      ensures old(log) <= log
      ensures Valid()
      ensures batch == old(batch).(useDepthBuffer := old(PolygonDepthTest(validW)))
      ensures buffer == old(buffer) || Refilled()
    {
      if pgxp {
        if !validW {
          SetBatchDepthBuffer(false);
        } else if features.pgxpDepthBuffer {
          SetBatchDepthBuffer(batch.transparency == Disabled);
        }
      }
    }

    /** Builds the polygon's vertices and adds its triangles. */
    method BuildAndEmitPolygon(ps: seq<PolygonVertex>, texpage: u32, depth: nat)
      requires Valid() && renderCommand.primitive == Polygon && |ps| == (if renderCommand.quadPolygon then 4 else 3)
      requires buffer.Mapped? && buffer.Free() >= Required()
      modifies this`buffer, this`log, this`bufferBatch, this`uboDirty, this`deviceUbo, this`currentDepth,
               this`currentUVRange, this`texpageDirty, this`vramDirtyRect, this`written, this`stream
      ensures Valid()
      ensures var vs := LoadedPolygon(renderCommand, ps, drawingOffsetX, drawingOffsetY, depth, texpage, computeUVRange);
        drawingArea.Valid() ==> stream == old(stream) + PolygonEmitted(vs) && EndsWith(written, PolygonWrites(vs, drawingArea))
      ensures !drawingArea.Valid() ==> stream == old(stream)
      ensures LogGrew()
    {
      var vs := BuildPolygon(ps, texpage, depth);
      EmitPolygon(vs);
    }

    /** The polygon's batch vertices; the UV limits of a textured polygon are computed and checked when asked for. */
    method BuildPolygon(ps: seq<PolygonVertex>, texpage: u32, depth: nat) returns (vs: seq<BatchVertex>)
      requires Valid() && |ps| >= 1 && buffer.Mapped? && buffer.Free() >= Required()
      modifies this`buffer, this`log, this`bufferBatch, this`uboDirty, this`deviceUbo, this`currentDepth,
               this`currentUVRange, this`texpageDirty, this`vramDirtyRect, this`written
      ensures Valid() && GrewBy() && buffer.Mapped? && buffer.Free() >= Required()
      ensures vs == LoadedPolygon(renderCommand, ps, drawingOffsetX, drawingOffsetY, depth, texpage, computeUVRange)
      ensures computeUVRange && renderCommand.textureEnable ==>
        texpageDirty ==> UVRangeHolds(currentUVRange, drawMode.textureWindow, texpage,
                                      PolygonUVLimits(PolygonBatchVertices(renderCommand, ps, drawingOffsetX, drawingOffsetY, depth, texpage)))
      ensures LogGrew()
    {
      var a := NewPolygonVertices(renderCommand, ps, drawingOffsetX, drawingOffsetY, depth, texpage);
      if computeUVRange && renderCommand.textureEnable {
        ComputePolygonUVLimits(texpage, a);
      }
      vs := a[..];
    }

    /** A fresh array holding the polygon's vertices as first set. */
    static method NewPolygonVertices(rc: RenderCommand, ps: seq<PolygonVertex>, offsetX: int, offsetY: int,
                                     depth: nat, texpage: u32) returns (a: array<BatchVertex>)
      ensures fresh(a) && a[..] == PolygonBatchVertices(rc, ps, offsetX, offsetY, depth, texpage)
      ensures ByteTexcoords(a[..])
    {
      a := new BatchVertex[|ps|](i requires 0 <= i < |ps| => PolygonBatchVertex(rc, i, ps[i], offsetX, offsetY, depth, texpage));
      assert a[..] == PolygonBatchVertices(rc, ps, offsetX, offsetY, depth, texpage);
    }

    /** Adds the triangles of a polygon whose vertices are ready. */
    method EmitPolygon(vs: seq<BatchVertex>)
      requires Valid() && (|vs| == 3 || |vs| == 4) && AllNative(vs)
      requires buffer.Mapped? && buffer.Free() >= (if |vs| == 4 then 6 else 3)
      modifies this`buffer, this`bufferBatch, this`vramDirtyRect, this`written, this`stream
      ensures Valid()
      ensures drawingArea.Valid() ==>
        stream == old(stream) + PolygonEmitted(vs) && written == old(written) + PolygonWrites(vs, drawingArea)
      ensures !drawingArea.Valid() ==> stream == old(stream) && written == old(written)
      ensures drawingArea.Valid() ==> EndsWith(written, PolygonWrites(vs, drawingArea))
    {
      if !drawingArea.Valid() {
        return;
      }
      EndsWithAppend(written, PolygonWrites(vs, drawingArea));
      ghost var stream0, written0 := stream, written;
      ghost var first := if TriangleCulled(vs[0].pos, vs[1].pos, vs[2].pos) then [] else [vs[0], vs[1], vs[2]];
      ghost var firstArea := if TriangleCulled(vs[0].pos, vs[1].pos, vs[2].pos) then []
                             else [TriangleClip(vs[0].pos, vs[1].pos, vs[2].pos, drawingArea)];
      EmitTriangle(vs[0], vs[1], vs[2], [vs[0], vs[1], vs[2]]);
      if |vs| == 4 {
        ghost var second := if TriangleCulled(vs[1].pos, vs[2].pos, vs[3].pos) then [] else [vs[2], vs[1], vs[3]];
        ghost var secondArea := if TriangleCulled(vs[1].pos, vs[2].pos, vs[3].pos) then []
                                else [TriangleClip(vs[1].pos, vs[2].pos, vs[3].pos, drawingArea)];
        EmitTriangle(vs[1], vs[2], vs[3], [vs[2], vs[1], vs[3]]);
        AppendAssoc3(stream0, first, second);
        AppendAssoc3(written0, firstArea, secondArea);
      } else {
        AppendAssoc3(stream0, first, []);
        AppendAssoc3(written0, firstArea, []);
      }
    }

    /** Adds triangle a-b-c as `order` unless it is too large, marking its clipped area dirty. */
    method EmitTriangle(a: BatchVertex, b: BatchVertex, c: BatchVertex, order: seq<BatchVertex>)
      requires Valid() && drawingArea.Valid() && a.pos.Native? && b.pos.Native? && c.pos.Native?
      requires buffer.Mapped? && buffer.Free() >= |order|
      modifies this`buffer, this`bufferBatch, this`vramDirtyRect, this`written, this`stream
      ensures Valid() && buffer.Mapped?
      ensures buffer.Free() == old(buffer.Free()) - (if TriangleCulled(a.pos, b.pos, c.pos) then 0 else |order|)
      ensures stream == old(stream) + (if TriangleCulled(a.pos, b.pos, c.pos) then [] else order)
      ensures written == old(written) + (if TriangleCulled(a.pos, b.pos, c.pos) then [] else [TriangleClip(a.pos, b.pos, c.pos, drawingArea)])
    {
      if !TriangleCulled(a.pos, b.pos, c.pos) {
        IncludeDrawnArea(TriangleClip(a.pos, b.pos, c.pos, drawingArea));
        AddVertices(order);
      }
    }

    // ----- Rectangles -----

    /**
     * Loads a rectangle. Nothing is drawn when the drawing area is empty;
     * otherwise the depth test is switched off, the rectangle is added as
     * sub-quads split at texture-page boundaries, each checked against the
     * dirty area first, and its clipped area is marked dirty.
     */
    method LoadRectangle(x: int, y: int, texcoord: u16, widthAndHeight: u32, texpage: u32, depth: nat)
      returns (r: RectangleShape)
      requires Valid() && renderCommand.primitive == Rectangle
      requires buffer.Mapped? && buffer.Free() >= Required()
      modifies this`batch, this`buffer, this`log, this`bufferBatch, this`uboDirty, this`deviceUbo, this`currentDepth,
               this`currentUVRange, this`texpageDirty, this`vramDirtyRect, this`written, this`stream
      ensures old(log) <= log
      ensures Valid()
      ensures r == RectangleShapeOf(renderCommand, drawingOffsetX, drawingOffsetY, x, y, texcoord, widthAndHeight)
      ensures !drawingArea.Valid() ==>
        unchanged(this`batch, this`buffer, this`log, this`bufferBatch, this`uboDirty, this`deviceUbo,
                  this`currentDepth, this`currentUVRange, this`texpageDirty, this`vramDirtyRect, this`written,
                  this`stream)
      ensures drawingArea.Valid() ==>
        batch == old(batch).(useDepthBuffer := false) &&
        stream == old(stream) + RectangleVertices(r.x, r.y, depth, renderCommand.color, texpage, r.texLeft, r.texTop,
                                                  r.width, r.height) &&
        EndsWith(written, [ClipRect(r.x, r.x + r.width, r.y, r.y + r.height, drawingArea)]) &&
        (texpageDirty ==>
          QuadsCovered(currentUVRange, drawMode.textureWindow, texpage, RectangleQuads(r.texLeft, r.texTop, r.width, r.height)))
    {
      r := RectangleShapeOf(renderCommand, drawingOffsetX, drawingOffsetY, x, y, texcoord, widthAndHeight);
      if !drawingArea.Valid() {
        return;
      }
      DrawRectangle(r, texpage, depth);
    }

    /** Draws a rectangle of the given shape: its sub-quads, then its clipped area marked as drawn. */
    method DrawRectangle(r: RectangleShape, texpage: u32, depth: nat)
      requires Valid() && renderCommand.primitive == Rectangle && drawingArea.Valid()
      requires r.width < MAX_PRIMITIVE_WIDTH && r.height < MAX_PRIMITIVE_HEIGHT
      requires buffer.Mapped? && buffer.Free() >= Required()
      modifies this`batch, this`buffer, this`log, this`bufferBatch, this`uboDirty, this`deviceUbo, this`currentDepth,
               this`currentUVRange, this`texpageDirty, this`vramDirtyRect, this`written, this`stream
      ensures old(log) <= log
      ensures Valid()
      ensures batch == old(batch).(useDepthBuffer := false)
      ensures stream == old(stream) + RectangleVertices(r.x, r.y, depth, renderCommand.color, texpage, r.texLeft, r.texTop,
                                                        r.width, r.height)
      ensures EndsWith(written, [ClipRect(r.x, r.x + r.width, r.y, r.y + r.height, drawingArea)])
      ensures texpageDirty ==>
        QuadsCovered(currentUVRange, drawMode.textureWindow, texpage, RectangleQuads(r.texLeft, r.texTop, r.width, r.height))
    {
      SetBatchDepthBuffer(false);
      EmitAndMarkRectangle(r, texpage, depth);
    }

    /** The rectangle's sub-quads, then its clipped area marked as drawn, under the current depth test. */
    method EmitAndMarkRectangle(r: RectangleShape, texpage: u32, depth: nat)
      requires Valid() && renderCommand.primitive == Rectangle && drawingArea.Valid()
      requires r.width < MAX_PRIMITIVE_WIDTH && r.height < MAX_PRIMITIVE_HEIGHT
      requires buffer.Mapped? && buffer.Free() >= Required()
      modifies this`buffer, this`log, this`bufferBatch, this`uboDirty, this`deviceUbo, this`currentDepth,
               this`currentUVRange, this`texpageDirty, this`vramDirtyRect, this`written, this`stream
      ensures old(log) <= log
      ensures Valid()
      ensures stream == old(stream) + RectangleVertices(r.x, r.y, depth, renderCommand.color, texpage, r.texLeft, r.texTop,
                                                        r.width, r.height)
      ensures EndsWith(written, [ClipRect(r.x, r.x + r.width, r.y, r.y + r.height, drawingArea)])
      ensures texpageDirty ==>
        QuadsCovered(currentUVRange, drawMode.textureWindow, texpage, RectangleQuads(r.texLeft, r.texTop, r.width, r.height))
    {
      EmitRectangle(r, texpage, depth);
      MarkRectangleDrawn(r);
    }

    /** Adds the rectangle's area, clipped to the drawing area, to the dirty area. */
    method MarkRectangleDrawn(r: RectangleShape)
      requires Valid() && drawingArea.Valid()
      modifies this`vramDirtyRect, this`written
      ensures Valid()
      ensures EndsWith(written, [ClipRect(r.x, r.x + r.width, r.y, r.y + r.height, drawingArea)])
    {
      var clip := ClipRect(r.x, r.x + r.width, r.y, r.y + r.height, drawingArea);
      ghost var w := written;
      IncludeDrawnArea(clip);
      EndsWithAppend(w, [clip]);
    }

    /** Splits a rectangle at texture-page boundaries and adds its sub-quads. */
    method EmitRectangle(r: RectangleShape, texpage: u32, depth: nat)
      requires Valid() && renderCommand.primitive == Rectangle
      requires r.width < MAX_PRIMITIVE_WIDTH && r.height < MAX_PRIMITIVE_HEIGHT
      requires buffer.Mapped? && buffer.Free() >= Required()
      modifies this`buffer, this`log, this`bufferBatch, this`uboDirty, this`deviceUbo, this`currentDepth,
               this`currentUVRange, this`texpageDirty, this`vramDirtyRect, this`written, this`stream
      ensures old(log) <= log
      ensures Valid()
      ensures stream == old(stream) + RectangleVertices(r.x, r.y, depth, renderCommand.color, texpage, r.texLeft, r.texTop,
                                                        r.width, r.height)
      ensures texpageDirty ==>
        QuadsCovered(currentUVRange, drawMode.textureWindow, texpage, RectangleQuads(r.texLeft, r.texTop, r.width, r.height))
    {
      var qs := SplitRectangle(r.texLeft, r.texTop, r.width, r.height);
      RectangleQuadsInPage(r.texLeft, r.texTop, r.width, r.height);
      RectangleFitsReservedSpace(r.texLeft, r.texTop, r.width, r.height);
      EmitRectangleQuads(r.x, r.y, depth, renderCommand.color, texpage, qs);
    }

    /** Adds the sub-quads `qs` of a rectangle at (x, y) in order, each checked against the dirty area first. */
    method EmitRectangleQuads(x: int, y: int, depth: nat, color: u32, texpage: u32, qs: seq<SubQuad>)
      requires Valid() && renderCommand.primitive == Rectangle && QuadsInPage(qs)
      requires 6 * |qs| <= MAX_VERTICES_FOR_RECTANGLE && buffer.Mapped? && buffer.Free() >= 6 * |qs|
      modifies this`buffer, this`log, this`bufferBatch, this`uboDirty, this`deviceUbo, this`currentDepth,
               this`currentUVRange, this`texpageDirty, this`vramDirtyRect, this`written, this`stream
      ensures old(log) <= log
      ensures Valid()
      ensures stream == old(stream) + QuadsVertices(x, y, depth, color, texpage, qs)
      ensures texpageDirty ==> QuadsCovered(currentUVRange, drawMode.textureWindow, texpage, qs)
    {
      ghost var s0 := stream;
      var i := 0;
      while i < |qs|
        invariant i <= |qs| && QuadsInPage(qs[..i])
        invariant Valid() && buffer.Mapped? && buffer.Free() >= 6 * (|qs| - i)
        invariant stream == s0 + QuadsVertices(x, y, depth, color, texpage, qs[..i])
        invariant texpageDirty ==> QuadsCovered(currentUVRange, drawMode.textureWindow, texpage, qs[..i])
        invariant old(log) <= log
      {
        EmitQuadOfRectangle(x, y, depth, color, texpage, qs, i, s0);
        i := i + 1;
      }
      assert qs[..i] == qs;
    }

    /** Sub-quad i of `qs`, added after the first i, which extends what the loop above keeps. */
    method EmitQuadOfRectangle(x: int, y: int, depth: nat, color: u32, texpage: u32, qs: seq<SubQuad>, i: nat,
                               ghost s0: seq<BatchVertex>)
      requires Valid() && renderCommand.primitive == Rectangle && QuadsInPage(qs) && i < |qs|
      requires 6 * |qs| <= MAX_VERTICES_FOR_RECTANGLE && buffer.Mapped? && buffer.Free() >= 6 * (|qs| - i)
      requires QuadsInPage(qs[..i]) && stream == s0 + QuadsVertices(x, y, depth, color, texpage, qs[..i])
      requires texpageDirty ==> QuadsCovered(currentUVRange, drawMode.textureWindow, texpage, qs[..i])
      modifies this`buffer, this`log, this`bufferBatch, this`uboDirty, this`deviceUbo, this`currentDepth,
               this`currentUVRange, this`texpageDirty, this`vramDirtyRect, this`written, this`stream
      ensures old(log) <= log
      ensures Valid() && buffer.Mapped? && buffer.Free() >= 6 * (|qs| - (i + 1))
      ensures QuadsInPage(qs[..i + 1]) && stream == s0 + QuadsVertices(x, y, depth, color, texpage, qs[..i + 1])
      ensures texpageDirty ==> QuadsCovered(currentUVRange, drawMode.textureWindow, texpage, qs[..i + 1])
    {
      QuadsPrefixStep(x, y, depth, color, texpage, qs, i, s0);
      ghost var uv := currentUVRange;
      EmitSubQuad(x, y, depth, color, texpage, qs[i], 6 * (|qs| - i - 1));
      if texpageDirty {
        QuadsCoveredGrow(uv, currentUVRange, drawMode.textureWindow, texpage, qs[..i]);
        QuadsCoveredAppend(currentUVRange, drawMode.textureWindow, texpage, qs[..i], [qs[i]]);
      }
    }

    /** Adds one sub-quad after checking its texels against the dirty area, leaving room for `reserve` more vertices. */
    method EmitSubQuad(x: int, y: int, depth: nat, color: u32, texpage: u32, q: SubQuad, ghost reserve: nat)
      requires Valid() && renderCommand.primitive == Rectangle && QuadInPage(q)
      requires reserve <= MAX_VERTICES_FOR_RECTANGLE - 6 && buffer.Mapped? && buffer.Free() >= 6 + reserve
      modifies this`buffer, this`log, this`bufferBatch, this`uboDirty, this`deviceUbo, this`currentDepth,
               this`currentUVRange, this`texpageDirty, this`vramDirtyRect, this`written, this`stream
      ensures old(log) <= log
      ensures Valid() && buffer.Mapped?
      ensures buffer.Free() >= reserve
      ensures stream == old(stream) + QuadVertices(x, y, depth, color, texpage, q)
      ensures texpageDirty ==>
        old(texpageDirty) && currentUVRange.Covers(old(currentUVRange)) &&
        UVRangeHolds(currentUVRange, drawMode.textureWindow, texpage, QuadUVLimits(q))
    {
      var vs := QuadVertices(x, y, depth, color, texpage, q);
      ghost var l, w := QuadUVLimits(q), drawMode.textureWindow;
      ghost var sampled := SampledUnder(w, texpage, q.texLeft, q.texTop, q.texRight - 1, q.texBottom - 1);
      assert sampled == SampledRangeCorrected(texpage, w.andX, w.orX, w.andY, w.orY, l.minU, l.minV, l.maxU, l.maxV);
      CheckQuadTexels(texpage, q);
      assert texpageDirty ==> UVRangeHolds(currentUVRange, w, texpage, l);
      assert Required() == MAX_VERTICES_FOR_RECTANGLE;
      AddVertices(vs);
    }

    /** The overlap check for the texels of one sub-quad, keeping only what the rectangle loop needs. */
    method CheckQuadTexels(texpage: u32, q: SubQuad)
      requires Valid() && QuadInPage(q)
      modifies this`buffer, this`log, this`bufferBatch, this`uboDirty, this`deviceUbo, this`currentDepth,
               this`currentUVRange, this`texpageDirty, this`vramDirtyRect, this`written
      ensures Valid() && (buffer == old(buffer) || Refilled())
      ensures texpageDirty ==>
        old(texpageDirty) && currentUVRange.Covers(old(currentUVRange)) &&
        currentUVRange.Covers(SampledRect(SampledUnder(drawMode.textureWindow, texpage, q.texLeft, q.texTop,
                                                       q.texRight - 1, q.texBottom - 1)))
      ensures LogGrew()
    {
      CheckForTexPageOverlap(texpage, q.texLeft, q.texTop, q.texRight - 1, q.texBottom - 1);
    }

    // ----- Lines -----

    /**
     * Loads a line or polyline: the depth test is switched off, and, unless
     * the drawing area is empty, each segment that is not too large adds six
     * vertices and marks its clipped area dirty.
     */
    method LoadLine(pts: seq<LineVertex>, depth: nat)
      requires Valid() && renderCommand.primitive == Line && |pts| >= 2
      requires if renderCommand.polyline then polyLineVertexCount == |pts| else |pts| == 2
      requires buffer.Mapped? && buffer.Free() >= Required()
      modifies this`batch, this`buffer, this`log, this`bufferBatch, this`uboDirty, this`deviceUbo, this`currentDepth,
               this`vramDirtyRect, this`written, this`stream
      ensures Valid()
      ensures batch == old(batch).(useDepthBuffer := false)
      ensures !drawingArea.Valid() ==> stream == old(stream) && vramDirtyRect == old(vramDirtyRect) && written == old(written)
      ensures drawingArea.Valid() ==>
        stream == old(stream) + PolylineVertices(renderCommand, pts, |pts|, drawingOffsetX, drawingOffsetY, depth) &&
        vramDirtyRect == PolylineDirty(old(vramDirtyRect), pts, |pts|, drawingOffsetX, drawingOffsetY, drawingArea) &&
        written == old(written) + PolylineWrites(pts, |pts|, drawingOffsetX, drawingOffsetY, drawingArea)
      ensures LogGrew()
    {
      SetBatchDepthBuffer(false);
      if !drawingArea.Valid() {
        return;
      }
      EmitSegments(pts, depth);
    }

    /** Adds the segments of a polyline, one after the other. */
    method EmitSegments(pts: seq<LineVertex>, depth: nat)
      requires Valid() && drawingArea.Valid() && |pts| >= 2
      requires buffer.Mapped? && buffer.Free() >= 6 * (|pts| - 1)
      modifies this`buffer, this`bufferBatch, this`vramDirtyRect, this`written, this`stream
      ensures Valid()
      ensures stream == old(stream) + PolylineVertices(renderCommand, pts, |pts|, drawingOffsetX, drawingOffsetY, depth)
      ensures vramDirtyRect == PolylineDirty(old(vramDirtyRect), pts, |pts|, drawingOffsetX, drawingOffsetY, drawingArea)
      ensures written == old(written) + PolylineWrites(pts, |pts|, drawingOffsetX, drawingOffsetY, drawingArea)
    {
      ghost var s0, w0, d0 := stream, written, vramDirtyRect;
      ghost var rc, ox, oy, area := renderCommand, drawingOffsetX, drawingOffsetY, drawingArea;
      var i := 1;
      while i < |pts|
        invariant 1 <= i <= |pts|
        invariant Valid() && buffer.Mapped? && buffer.Free() >= 6 * (|pts| - i)
        invariant stream == s0 + PolylineVertices(rc, pts, i, ox, oy, depth)
        invariant written == w0 + PolylineWrites(pts, i, ox, oy, area)
        invariant vramDirtyRect == PolylineDirty(d0, pts, i, ox, oy, area)
        decreases |pts| - i
      {
        EmitSegment(pts, i, depth, s0, w0, d0);
        i := i + 1;
      }
    }

    /** Adds the vertices `vs` of a segment whose clipped area is `clip`. */
    method DrawSegment(clip: Rect, vs: seq<BatchVertex>)
      requires Valid() && VramRect.Covers(clip) && buffer.Mapped? && buffer.Free() >= |vs|
      modifies this`buffer, this`bufferBatch, this`vramDirtyRect, this`written, this`stream
      ensures Valid() && buffer.Mapped? && buffer.Free() == old(buffer.Free()) - |vs|
      ensures stream == old(stream) + vs && written == old(written) + [clip]
      ensures vramDirtyRect == old(vramDirtyRect).IncludeRect(clip)
    {
      IncludeDrawnArea(clip);
      AddVertices(vs);
    }

    /** Adds segment i-1..i of a polyline unless it is too large, marking its clipped area dirty. */
    method EmitSegment(pts: seq<LineVertex>, i: nat, depth: nat, ghost s0: seq<BatchVertex>, ghost w0: seq<Rect>,
                       ghost d0: Rect)
      requires Valid() && drawingArea.Valid() && 1 <= i < |pts|
      requires buffer.Mapped? && buffer.Free() >= 6
      requires stream == s0 + PolylineVertices(renderCommand, pts, i, drawingOffsetX, drawingOffsetY, depth)
      requires written == w0 + PolylineWrites(pts, i, drawingOffsetX, drawingOffsetY, drawingArea)
      requires vramDirtyRect == PolylineDirty(d0, pts, i, drawingOffsetX, drawingOffsetY, drawingArea)
      modifies this`buffer, this`bufferBatch, this`vramDirtyRect, this`written, this`stream
      ensures Valid() && buffer.Mapped? && buffer.Free() >= old(buffer.Free()) - 6
      ensures stream == s0 + PolylineVertices(renderCommand, pts, i + 1, drawingOffsetX, drawingOffsetY, depth)
      ensures written == w0 + PolylineWrites(pts, i + 1, drawingOffsetX, drawingOffsetY, drawingArea)
      ensures vramDirtyRect == PolylineDirty(d0, pts, i + 1, drawingOffsetX, drawingOffsetY, drawingArea)
    {
      var ox, oy := drawingOffsetX, drawingOffsetY;
      var vs := SegmentVertices(renderCommand, pts, i, ox, oy, depth);
      ghost var pv := PolylineVertices(renderCommand, pts, i, ox, oy, depth);
      ghost var pw := PolylineWrites(pts, i, ox, oy, drawingArea);
      ghost var area: seq<Rect> := [];
      if !SegmentCulled(pts, i, ox, oy) {
        var clip := SegmentClip(pts, i, ox, oy, drawingArea);
        area := [clip];
        DrawSegment(clip, vs);
      }
      assert PolylineVertices(renderCommand, pts, i + 1, ox, oy, depth) == pv + vs;
      assert PolylineWrites(pts, i + 1, ox, oy, drawingArea) == pw + area;
      AppendAssoc3(s0, pv, vs);
      AppendAssoc3(w0, pw, area);
    }

    // ----- Command dispatch -----

    /**
     * Loads the vertices of the current command, whose parameters are `p`.
     * With the mask check on, the depth counter moves on first, so the
     * command's pixels lie over every earlier one.
     */
    method LoadVertices(p: Payload, validW: bool) returns (ghost depth: nat)
      requires Valid() && WellFormed(renderCommand, p)
      requires renderCommand.primitive == Line && renderCommand.polyline ==> polyLineVertexCount == |p.points|
      requires buffer.Mapped? && buffer.Free() >= Required()
      modifies this`batch, this`buffer, this`log, this`bufferBatch, this`uboDirty, this`deviceUbo, this`currentDepth,
               this`currentUVRange, this`texpageDirty, this`vramDirtyRect, this`written, this`stream
      ensures Valid()
      ensures batch == old(batch).(useDepthBuffer := batch.useDepthBuffer)
      ensures batch.textureMode == old(batch.textureMode) && batch.transparency == old(batch.transparency) &&
              batch.dithering == old(batch.dithering)
      ensures depth == old(currentDepth) + (if status.checkMaskBeforeDraw then 1 else 0)
      ensures drawingArea.Valid() ==>
        stream == old(stream) + CommandVertices(renderCommand, p, drawingOffsetX, drawingOffsetY, depth,
                                                TexPageWord(drawMode), computeUVRange)
      ensures !drawingArea.Valid() ==> stream == old(stream)
      ensures LogGrew()
    {
      if status.checkMaskBeforeDraw {
        currentDepth := currentDepth + 1;
      }
      depth := currentDepth;
      LoadPayload(p, validW, TexPageWord(drawMode), currentDepth);
    }

    /** The vertices of the current command's payload, at the given depth and texture page. */
    method LoadPayload(p: Payload, validW: bool, texpage: u32, depth: nat)
      requires Valid() && WellFormed(renderCommand, p)
      requires renderCommand.primitive == Line && renderCommand.polyline ==> polyLineVertexCount == |p.points|
      requires buffer.Mapped? && buffer.Free() >= Required()
      modifies this`batch, this`buffer, this`log, this`bufferBatch, this`uboDirty, this`deviceUbo, this`currentDepth,
               this`currentUVRange, this`texpageDirty, this`vramDirtyRect, this`written, this`stream
      ensures old(log) <= log
      ensures Valid()
      ensures batch == old(batch).(useDepthBuffer := batch.useDepthBuffer)
      ensures drawingArea.Valid() ==>
        stream == old(stream) + CommandVertices(renderCommand, p, drawingOffsetX, drawingOffsetY, depth, texpage,
                                                computeUVRange)
      ensures !drawingArea.Valid() ==> stream == old(stream)
    {
      match p
      case PolygonData(ps) =>
        LoadPolygon(ps, validW, texpage, depth);
      case RectangleData(x, y, texcoord, widthAndHeight) =>
        var r := LoadRectangle(x, y, texcoord, widthAndHeight, texpage, depth);
      case LineData(pts) =>
        LoadLine(pts, depth);
    }

    /**
     * Draws the current command: prepares its batch, then loads its
     * vertices. The vertices are loaded under the command's own texture
     * mode, transparency and dithering; when the command needs a new batch,
     * the pending one is drawn first. `depth` is the depth counter the
     * command's vertices carry.
     */
    method DispatchRenderCommand(p: Payload, validW: bool) returns (ghost depth: nat)
      requires Valid() && WellFormed(renderCommand, p)
      requires renderCommand.primitive == Line && renderCommand.polyline ==> polyLineVertexCount == |p.points|
      modifies this`batch, this`ubo, this`uboDirty, this`drawMode, this`drawingAreaChanged, this`lastDepthBelowFar,
               this`log, this`buffer, this`bufferBatch, this`deviceUbo, this`currentDepth, this`texpageDirty,
               this`computeUVRange, this`currentUVRange, this`vramDirtyRect, this`written, this`stream
      ensures Valid()
      ensures batch.textureMode == CommandTextureMode(renderCommand, old(drawMode))
      ensures batch.transparency == CommandTransparency(renderCommand, old(drawMode))
      ensures batch.dithering == CommandDithering(renderCommand, trueColor, status)
      ensures NeedsNewBatch(features, CommandTextureMode(renderCommand, old(drawMode)),
                            CommandTransparency(renderCommand, old(drawMode)),
                            CommandDithering(renderCommand, trueColor, status), old(batch)) &&
              |old(buffer.Contents())| > 0 ==>
        old(log) + old(PendingFlush()) <= log
      ensures drawingArea.Valid() ==>
        stream == old(stream) + CommandVertices(renderCommand, p, drawingOffsetX, drawingOffsetY, depth,
                                                TexPageWord(drawMode), computeUVRange)
      ensures !drawingArea.Valid() ==> stream == old(stream)
      ensures LogGrew()
    {
      var textureMode, transparency, dithering := PrepareBatch();
      ghost var log1 := log;
      assert stream == old(stream);
      depth := LoadVertices(p, validW);
      PrefixTrans(old(log), log1, log);
      if NeedsNewBatch(features, textureMode, transparency, dithering, old(batch)) && |old(buffer.Contents())| > 0 {
        PrefixTrans(old(log) + old(PendingFlush()), log1, log);
      }
    }

    /**
     * Everything before the vertices are loaded: the texture-page check, then
     * the batch for the command's texture mode, transparency and dithering.
     */
    method PrepareBatch() returns (textureMode: TextureMode, transparency: TransparencyMode, dithering: bool)
      requires Valid()
      modifies this`batch, this`ubo, this`uboDirty, this`drawMode, this`drawingAreaChanged, this`lastDepthBelowFar,
               this`log, this`buffer, this`bufferBatch, this`deviceUbo, this`currentDepth, this`texpageDirty,
               this`computeUVRange, this`currentUVRange, this`vramDirtyRect, this`written
      ensures Valid()
      ensures textureMode == CommandTextureMode(renderCommand, old(drawMode))
      ensures transparency == CommandTransparency(renderCommand, old(drawMode))
      ensures dithering == CommandDithering(renderCommand, trueColor, status)
      ensures batch.textureMode == textureMode && batch.transparency == transparency && batch.dithering == dithering
      ensures buffer.Mapped? && buffer.Free() >= Required()
      ensures NeedsNewBatch(features, textureMode, transparency, dithering, old(batch)) ==> buffer.vertices == []
      ensures NeedsNewBatch(features, textureMode, transparency, dithering, old(batch)) && |old(buffer.Contents())| > 0 ==>
        old(log) + old(PendingFlush()) <= log
      ensures LogGrew()
    {
      ghost var log0, pending0 := log, PendingFlush();
      CheckTexturePageChange();
      ghost var log1 := log;
      textureMode := CommandTextureMode(renderCommand, drawMode);
      transparency := CommandTransparency(renderCommand, drawMode);
      dithering := CommandDithering(renderCommand, trueColor, status);
      SelectBatch(textureMode, transparency, dithering);
      if log0 + pending0 <= log1 {
        PrefixTrans(log0 + pending0, log1, log);
      }
    }

    /**
     * The batch for a command drawing with the given texture mode,
     * transparency and dithering: the pending batch is drawn first when the
     * command needs a new one, room is made for the command, and a batch
     * without vertices takes the command's configuration.
     */
    method SelectBatch(textureMode: TextureMode, transparency: TransparencyMode, dithering: bool)
      requires Valid()
      modifies this`batch, this`ubo, this`uboDirty, this`drawMode, this`drawingAreaChanged, this`lastDepthBelowFar,
               this`log, this`buffer, this`bufferBatch, this`deviceUbo, this`currentDepth
      ensures Valid()
      ensures batch.textureMode == textureMode && batch.transparency == transparency && batch.dithering == dithering
      ensures buffer.Mapped? && buffer.Free() >= Required()
      ensures NeedsNewBatch(features, textureMode, transparency, dithering, old(batch)) ==> buffer.vertices == []
      ensures NeedsNewBatch(features, textureMode, transparency, dithering, old(batch)) && |old(buffer.Contents())| > 0 ==>
        old(log) + old(PendingFlush()) <= log
      ensures old(log) <= log
      ensures drawMode == old(drawMode).(textureWindowChanged := drawMode.textureWindowChanged)
    {
      ghost var log0 := log;
      if NeedsNewBatch(features, textureMode, transparency, dithering, batch) {
        FlushRender();
      }
      ghost var log1 := log;
      ReserveAndStart(textureMode, transparency, dithering);
      PrefixTrans(log0, log1, log);
    }

    /** Makes room for the command and, when the batch has no vertices, starts it with the command's configuration. */
    method ReserveAndStart(textureMode: TextureMode, transparency: TransparencyMode, dithering: bool)
      requires Valid()
      requires |buffer.Contents()| > 0 ==> !NeedsNewBatch(features, textureMode, transparency, dithering, batch)
      modifies this`batch, this`ubo, this`uboDirty, this`drawMode, this`drawingAreaChanged, this`lastDepthBelowFar,
               this`log, this`buffer, this`bufferBatch, this`deviceUbo, this`currentDepth
      ensures Valid()
      ensures batch.textureMode == textureMode && batch.transparency == transparency && batch.dithering == dithering
      ensures buffer.Mapped? && buffer.Free() >= Required()
      ensures old(buffer) == Unmapped ==> buffer.vertices == []
      ensures old(log) <= log
      ensures drawMode == old(drawMode).(textureWindowChanged := drawMode.textureWindowChanged)
    {
      ghost var log0 := log;
      EnsureVertexBufferSpaceForCurrentCommand();
      ghost var log1 := log;
      if |buffer.vertices| == 0 {
        StartBatch(textureMode, transparency, dithering);
      }
      PrefixTrans(log0, log1, log);
    }

    /**
     * When a textured command finds the texture page changed: a palette in
     * the dirty area is refreshed in the read texture first (drawing the
     * pending batch before), and the page is marked dirty, with an empty UV
     * range, when it meets the dirty area.
     */
    method CheckTexturePageChange()
      requires Valid()
      modifies this`drawMode, this`texpageDirty, this`computeUVRange, this`currentUVRange, this`vramDirtyRect,
               this`written, this`log, this`buffer, this`bufferBatch, this`uboDirty, this`deviceUbo
      ensures Valid()
      ensures drawMode == old(drawMode).(texturePageChanged := drawMode.texturePageChanged)
      ensures !(TexturingEnabled(renderCommand) && old(drawMode).texturePageChanged) ==>
        unchanged(this`drawMode, this`texpageDirty, this`computeUVRange, this`currentUVRange, this`vramDirtyRect,
                  this`written, this`log, this`buffer, this`bufferBatch, this`uboDirty, this`deviceUbo)
      ensures TexturingEnabled(renderCommand) && old(drawMode).texturePageChanged ==>
        drawMode == old(drawMode).(texturePageChanged := false) &&
        (texpageDirty <==> PageDirty(drawMode, vramDirtyRect)) &&
        computeUVRange == (texpageDirty || clampUVs) &&
        currentUVRange == (if texpageDirty then Invalid else old(currentUVRange))
      ensures TexturingEnabled(renderCommand) && old(drawMode).texturePageChanged && PaletteDirty(old(drawMode), old(vramDirtyRect)) ==>
        vramDirtyRect == Invalid && written == [] && buffer.Contents() == [] &&
        log == old(log) + (if |old(buffer.Contents())| > 0 then old(PendingFlush()) else []) + [ReadTextureUpdate(old(vramDirtyRect))]
      ensures !(TexturingEnabled(renderCommand) && old(drawMode).texturePageChanged && PaletteDirty(old(drawMode), old(vramDirtyRect))) ==>
        vramDirtyRect == old(vramDirtyRect) && written == old(written) && buffer == old(buffer) && log == old(log) &&
        PendingFlush() == old(PendingFlush())
      ensures old(log) + old(PendingFlush()) <= log ||
        (log == old(log) && PendingFlush() == old(PendingFlush()) && buffer.Contents() == old(buffer.Contents())) ||
        (|old(buffer.Contents())| == 0 && buffer.Contents() == [])
    {
      if TexturingEnabled(renderCommand) && drawMode.texturePageChanged {
        CheckChangedPage();
      }
    }

    /** The texture-page check once the page is known to have changed. */
    method CheckChangedPage()
      requires Valid() && drawMode.texturePageChanged
      modifies this`drawMode, this`texpageDirty, this`computeUVRange, this`currentUVRange, this`vramDirtyRect,
               this`written, this`log, this`buffer, this`bufferBatch, this`uboDirty, this`deviceUbo
      ensures Valid()
      ensures drawMode == old(drawMode).(texturePageChanged := false)
      ensures texpageDirty <==> PageDirty(drawMode, vramDirtyRect)
      ensures computeUVRange == (texpageDirty || clampUVs)
      ensures currentUVRange == (if texpageDirty then Invalid else old(currentUVRange))
      ensures PaletteDirty(old(drawMode), old(vramDirtyRect)) ==>
        vramDirtyRect == Invalid && written == [] && buffer.Contents() == [] &&
        log == old(log) + (if |old(buffer.Contents())| > 0 then old(PendingFlush()) else []) + [ReadTextureUpdate(old(vramDirtyRect))]
      ensures !PaletteDirty(old(drawMode), old(vramDirtyRect)) ==>
        vramDirtyRect == old(vramDirtyRect) && written == old(written) && buffer == old(buffer) && log == old(log) &&
        PendingFlush() == old(PendingFlush())
      ensures old(log) + old(PendingFlush()) <= log ||
        (log == old(log) && PendingFlush() == old(PendingFlush()) && buffer.Contents() == old(buffer.Contents())) ||
        (|old(buffer.Contents())| == 0 && buffer.Contents() == [])
    {
      if PaletteDirty(drawMode, vramDirtyRect) {
        RefreshPaletteAndMark();
      } else {
        drawMode := drawMode.(texturePageChanged := false);
        MarkTexturePage();
      }
    }

    /** The texture-page check when the page's palette lies in the dirty area. */
    method RefreshPaletteAndMark()
      requires Valid() && PaletteDirty(drawMode, vramDirtyRect)
      modifies this`drawMode, this`texpageDirty, this`computeUVRange, this`currentUVRange, this`vramDirtyRect,
               this`written, this`log, this`buffer, this`bufferBatch, this`uboDirty, this`deviceUbo
      ensures Valid()
      ensures drawMode == old(drawMode).(texturePageChanged := false)
      ensures texpageDirty <==> PageDirty(drawMode, vramDirtyRect)
      ensures computeUVRange == (texpageDirty || clampUVs)
      ensures currentUVRange == (if texpageDirty then Invalid else old(currentUVRange))
      ensures vramDirtyRect == Invalid && written == [] && buffer.Contents() == []
      ensures log == old(log) + (if |old(buffer.Contents())| > 0 then old(PendingFlush()) else []) + [ReadTextureUpdate(old(vramDirtyRect))]
      ensures old(log) + old(PendingFlush()) <= log || |old(buffer.Contents())| == 0
    {
      RefreshForPalette();
      if |old(buffer.Contents())| > 0 {
        PrefixAppend(old(log) + old(PendingFlush()), [ReadTextureUpdate(old(vramDirtyRect))]);
      }
      drawMode := drawMode.(texturePageChanged := false);
      MarkTexturePage();
    }

    /** The texture page is dirty, with an empty UV range to gather, exactly when it meets the dirty area. */
    method MarkTexturePage()
      requires Valid()
      modifies this`texpageDirty, this`computeUVRange, this`currentUVRange
      ensures Valid()
      ensures texpageDirty <==> PageDirty(drawMode, vramDirtyRect)
      ensures computeUVRange == (texpageDirty || clampUVs)
      ensures currentUVRange == (if texpageDirty then Invalid else old(currentUVRange))
    {
      if PageDirty(drawMode, vramDirtyRect) {
        computeUVRange := true;
        texpageDirty := true;
        currentUVRange := Invalid;
      } else {
        computeUVRange := clampUVs;
        texpageDirty := false;
      }
    }

    /** Draws the pending batch, if it holds vertices, and refreshes the read texture over the dirty area. */
    method RefreshForPalette()
      requires Valid()
      modifies this`texpageDirty, this`vramDirtyRect, this`written, this`log, this`buffer, this`bufferBatch,
               this`uboDirty, this`deviceUbo
      ensures Valid() && !texpageDirty && vramDirtyRect == Invalid && written == [] && buffer.Contents() == []
      ensures log == old(log) + (if |old(buffer.Contents())| > 0 then old(PendingFlush()) else []) + [ReadTextureUpdate(old(vramDirtyRect))]
    {
      if |buffer.Contents()| > 0 {
        FlushRender();
      }
      UpdateVRAMReadTexture();
    }

    /**
     * Sets up a new, empty batch for a command drawing with the given
     * texture mode, transparency and dithering, and the mask and interlace
     * state of the status register. The uniforms are marked dirty when they
     * change and whenever the texture window changed.
     */
    method StartBatch(textureMode: TextureMode, transparency: TransparencyMode, dithering: bool)
      requires Valid() && |buffer.Contents()| == 0
      modifies this`batch, this`ubo, this`uboDirty, this`drawMode, this`drawingAreaChanged, this`lastDepthBelowFar,
               this`log
      ensures Valid()
      ensures batch == BatchFor(old(batch), textureMode, transparency, dithering, status)
      ensures ubo == BatchUniforms(old(ubo), features, textureMode, transparency, old(batch), status, old(drawMode))
      ensures uboDirty == (old(uboDirty) || ubo != old(ubo) || old(drawMode).textureWindowChanged)
      ensures drawMode == old(drawMode).(textureWindowChanged := false) && !drawingAreaChanged
      ensures lastDepthBelowFar == (old(lastDepthBelowFar) && !(old(drawingAreaChanged) && features.pgxpDepthBuffer))
      ensures log == old(log) + if old(drawingAreaChanged) then DrawingAreaEvents(old(lastDepthBelowFar)) else []
      ensures old(log) <= log
    {
      SetUniforms(BatchUniforms(ubo, features, textureMode, transparency, batch, status, drawMode));
      batch, drawMode := BatchFor(batch, textureMode, transparency, dithering, status), drawMode.(textureWindowChanged := false);
      ApplyDrawingArea();
    }

    /** Takes `u` as the batch uniforms, marking them dirty when they change or the texture window changed. */
    method SetUniforms(u: UboData)
      requires Valid()
      modifies this`ubo, this`uboDirty
      ensures Valid() && ubo == u
      ensures uboDirty == (old(uboDirty) || u != old(ubo) || drawMode.textureWindowChanged)
    {
      if u != ubo || drawMode.textureWindowChanged {
        uboDirty := true;
      }
      ubo := u;
    }

    /** After the drawing area moved: the scissor follows, and the PGXP depth buffer is cleared when it holds depths. */
    method ApplyDrawingArea()
      modifies this`drawingAreaChanged, this`lastDepthBelowFar, this`log
      ensures !drawingAreaChanged
      ensures lastDepthBelowFar == (old(lastDepthBelowFar) && !(old(drawingAreaChanged) && features.pgxpDepthBuffer))
      ensures log == old(log) + if old(drawingAreaChanged) then DrawingAreaEvents(old(lastDepthBelowFar)) else []
    {
      if drawingAreaChanged {
        drawingAreaChanged := false;
        SetScissor();
        if features.pgxpDepthBuffer && lastDepthBelowFar {
          ClearDepthBuffer();
        }
      }
    }

    /** The device calls after the drawing area moved: the scissor, and a depth clear when PGXP depths were written. */
    ghost function DrawingAreaEvents(depthBelowFar: bool): seq<DeviceEvent>
      reads this`drawingArea
    {
      [ScissorTo(ScissorRect(drawingArea, resolutionScale))] + if features.pgxpDepthBuffer && depthBelowFar then [ClearDepth] else []
    }

    /** Resets the PGXP depth buffer to the far plane. */
    method ClearDepthBuffer()
      requires features.pgxpDepthBuffer
      modifies this`log, this`lastDepthBelowFar
      ensures log == old(log) + [ClearDepth] && !lastDepthBelowFar
    {
      log := log + [ClearDepth];
      lastDepthBelowFar := false;
    }

    // ----- VRAM transfers -----

    /**
     * Returns the device to batch drawing after a transfer: the scissor is the
     * drawing area again, and the batch uniforms, which the transfer's own
     * replaced on the device, are uploaded again before the next batch draw.
     */
    method RestoreDeviceContext()
      requires Valid()
      modifies this`log, this`uboDirty, this`deviceUbo
      ensures Valid()
      ensures log == old(log) + [ScissorTo(ScissorRect(drawingArea, resolutionScale))]
      ensures uboDirty && deviceUbo == None
    {
      SetScissor();
      uboDirty := true;
      deviceUbo := None;
    }

    /** Issues the draw `e` of a transfer and restores the device context after it. */
    method DrawTransfer(e: DeviceEvent)
      requires Valid()
      modifies this`log, this`uboDirty, this`deviceUbo
      ensures Valid()
      ensures log == old(log) + [e, ScissorTo(ScissorRect(drawingArea, resolutionScale))]
      ensures uboDirty && deviceUbo == None
    {
      ghost var log0 := log;
      log := log + [e];
      RestoreDeviceContext();
      assert log == log0 + [e] + [ScissorTo(ScissorRect(drawingArea, resolutionScale))];
    }

    /**
     * Fills width x height VRAM cells from (x, y), wrapping around both edges.
     * The area drawn (the transfer bounds) is marked dirty; the oversized
     * pipeline is chosen when the 32-bit end runs past an edge.
     */
    method FillVRAM(x: u32, y: u32, width: u32, height: u32)
      requires Valid()
      modifies this`vramDirtyRect, this`drawMode, this`written, this`log, this`uboDirty, this`deviceUbo
      ensures Valid()
      ensures var r := FillDirty(x, y, width, height);
        vramDirtyRect == old(vramDirtyRect).IncludeRect(r) && written == old(written) + [r] &&
        drawMode == old(drawMode).(texturePageChanged := old(drawMode).texturePageChanged || PageTouched(old(drawMode), r))
      ensures log == old(log) + [FillVRAMDraw(GetVRAMTransferBounds(x, y, width, height).Scaled(resolutionScale),
                                              WrapU32(x + width) > VRAM_WIDTH || WrapU32(y + height) > VRAM_HEIGHT,
                                              status.interlacedRendering),
                                 ScissorTo(ScissorRect(drawingArea, resolutionScale))]
      ensures uboDirty && deviceUbo == None
    {
      var r := FillDirty(x, y, width, height);
      IncludeVRAMDirtyRectangle(r);
      var oversized := WrapU32(x + width) > VRAM_WIDTH || WrapU32(y + height) > VRAM_HEIGHT;
      var bounds := GetVRAMTransferBounds(x, y, width, height);
      DrawTransfer(FillVRAMDraw(bounds.Scaled(resolutionScale), oversized, status.interlacedRendering));
    }

    /**
     * Reads a VRAM area back into the CPU-side copy: the transfer bounds are
     * encoded two pixels per 32-bit word and downloaded. With software
     * readbacks the software renderer holds VRAM and nothing is done here.
     */
    method ReadVRAM(x: u32, y: u32, width: u32, height: u32)
      requires Valid()
      modifies this`log, this`uboDirty, this`deviceUbo
      ensures Valid()
      ensures softwareReadbacks ==> log == old(log) && uboDirty == old(uboDirty) && deviceUbo == old(deviceUbo)
      ensures !softwareReadbacks ==>
        var b := GetVRAMTransferBounds(x, y, width, height);
        log == old(log) + [ReadbackOf(b), ScissorTo(ScissorRect(drawingArea, resolutionScale))] &&
        uboDirty && deviceUbo == None
    {
      if softwareReadbacks {
        return;
      }
      var b := GetVRAMTransferBounds(x, y, width, height);
      DrawTransfer(ReadbackOf(b));
    }

    /**
     * Writes CPU data to a VRAM area, wrapping around both edges. The
     * transfer bounds are marked dirty. A write that checks the mask bit takes
     * a new depth value first; one that does not may instead be served by a
     * replacement texture (`replaced`), drawn scaled at (x, y).
     */
    method UpdateVRAM(x: u32, y: u32, width: u32, height: u32, setMask: bool, checkMask: bool, replaced: bool)
      requires Valid()
      modifies this`vramDirtyRect, this`drawMode, this`written, this`currentDepth, this`log, this`uboDirty,
               this`deviceUbo
      ensures Valid()
      ensures var b := GetVRAMTransferBounds(x, y, width, height);
        vramDirtyRect == old(vramDirtyRect).IncludeRect(b) && written == old(written) + [b] &&
        drawMode == old(drawMode).(texturePageChanged := old(drawMode).texturePageChanged || PageTouched(old(drawMode), b))
      ensures currentDepth == old(currentDepth) + TransferDepthStep(checkMask, false, features.pgxpDepthBuffer)
      ensures !checkMask && replaced ==>
        log == old(log) + [ReplacementBlit(FromExtents(x * resolutionScale, y * resolutionScale,
                                                       width * resolutionScale, height * resolutionScale)),
                           ScissorTo(ScissorRect(drawingArea, resolutionScale))]
      ensures checkMask || !replaced ==>
        log == old(log) + [UpdateVRAMDraw(GetVRAMTransferBounds(x, y, width, height).Scaled(resolutionScale),
                                          checkMask && !features.pgxpDepthBuffer, currentDepth, setMask),
                           ScissorTo(ScissorRect(drawingArea, resolutionScale))]
      ensures uboDirty && deviceUbo == None
    {
      var b := GetVRAMTransferBounds(x, y, width, height);
      IncludeVRAMDirtyRectangle(b);
      if checkMask {
        currentDepth := currentDepth + 1;
      } else if replaced {
        DrawTransfer(ReplacementBlit(FromExtents(x * resolutionScale, y * resolutionScale,
                                                 width * resolutionScale, height * resolutionScale)));
        return;
      }
      DrawTransfer(UpdateVRAMDraw(b.Scaled(resolutionScale), checkMask && !features.pgxpDepthBuffer, currentDepth, setMask));
    }

    /**
     * Copies width x height VRAM cells from (srcX, srcY) to (dstX, dstY).
     * Copies that mask or wrap around an edge, and every copy on a
     * multisampled target, are drawn by a shader; the others are a texture
     * copy, from the read texture when the device cannot copy a texture onto
     * itself or the two areas overlap. Whenever the read texture is the
     * source, it is refreshed first if the source lies in the dirty area, so
     * no pending write overlaps what is read.
     */
    method CopyVRAM(srcX: u32, srcY: u32, dstX: u32, dstY: u32, width: u32, height: u32)
      requires Valid()
      modifies this`texpageDirty, this`vramDirtyRect, this`drawMode, this`written, this`currentDepth, this`log,
               this`uboDirty, this`deviceUbo
      ensures Valid()
      ensures var shader := CopyVRAMUsesShader(status.checkMaskBeforeDraw || status.setMaskWhileDrawing,
                                               srcX, srcY, dstX, dstY, width, height) || multisampled;
        currentDepth == old(currentDepth) + TransferDepthStep(status.checkMaskBeforeDraw, shader, features.pgxpDepthBuffer)
      ensures |written| > 0 && VramRect.Covers(written[|written| - 1]) && vramDirtyRect.Covers(written[|written| - 1])
      ensures dstX < VRAM_WIDTH && dstY < VRAM_HEIGHT ==>
        written[|written| - 1] == GetVRAMTransferBounds(dstX, dstY, width, height)
      ensures var shader := CopyVRAMUsesShader(status.checkMaskBeforeDraw || status.setMaskWhileDrawing,
                                               srcX, srcY, dstX, dstY, width, height) || multisampled;
        var src := FromExtents(srcX, srcY, width, height);
        (shader ==> Untouched(written[..|written| - 1], GetVRAMTransferBounds(srcX, srcY, width, height))) &&
        (!shader && (!textureCopyToSelf || src.Intersects(FromExtents(dstX, dstY, width, height))) ==>
          Untouched(written[..|written| - 1], src))
    {
      var useShader := CopyVRAMUsesShader(status.checkMaskBeforeDraw || status.setMaskWhileDrawing,
                                          srcX, srcY, dstX, dstY, width, height);
      if useShader || multisampled {
        CopyVRAMWithShader(srcX, srcY, dstX, dstY, width, height);
      } else {
        CopyVRAMDirect(srcX, srcY, dstX, dstY, width, height);
        if dstX < VRAM_WIDTH && dstY < VRAM_HEIGHT {
          DirectCopyDestination(status.checkMaskBeforeDraw || status.setMaskWhileDrawing, srcX, srcY, dstX, dstY, width, height);
        }
      }
    }

    /**
     * Brings the read texture up to date before `src` is read from it: it is
     * refreshed when `src` lies in the dirty area. Afterwards no write missing
     * from the read texture overlaps `src`.
     */
    method RefreshReadTextureFor(src: Rect)
      requires Valid()
      modifies this`texpageDirty, this`vramDirtyRect, this`written, this`log
      ensures Valid() && Untouched(written, src)
      ensures old(vramDirtyRect).Intersects(src) ==>
        !texpageDirty && vramDirtyRect == Invalid && written == [] && log == old(log) + [ReadTextureUpdate(old(vramDirtyRect))]
      ensures !old(vramDirtyRect).Intersects(src) ==> unchanged(this`texpageDirty, this`vramDirtyRect, this`written, this`log)
    {
      if vramDirtyRect.Intersects(src) {
        UpdateVRAMReadTexture();
      } else {
        UntouchedWhenClean(written, vramDirtyRect, src);
      }
    }

    /** Marks a copy's destination dirty, as the last write. */
    method IncludeCopyDestination(dst: Rect)
      requires Valid() && VramRect.Covers(dst)
      modifies this`vramDirtyRect, this`drawMode, this`written
      ensures Valid()
      ensures vramDirtyRect == old(vramDirtyRect).IncludeRect(dst) && written == old(written) + [dst]
      ensures drawMode == old(drawMode).(texturePageChanged := old(drawMode).texturePageChanged || PageTouched(old(drawMode), dst))
      ensures |written| > 0 && written[|written| - 1] == dst && written[..|written| - 1] == old(written)
    {
      IncludeVRAMDirtyRectangle(dst);
      assert written[..|written| - 1] == old(written);
    }

    /** The shader copy: the source is sampled from the read texture, the destination drawn with the mask pipelines. */
    method CopyVRAMWithShader(srcX: u32, srcY: u32, dstX: u32, dstY: u32, width: u32, height: u32)
      requires Valid()
      modifies this`texpageDirty, this`vramDirtyRect, this`drawMode, this`written, this`currentDepth, this`log,
               this`uboDirty, this`deviceUbo
      ensures Valid()
      ensures |written| > 0 && written[|written| - 1] == GetVRAMTransferBounds(dstX, dstY, width, height)
      ensures Untouched(written[..|written| - 1], GetVRAMTransferBounds(srcX, srcY, width, height))
      ensures currentDepth == old(currentDepth) + TransferDepthStep(status.checkMaskBeforeDraw, true, features.pgxpDepthBuffer)
      ensures uboDirty && deviceUbo == None
    {
      var src := GetVRAMTransferBounds(srcX, srcY, width, height);
      var dst := GetVRAMTransferBounds(dstX, dstY, width, height);
      RefreshReadTextureFor(src);
      IncludeCopyDestination(dst);
      DrawCopy(src, dst);
    }

    /** Draws a shader copy from `src` to `dst` (device pixels are the bounds scaled) and takes a new depth value when masking. */
    method DrawCopy(src: Rect, dst: Rect)
      requires Valid()
      modifies this`currentDepth, this`log, this`uboDirty, this`deviceUbo
      ensures Valid()
      ensures var masked := status.checkMaskBeforeDraw && !features.pgxpDepthBuffer;
        log == old(log) + [CopyVRAMDraw(src.Scaled(resolutionScale), dst.Scaled(resolutionScale), masked,
                                        old(currentDepth), status.setMaskWhileDrawing),
                           ScissorTo(ScissorRect(drawingArea, resolutionScale))] &&
        currentDepth == old(currentDepth) + TransferDepthStep(status.checkMaskBeforeDraw, true, features.pgxpDepthBuffer)
      ensures uboDirty && deviceUbo == None
    {
      var masked := status.checkMaskBeforeDraw && !features.pgxpDepthBuffer;
      DrawTransfer(CopyVRAMDraw(src.Scaled(resolutionScale), dst.Scaled(resolutionScale), masked, currentDepth,
                                status.setMaskWhileDrawing));
      if masked {
        currentDepth := currentDepth + 1;
      }
    }

    /**
     * The texture copy, for copies that neither mask nor wrap; the read
     * texture is the source when the device cannot copy a texture onto itself
     * or the areas overlap.
     */
    method CopyVRAMDirect(srcX: u32, srcY: u32, dstX: u32, dstY: u32, width: u32, height: u32)
      requires Valid()
      modifies this`texpageDirty, this`vramDirtyRect, this`drawMode, this`written, this`currentDepth, this`log
      ensures Valid()
      ensures |written| > 0 && written[|written| - 1] == FromExtents(dstX, dstY, width, height).Clamped(0, 0, VRAM_WIDTH, VRAM_HEIGHT)
      ensures !textureCopyToSelf || FromExtents(srcX, srcY, width, height).Intersects(FromExtents(dstX, dstY, width, height)) ==>
        Untouched(written[..|written| - 1], FromExtents(srcX, srcY, width, height))
      ensures currentDepth == old(currentDepth) + TransferDepthStep(status.checkMaskBeforeDraw, false, features.pgxpDepthBuffer)
      ensures |log| > 0 && log[|log| - 1] == CopyEvent(srcX, srcY, dstX, dstY, width, height)
    {
      var src := FromExtents(srcX, srcY, width, height);
      var dst := FromExtents(dstX, dstY, width, height);
      var fromRead := !textureCopyToSelf || src.Intersects(dst);
      if fromRead {
        RefreshReadTextureFor(src);
      }
      CopyRegion(src, dst, fromRead);
    }

    /**
     * The device copy of a direct VRAM copy: the areas scaled to device
     * texels, read from the read texture when the device cannot copy a
     * texture onto itself or the areas overlap.
     */
    function CopyEvent(srcX: u32, srcY: u32, dstX: u32, dstY: u32, width: u32, height: u32): DeviceEvent {
      var src := FromExtents(srcX, srcY, width, height);
      var dst := FromExtents(dstX, dstY, width, height);
      CopyVRAMRegion(src.Scaled(resolutionScale), dst.Scaled(resolutionScale), !textureCopyToSelf || src.Intersects(dst))
    }

    /**
     * Marks the destination, clamped to VRAM, dirty as the last write, then
     * copies device texels from `src` to `dst` (the areas scaled), taking a
     * new depth value when masking.
     */
    method CopyRegion(src: Rect, dst: Rect, fromReadTexture: bool)
      requires Valid()
      modifies this`vramDirtyRect, this`drawMode, this`written, this`currentDepth, this`log
      ensures Valid()
      ensures |written| > 0 && written[|written| - 1] == dst.Clamped(0, 0, VRAM_WIDTH, VRAM_HEIGHT)
      ensures written[..|written| - 1] == old(written)
      ensures log == old(log) + [CopyVRAMRegion(src.Scaled(resolutionScale), dst.Scaled(resolutionScale), fromReadTexture)]
      ensures currentDepth == old(currentDepth) + TransferDepthStep(status.checkMaskBeforeDraw, false, features.pgxpDepthBuffer)
    {
      IncludeCopyDestination(dst.Clamped(0, 0, VRAM_WIDTH, VRAM_HEIGHT));
      if status.checkMaskBeforeDraw {
        currentDepth := currentDepth + 1;
      }
      log := log + [CopyVRAMRegion(src.Scaled(resolutionScale), dst.Scaled(resolutionScale), fromReadTexture)];
    }
  }
}
