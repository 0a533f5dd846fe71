/**
 * What the hardware renderer emits for each primitive and what a flush of the
 * batch sends to the device, as functions of their inputs. The renderer class
 * is proved to follow these definitions; the lemmas here state what the
 * definitions guarantee.
 */
module HwBatch {
  import opened GpuTypes
  import opened Rectangles
  import opened Pipelines
  import opened HwHelpers
  import opened HwState
  import opened RectangleSplit

  // ----- Flushing a batch -----

  /** One draw per render pass, each through the pipeline the batch state selects. */
  function PassDraws(passes: seq<BatchRenderMode>, b: BatchConfig, count: nat): (es: seq<DeviceEvent>)
    ensures |es| == |passes|
    ensures forall i :: 0 <= i < |passes| ==>
      es[i] == DrawBatch(SelectedPipeline(passes[i], b.useDepthBuffer, b.checkMaskBeforeDraw, b.textureMode,
                                          b.transparency, b.dithering, b.interlacing), count)
  {
    if |passes| == 0 then []
    else [DrawBatch(SelectedPipeline(passes[0], b.useDepthBuffer, b.checkMaskBeforeDraw, b.textureMode,
                                     b.transparency, b.dithering, b.interlacing), count)] + PassDraws(passes[1..], b, count)
  }

  /** The draws of a non-empty batch of `count` vertices, in order. */
  function FlushDraws(f: Features, w: WireframeMode, b: BatchConfig, count: nat): seq<DeviceEvent> {
    (if w != OnlyWireframe then PassDraws(BatchRenderPasses(f, b.textureMode, b.transparency), b, count) else [])
    + (if w != WireframeDisabled then [DrawWireframe(count)] else [])
  }

  /** Every device call a flush of a mapped buffer holding `vertices` makes. */
  function FlushEvents(f: Features, w: WireframeMode, b: BatchConfig, vertices: seq<BatchVertex>,
                       uboDirty: bool, ubo: UboData): seq<DeviceEvent>
  {
    [UnmapVertexBuffer(vertices)]
    + (if |vertices| == 0 then []
       else (if uboDirty then [UploadUniforms(ubo)] else []) + FlushDraws(f, w, b, |vertices|))
  }

  /**
   * A flush draws every vertex of the batch through a pipeline that was
   * compiled, with the batch's texture mode, transparency, dithering and
   * interlacing, and with the depth test the batch asks for.
   */
  lemma FlushDrawsUseBatchPipelines(f: Features, w: WireframeMode, b: BatchConfig, count: nat, i: nat)
    requires i < |FlushDraws(f, w, b, count)|
    ensures var e := FlushDraws(f, w, b, count)[i];
      (e.DrawBatch? || e.DrawWireframe?) && e.count == count &&
      (e.DrawBatch? ==>
        PipelineGenerated(f, e.pipeline) &&
        e.pipeline.depthTest == DepthTestIndex(b.useDepthBuffer, b.checkMaskBeforeDraw) &&
        e.pipeline.textureMode == b.textureMode && e.pipeline.transparency == b.transparency &&
        e.pipeline.dithering == b.dithering && e.pipeline.interlacing == b.interlacing)
  {
    var passes := BatchRenderPasses(f, b.textureMode, b.transparency);
    var draws := if w != OnlyWireframe then PassDraws(passes, b, count) else [];
    if i < |draws| {
      SelectedPipelinesGenerated(f, b.useDepthBuffer, b.checkMaskBeforeDraw, b.textureMode, b.transparency,
                                 b.dithering, b.interlacing, i);
    }
  }

  /**
   * The number of batch draws: none in wireframe-only mode, otherwise two
   * exactly when the batch needs separate opaque and transparent passes;
   * a wireframe overlay adds one draw at the end.
   */
  lemma FlushDrawCount(f: Features, w: WireframeMode, b: BatchConfig, count: nat)
    ensures var ds := FlushDraws(f, w, b, count);
      |ds| == (if w == OnlyWireframe then 0 else if NeedsTwoPassRendering(f, b.textureMode, b.transparency) then 2 else 1)
              + (if w == WireframeDisabled then 0 else 1) &&
      (w != WireframeDisabled <==> ds[|ds| - 1].DrawWireframe?)
  {
    var ds := FlushDraws(f, w, b, count);
    if w == WireframeDisabled {
      var passes := BatchRenderPasses(f, b.textureMode, b.transparency);
      assert ds == PassDraws(passes, b, count);
      assert ds[|ds| - 1].DrawBatch?;
    }
  }

  // ----- Reserving vertex-buffer space -----

  /** The steps taken to reserve space: flush the batch, reset the depth counter, map the buffer. */
  datatype SpaceStep = FlushBatch | ResetDepth | MapBuffer(required: nat)

  /** The source's plan: the overflow branch calls the depth reset and then always maps. */
  function EnsureSpacePlanAsWritten(pgxpDepthBuffer: bool, depth: nat, required: nat, mapped: bool, free: nat): seq<SpaceStep> {
    if depth + required > MAX_BATCH_VERTEX_COUNTER_IDS then [ResetDepth, MapBuffer(required)]
    else if mapped then (if free >= required then [] else [FlushBatch, MapBuffer(required)])
    else [MapBuffer(required)]
  }

  /** The plan with the overflow branch taken only when a depth reset happens (no PGXP depth buffer). */
  function EnsureSpacePlan(pgxpDepthBuffer: bool, depth: nat, required: nat, mapped: bool, free: nat): seq<SpaceStep> {
    if depth + required > MAX_BATCH_VERTEX_COUNTER_IDS && !pgxpDepthBuffer then [ResetDepth, MapBuffer(required)]
    else if mapped then (if free >= required then [] else [FlushBatch, MapBuffer(required)])
    else [MapBuffer(required)]
  }

  /**
   * Whether running the steps from a buffer that is `mapped` ever maps it
   * again while it is still mapped. A depth reset flushes, and so unmaps,
   * unless the PGXP depth buffer is in use, where it returns at once.
   */
  predicate MapsWhileMapped(steps: seq<SpaceStep>, pgxpDepthBuffer: bool, mapped: bool)
    decreases |steps|
  {
    if |steps| == 0 then false
    else match steps[0]
      case FlushBatch => MapsWhileMapped(steps[1..], pgxpDepthBuffer, false)
      case ResetDepth => MapsWhileMapped(steps[1..], pgxpDepthBuffer, mapped && pgxpDepthBuffer)
      case MapBuffer(_) => mapped || MapsWhileMapped(steps[1..], pgxpDepthBuffer, true)
  }

  /**
   * As written, a command that overflows the depth range while the PGXP depth
   * buffer is in use and a batch is mapped maps the buffer a second time.
   */
  lemma AsWrittenMapsWhileMapped(depth: nat, required: nat, free: nat)
    requires depth + required > MAX_BATCH_VERTEX_COUNTER_IDS
    ensures MapsWhileMapped(EnsureSpacePlanAsWritten(true, depth, required, true, free), true, true)
  {
    var steps := EnsureSpacePlanAsWritten(true, depth, required, true, free);
    assert steps[1..] == [MapBuffer(required)];
  }

  /**
   * The source's plan is empty only when the buffer is mapped with room and
   * no depth reset is due, always ends by mapping otherwise, resets the depth
   * counter exactly when the command overflows it, and flushes only a mapped
   * buffer.
   */
  lemma EnsureSpacePlanAsWrittenSteps(pgxpDepthBuffer: bool, depth: nat, required: nat, mapped: bool, free: nat)
    ensures var p := EnsureSpacePlanAsWritten(pgxpDepthBuffer, depth, required, mapped, free);
      (p == [] <==> mapped && free >= required && depth + required <= MAX_BATCH_VERTEX_COUNTER_IDS) &&
      (p != [] ==> p[|p| - 1] == MapBuffer(required)) &&
      (ResetDepth in p <==> depth + required > MAX_BATCH_VERTEX_COUNTER_IDS) &&
      (FlushBatch in p ==> mapped)
  {
  }

  /**
   * The corrected plan never maps a mapped buffer, ends with a plain map or
   * with enough free space already, resets the depth counter only when the
   * PGXP depth buffer is off, flushes only a mapped buffer, and differs from
   * the source's plan only where the source's depth reset does nothing.
   */
  lemma EnsureSpacePlanSound(pgxpDepthBuffer: bool, depth: nat, required: nat, mapped: bool, free: nat)
    ensures var p := EnsureSpacePlan(pgxpDepthBuffer, depth, required, mapped, free);
      !MapsWhileMapped(p, pgxpDepthBuffer, mapped) &&
      (p == [] <==> mapped && free >= required && (depth + required <= MAX_BATCH_VERTEX_COUNTER_IDS || pgxpDepthBuffer)) &&
      (p != [] ==> p[|p| - 1] == MapBuffer(required)) &&
      (ResetDepth in p <==> depth + required > MAX_BATCH_VERTEX_COUNTER_IDS && !pgxpDepthBuffer) &&
      (FlushBatch in p ==> mapped) &&
      (!(pgxpDepthBuffer && depth + required > MAX_BATCH_VERTEX_COUNTER_IDS) ==>
         p == EnsureSpacePlanAsWritten(pgxpDepthBuffer, depth, required, mapped, free))
  {
    var p := EnsureSpacePlan(pgxpDepthBuffer, depth, required, mapped, free);
    if |p| == 2 {
      assert p[1..] == [MapBuffer(required)];
      assert !MapsWhileMapped(p[1..], pgxpDepthBuffer, false);
    }
  }

  // ----- Polygons -----

  /** The colour of vertex `i`: the command's colour, or the vertex's own 24-bit colour when shaded. */
  function VertexColor(rc: RenderCommand, i: nat, popped: u32): (c: u32)
    ensures !rc.shadingEnable || i == 0 ==> c == rc.color
    ensures c != rc.color ==> c < 0x100_0000
  {
    if rc.shadingEnable && i > 0 then popped % 0x100_0000 else rc.color
  }

  /** A polygon vertex as first set: native position, no UV limits yet. */
  function PolygonBatchVertex(rc: RenderCommand, i: nat, p: PolygonVertex, offsetX: int, offsetY: int,
                              depth: nat, texpage: u32): (v: BatchVertex)
    ensures v.pos == Native(offsetX + p.x, offsetY + p.y) && v.depth == depth && v.texpage == texpage
    ensures v.u < 256 && v.v < 256 && v.uvLimits == NO_UV_LIMITS
  {
    var tc := if rc.textureEnable then p.texcoord else 0;
    BatchVertex(Native(offsetX + p.x, offsetY + p.y), depth, VertexColor(rc, i, p.color), texpage, tc % 256, tc / 256,
                NO_UV_LIMITS)
  }

  /** A textured vertex's coordinates are the low and high byte of its texcoord word; an untextured one's are zero. */
  lemma PolygonTexcoords(rc: RenderCommand, i: nat, p: PolygonVertex, offsetX: int, offsetY: int, depth: nat, texpage: u32)
    ensures var v := PolygonBatchVertex(rc, i, p, offsetX, offsetY, depth, texpage);
      (rc.textureEnable ==> v.u + 256 * v.v == p.texcoord) && (!rc.textureEnable ==> v.u == 0 && v.v == 0)
  {
  }

  function PolygonBatchVertices(rc: RenderCommand, ps: seq<PolygonVertex>, offsetX: int, offsetY: int,
                                depth: nat, texpage: u32): (vs: seq<BatchVertex>)
    ensures |vs| == |ps|
    ensures forall i :: 0 <= i < |ps| ==> vs[i] == PolygonBatchVertex(rc, i, ps[i], offsetX, offsetY, depth, texpage)
    ensures ByteTexcoords(vs)
  {
    seq(|ps|, i requires 0 <= i < |ps| => PolygonBatchVertex(rc, i, ps[i], offsetX, offsetY, depth, texpage))
  }

  /** Texture coordinates that fit a byte, as every polygon vertex's do. */
  predicate ByteTexcoords(vs: seq<BatchVertex>) {
    forall i :: 0 <= i < |vs| ==> vs[i].u < 256 && vs[i].v < 256
  }

  /** The smallest horizontal texture coordinate, folded over the vertices in order. */
  function MinU(vs: seq<BatchVertex>): nat
    requires |vs| > 0
  {
    if |vs| == 1 then vs[0].u else Min(MinU(vs[..|vs| - 1]), vs[|vs| - 1].u)
  }

  function MaxU(vs: seq<BatchVertex>): nat
    requires |vs| > 0
  {
    if |vs| == 1 then vs[0].u else Max(MaxU(vs[..|vs| - 1]), vs[|vs| - 1].u)
  }

  function MinV(vs: seq<BatchVertex>): nat
    requires |vs| > 0
  {
    if |vs| == 1 then vs[0].v else Min(MinV(vs[..|vs| - 1]), vs[|vs| - 1].v)
  }

  function MaxV(vs: seq<BatchVertex>): nat
    requires |vs| > 0
  {
    if |vs| == 1 then vs[0].v else Max(MaxV(vs[..|vs| - 1]), vs[|vs| - 1].v)
  }

  /** The folds are the extrema: bounds of every coordinate, and each taken by some vertex. */
  lemma {:induction false} UVExtrema(vs: seq<BatchVertex>)
    requires |vs| > 0
    ensures forall i :: 0 <= i < |vs| ==> MinU(vs) <= vs[i].u <= MaxU(vs) && MinV(vs) <= vs[i].v <= MaxV(vs)
    ensures exists i :: 0 <= i < |vs| && MinU(vs) == vs[i].u
    ensures exists i :: 0 <= i < |vs| && MaxU(vs) == vs[i].u
    ensures exists i :: 0 <= i < |vs| && MinV(vs) == vs[i].v
    ensures exists i :: 0 <= i < |vs| && MaxV(vs) == vs[i].v
    decreases |vs|
  {
    if |vs| > 1 {
      var init := vs[..|vs| - 1];
      var last := |vs| - 1;
      UVExtrema(init);
      assert forall i :: 0 <= i < last ==> init[i] == vs[i];
      var a :| 0 <= a < |init| && MinU(init) == init[a].u;
      var b :| 0 <= b < |init| && MaxU(init) == init[b].u;
      var c :| 0 <= c < |init| && MinV(init) == init[c].v;
      var d :| 0 <= d < |init| && MaxV(init) == init[d].v;
      assert MinU(vs) == vs[a].u || MinU(vs) == vs[last].u;
      assert MaxU(vs) == vs[b].u || MaxU(vs) == vs[last].u;
      assert MinV(vs) == vs[c].v || MinV(vs) == vs[last].v;
      assert MaxV(vs) == vs[d].v || MaxV(vs) == vs[last].v;
    }
  }

  /** Byte texture coordinates have byte extrema. */
  lemma ByteExtrema(vs: seq<BatchVertex>)
    requires |vs| > 0 && ByteTexcoords(vs)
    ensures MinU(vs) <= MaxU(vs) < 256 && MinV(vs) <= MaxV(vs) < 256
  {
    UVExtrema(vs);
    var b :| 0 <= b < |vs| && MaxU(vs) == vs[b].u;
    var d :| 0 <= d < |vs| && MaxV(vs) == vs[d].v;
  }

  /** A maximum above the minimum is pulled in by one: the range's far edge is exclusive. */
  function LimitMax(lo: nat, hi: nat): nat
    requires lo <= hi
  {
    if lo != hi then hi - 1 else hi
  }

  /** The UV limits every vertex of a textured polygon carries. */
  function PolygonUVLimits(vs: seq<BatchVertex>): UVLimits
    requires |vs| > 0 && ByteTexcoords(vs)
  {
    ByteExtrema(vs);
    UVLimits(MinU(vs), LimitMax(MinU(vs), MaxU(vs)), MinV(vs), LimitMax(MinV(vs), MaxV(vs)))
  }

  /** The limits lie within the texture coordinates the vertices use, and are ordered. */
  lemma PolygonUVLimitsBounded(vs: seq<BatchVertex>)
    requires |vs| > 0 && ByteTexcoords(vs)
    ensures var l := PolygonUVLimits(vs);
      l.minU <= l.maxU < 256 && l.minV <= l.maxV < 256 &&
      (forall i :: 0 <= i < |vs| ==> l.minU <= vs[i].u <= l.maxU + 1 && l.minV <= vs[i].v <= l.maxV + 1) &&
      (exists i :: 0 <= i < |vs| && vs[i].u == l.minU) && (exists i :: 0 <= i < |vs| && vs[i].v == l.minV)
  {
    UVExtrema(vs);
    ByteExtrema(vs);
  }

  function WithUVLimits(vs: seq<BatchVertex>, packed: u32): (r: seq<BatchVertex>)
    ensures |r| == |vs|
    ensures forall i :: 0 <= i < |vs| ==> r[i] == vs[i].(uvLimits := packed)
  {
    seq(|vs|, i requires 0 <= i < |vs| => vs[i].(uvLimits := packed))
  }

  /** The bounding box of three native positions, computed the way the renderer does: first vertices 1 and 2, then 0. */
  function TriangleBounds(a: Position, b: Position, c: Position): (r: (int, int, int, int))
    requires a.Native? && b.Native? && c.Native?
    ensures r.0 <= a.x <= r.1 && r.0 <= b.x <= r.1 && r.0 <= c.x <= r.1
    ensures r.2 <= a.y <= r.3 && r.2 <= b.y <= r.3 && r.2 <= c.y <= r.3
  {
    var (minX12, maxX12) := MinMax(b.x, c.x);
    var (minY12, maxY12) := MinMax(b.y, c.y);
    (Min(minX12, a.x), Max(maxX12, a.x), Min(minY12, a.y), Max(maxY12, a.y))
  }

  /** The bounding box is tight: each edge is a coordinate of one of the three vertices. */
  lemma TriangleBoundsTight(a: Position, b: Position, c: Position)
    requires a.Native? && b.Native? && c.Native?
    ensures var r := TriangleBounds(a, b, c);
      (r.0 == a.x || r.0 == b.x || r.0 == c.x) && (r.1 == a.x || r.1 == b.x || r.1 == c.x) &&
      (r.2 == a.y || r.2 == b.y || r.2 == c.y) && (r.3 == a.y || r.3 == b.y || r.3 == c.y)
  {
  }

  predicate TriangleCulled(a: Position, b: Position, c: Position)
    requires a.Native? && b.Native? && c.Native?
  {
    var r := TriangleBounds(a, b, c);
    TooLarge(r.0, r.1, r.2, r.3)
  }

  /** Every vertex has a native (integer) position. */
  predicate AllNative(vs: seq<BatchVertex>) {
    forall i :: 0 <= i < |vs| ==> vs[i].pos.Native?
  }

  /** The vertices a polygon adds to the batch: triangle 0-1-2, then for a quad triangle 2-1-3, each unless culled. */
  function PolygonEmitted(vs: seq<BatchVertex>): (e: seq<BatchVertex>)
    requires |vs| == 3 || |vs| == 4
    requires AllNative(vs)
    ensures |e| == 0 || |e| == 3 || |e| == 6
    ensures |e| <= 6 && (|vs| == 3 ==> |e| <= 3)
    ensures forall i :: 0 <= i < |e| ==> e[i] in vs
  {
    (if TriangleCulled(vs[0].pos, vs[1].pos, vs[2].pos) then [] else [vs[0], vs[1], vs[2]])
    + (if |vs| == 4 && !TriangleCulled(vs[1].pos, vs[2].pos, vs[3].pos) then [vs[2], vs[1], vs[3]] else [])
  }

  /** The area triangle a-b-c writes: its bounding box clamped to the inclusive drawing area. */
  function TriangleClip(a: Position, b: Position, c: Position, area: Rect): (r: Rect)
    requires a.Native? && b.Native? && c.Native? && area.Valid()
    ensures area.left <= r.left < r.right <= area.right + 1 && area.top <= r.top < r.bottom <= area.bottom + 1
  {
    var bb := TriangleBounds(a, b, c);
    ClipRect(bb.0, bb.1, bb.2, bb.3, area)
  }

  /** The areas a polygon writes, one per triangle drawn, in the order they are added to the dirty area. */
  function PolygonWrites(vs: seq<BatchVertex>, area: Rect): (ws: seq<Rect>)
    requires |vs| == 3 || |vs| == 4
    requires AllNative(vs)
    requires area.Valid()
    ensures |ws| <= 2
  {
    var first := if TriangleCulled(vs[0].pos, vs[1].pos, vs[2].pos) then [] else [TriangleClip(vs[0].pos, vs[1].pos, vs[2].pos, area)];
    var second := if |vs| == 4 && !TriangleCulled(vs[1].pos, vs[2].pos, vs[3].pos) then [TriangleClip(vs[1].pos, vs[2].pos, vs[3].pos, area)] else [];
    first + second
  }

  // ----- Rectangles -----

  /** A sub-quad whose texels stay in one page, as every quad of a split rectangle's does. */
  predicate QuadInPage(q: SubQuad) {
    q.texLeft < q.texRight <= TEXTURE_PAGE_WIDTH && q.texTop < q.texBottom <= TEXTURE_PAGE_HEIGHT
  }

  /** The UV limits of a sub-quad: its first and last texel each way. */
  function QuadUVLimits(q: SubQuad): UVLimits
    requires QuadInPage(q)
  {
    UVLimits(q.texLeft, q.texRight - 1, q.texTop, q.texBottom - 1)
  }

  /** The two triangles of a sub-quad at (x, y): corners top-left, top-right, bottom-left, then bottom-left, top-right, bottom-right. */
  function QuadVertices(x: int, y: int, depth: nat, color: u32, texpage: u32, q: SubQuad): (vs: seq<BatchVertex>)
    requires QuadInPage(q)
    ensures |vs| == 6
    ensures forall i :: 0 <= i < 6 ==>
      (vs[i].depth == depth && vs[i].color == color && vs[i].texpage == texpage &&
       vs[i].uvLimits == PackUVLimits(q.texLeft, q.texRight - 1, q.texTop, q.texBottom - 1))
  {
    var l := QuadUVLimits(q);
    var packed := PackUVLimits(l.minU, l.maxU, l.minV, l.maxV);
    var sx := x + q.xOffset;
    var sy := y + q.yOffset;
    var ex := sx + q.width;
    var ey := sy + q.height;
    var tl := BatchVertex(Native(sx, sy), depth, color, texpage, q.texLeft, q.texTop, packed);
    var tr := BatchVertex(Native(ex, sy), depth, color, texpage, q.texRight, q.texTop, packed);
    var bl := BatchVertex(Native(sx, ey), depth, color, texpage, q.texLeft, q.texBottom, packed);
    var br := BatchVertex(Native(ex, ey), depth, color, texpage, q.texRight, q.texBottom, packed);
    [tl, tr, bl, bl, tr, br]
  }

  /** The vertices of a sequence of sub-quads, six per quad in order. */
  function QuadsVertices(x: int, y: int, depth: nat, color: u32, texpage: u32, qs: seq<SubQuad>): (vs: seq<BatchVertex>)
    requires forall i :: 0 <= i < |qs| ==> QuadInPage(qs[i])
    ensures |vs| == 6 * |qs|
  {
    if |qs| == 0 then [] else QuadsVertices(x, y, depth, color, texpage, qs[..|qs| - 1])
                              + QuadVertices(x, y, depth, color, texpage, qs[|qs| - 1])
  }

  /** Adding one sub-quad adds its six vertices at the end. */
  lemma QuadsVerticesSnoc(x: int, y: int, depth: nat, color: u32, texpage: u32, qs: seq<SubQuad>, q: SubQuad)
    requires forall i :: 0 <= i < |qs| ==> QuadInPage(qs[i])
    requires QuadInPage(q)
    ensures forall i :: 0 <= i < |qs + [q]| ==> QuadInPage((qs + [q])[i])
    ensures QuadsVertices(x, y, depth, color, texpage, qs + [q]) ==
            QuadsVertices(x, y, depth, color, texpage, qs) + QuadVertices(x, y, depth, color, texpage, q)
  {
    assert (qs + [q])[..|qs|] == qs;
  }

  /** Every sub-quad of a split rectangle keeps its texels inside one page. */
  lemma RectangleQuadsInPage(texLeft: u8, texTop: u8, width: nat, height: nat)
    ensures forall i :: 0 <= i < |RectangleQuads(texLeft, texTop, width, height)| ==>
      QuadInPage(RectangleQuads(texLeft, texTop, width, height)[i])
  {
    forall i | 0 <= i < |RectangleQuads(texLeft, texTop, width, height)|
      ensures QuadInPage(RectangleQuads(texLeft, texTop, width, height)[i])
    {
      QuadsStayInPage(texLeft, texTop, width, height, i);
    }
  }

  /** The vertices of a width x height rectangle at (x, y): six per sub-quad, row by row. */
  function RectangleVertices(x: int, y: int, depth: nat, color: u32, texpage: u32,
                             texLeft: u8, texTop: u8, width: nat, height: nat): (vs: seq<BatchVertex>)
    ensures |vs| == 6 * |RectangleQuads(texLeft, texTop, width, height)|
  {
    RectangleQuadsInPage(texLeft, texTop, width, height);
    QuadsVertices(x, y, depth, color, texpage, RectangleQuads(texLeft, texTop, width, height))
  }

  /** The size of a rectangle command: fixed, or the low bits of its size word. */
  function RectangleExtent(size: RectangleSize, widthAndHeight: u32): (r: (nat, nat))
    ensures r.0 < VRAM_WIDTH && r.1 < VRAM_HEIGHT
    ensures size == R1x1 ==> r == (1, 1)
    ensures size == R8x8 ==> r == (8, 8)
    ensures size == R16x16 ==> r == (16, 16)
    ensures size == VariableSize ==> r.0 == widthAndHeight % 0x1_0000 % VRAM_WIDTH && r.1 == widthAndHeight / 0x1_0000 % VRAM_HEIGHT
  {
    match size
    case R1x1 => (1, 1)
    case R8x8 => (8, 8)
    case R16x16 => (16, 16)
    case VariableSize => (widthAndHeight % VRAM_WIDTH, (widthAndHeight / 0x1_0000) % VRAM_HEIGHT)
  }

  /** Only a variable-size rectangle can be culled: at 1024 wide or 512 tall. */
  lemma RectangleCullOnlyVariable(size: RectangleSize, widthAndHeight: u32)
    ensures var (w, h) := RectangleExtent(size, widthAndHeight);
      !(w >= MAX_PRIMITIVE_WIDTH || h >= MAX_PRIMITIVE_HEIGHT)
  {
  }

  /** Where a rectangle command draws and which texel its top-left corner takes. */
  datatype RectangleShape = RectangleShape(x: int, y: int, texLeft: u8, texTop: u8, width: nat, height: nat)

  /**
   * The shape of a rectangle command at vertex (x, y) with drawing offset
   * (offsetX, offsetY): the position wraps to 11 signed bits, an untextured
   * rectangle starts at texel (0, 0), and the size follows the command.
   */
  function RectangleShapeOf(rc: RenderCommand, offsetX: int, offsetY: int, x: int, y: int, texcoord: u16,
                            widthAndHeight: u32): (r: RectangleShape)
    ensures -1024 <= r.x < 1024 && -1024 <= r.y < 1024
    ensures (r.x - (offsetX + x)) % 2048 == 0 && (r.y - (offsetY + y)) % 2048 == 0
    ensures rc.textureEnable ==> r.texLeft + 256 * r.texTop == texcoord
    ensures !rc.textureEnable ==> r.texLeft == 0 && r.texTop == 0
    ensures (r.width, r.height) == RectangleExtent(rc.rectangleSize, widthAndHeight)
    ensures r.width < MAX_PRIMITIVE_WIDTH && r.height < MAX_PRIMITIVE_HEIGHT
  {
    var tc := if rc.textureEnable then texcoord else 0;
    var (w, h) := RectangleExtent(rc.rectangleSize, widthAndHeight);
    RectangleShape(TruncateVertexPosition(offsetX + x), TruncateVertexPosition(offsetY + y), tc % 256, tc / 256, w, h)
  }

  /** Every sub-quad of `qs` keeps its texels inside one page. */
  predicate QuadsInPage(qs: seq<SubQuad>) {
    forall i :: 0 <= i < |qs| ==> QuadInPage(qs[i])
  }

  /** The quads of a row whose spans each stay in one page stay in one page. */
  lemma RowQuadsInPage(cols: seq<Span>, row: Span)
    requires SpansInPage(cols) && row.length >= 1 && row.TexEnd() <= TEXTURE_PAGE_HEIGHT
    ensures QuadsInPage(RowQuads(cols, row))
  {
  }

  /** The vertices of two runs of sub-quads are the vertices of each run, in order. */
  lemma {:induction false} QuadsVerticesAppend(x: int, y: int, depth: nat, color: u32, texpage: u32,
                                               qs: seq<SubQuad>, rs: seq<SubQuad>)
    requires QuadsInPage(qs) && QuadsInPage(rs)
    ensures QuadsInPage(qs + rs)
    ensures QuadsVertices(x, y, depth, color, texpage, qs + rs) ==
            QuadsVertices(x, y, depth, color, texpage, qs) + QuadsVertices(x, y, depth, color, texpage, rs)
    decreases |rs|
  {
    assert forall i :: 0 <= i < |qs + rs| ==> (qs + rs)[i] == (if i < |qs| then qs[i] else rs[i - |qs|]);
    if |rs| == 0 {
      assert qs + rs == qs;
    } else {
      var init := rs[..|rs| - 1];
      var last := rs[|rs| - 1];
      assert rs == init + [last];
      assert QuadsInPage(init);
      QuadsVerticesAppend(x, y, depth, color, texpage, qs, init);
      assert qs + rs == (qs + init) + [last];
      QuadsVerticesSnoc(x, y, depth, color, texpage, qs + init, last);
      QuadsVerticesSnoc(x, y, depth, color, texpage, init, last);
    }
  }

  /** The vertices of the first i + 1 sub-quads are those of the first i, then the six of sub-quad i. */
  lemma QuadsPrefixStep(x: int, y: int, depth: nat, color: u32, texpage: u32, qs: seq<SubQuad>, i: nat,
                        s0: seq<BatchVertex>)
    requires i < |qs| && QuadsInPage(qs)
    ensures QuadsInPage(qs[..i]) && QuadsInPage(qs[..i + 1]) && QuadInPage(qs[i]) && qs[..i + 1] == qs[..i] + [qs[i]]
    ensures s0 + QuadsVertices(x, y, depth, color, texpage, qs[..i + 1]) ==
            s0 + QuadsVertices(x, y, depth, color, texpage, qs[..i]) + QuadVertices(x, y, depth, color, texpage, qs[i])
  {
    assert qs[..i + 1] == qs[..i] + [qs[i]];
    QuadsVerticesSnoc(x, y, depth, color, texpage, qs[..i], qs[i]);
  }

  // ----- Lines -----

  /** The colour of point `i` of a line or polyline. */
  function PointColor(rc: RenderCommand, pts: seq<LineVertex>, i: nat): u32
    requires i < |pts|
  {
    VertexColor(rc, i, pts[i].color)
  }

  predicate SegmentCulled(pts: seq<LineVertex>, i: nat, offsetX: int, offsetY: int)
    requires 1 <= i < |pts|
  {
    var (minX, maxX) := MinMax(offsetX + pts[i - 1].x, offsetX + pts[i].x);
    var (minY, maxY) := MinMax(offsetY + pts[i - 1].y, offsetY + pts[i].y);
    TooLarge(minX, maxX, minY, maxY)
  }

  /** The vertices segment i-1..i adds: six, or none when too large. */
  function SegmentVertices(rc: RenderCommand, pts: seq<LineVertex>, i: nat, offsetX: int, offsetY: int, depth: nat): (vs: seq<BatchVertex>)
    requires 1 <= i < |pts|
    ensures |vs| == (if SegmentCulled(pts, i, offsetX, offsetY) then 0 else 6)
  {
    if SegmentCulled(pts, i, offsetX, offsetY) then []
    else LineVertices(offsetX + pts[i - 1].x, offsetY + pts[i - 1].y, PointColor(rc, pts, i - 1),
                      offsetX + pts[i].x, offsetY + pts[i].y, PointColor(rc, pts, i), depth)
  }

  /** The vertices of the first n-1 segments of a polyline. */
  function PolylineVertices(rc: RenderCommand, pts: seq<LineVertex>, n: nat, offsetX: int, offsetY: int, depth: nat): (vs: seq<BatchVertex>)
    requires n <= |pts|
  {
    if n <= 1 then [] else PolylineVertices(rc, pts, n - 1, offsetX, offsetY, depth) + SegmentVertices(rc, pts, n - 1, offsetX, offsetY, depth)
  }

  /** A polyline of n points needs at most six vertices per segment, and so fits the space reserved for it. */
  lemma {:induction false} PolylineVertexCount(rc: RenderCommand, pts: seq<LineVertex>, n: nat, offsetX: int, offsetY: int, depth: nat)
    requires 1 <= n <= |pts|
    ensures |PolylineVertices(rc, pts, n, offsetX, offsetY, depth)| <= 6 * (n - 1)
  {
    if n > 1 {
      PolylineVertexCount(rc, pts, n - 1, offsetX, offsetY, depth);
      PolylineVerticesStep(rc, pts, n, offsetX, offsetY, depth);
    }
  }

  lemma PolylineVerticesStep(rc: RenderCommand, pts: seq<LineVertex>, n: nat, offsetX: int, offsetY: int, depth: nat)
    requires 1 < n <= |pts|
    ensures PolylineVertices(rc, pts, n, offsetX, offsetY, depth) ==
            PolylineVertices(rc, pts, n - 1, offsetX, offsetY, depth) + SegmentVertices(rc, pts, n - 1, offsetX, offsetY, depth)
    ensures |SegmentVertices(rc, pts, n - 1, offsetX, offsetY, depth)| <= 6
  {
  }

  /** The clipped bounding box of segment i-1..i. */
  function SegmentClip(pts: seq<LineVertex>, i: nat, offsetX: int, offsetY: int, area: Rect): Rect
    requires 1 <= i < |pts| && area.Valid()
  {
    var (minX, maxX) := MinMax(offsetX + pts[i - 1].x, offsetX + pts[i].x);
    var (minY, maxY) := MinMax(offsetY + pts[i - 1].y, offsetY + pts[i].y);
    ClipRect(minX, maxX, minY, maxY, area)
  }

  /** A segment's clipped box is never empty and lies inside the drawing area. */
  lemma SegmentClipInArea(pts: seq<LineVertex>, i: nat, offsetX: int, offsetY: int, area: Rect)
    requires 1 <= i < |pts| && area.Valid()
    ensures var r := SegmentClip(pts, i, offsetX, offsetY, area);
      area.left <= r.left < r.right <= area.right + 1 && area.top <= r.top < r.bottom <= area.bottom + 1
  {
  }

  /** The dirty area after segment i-1..i. */
  function IncludeSegment(dirty: Rect, pts: seq<LineVertex>, i: nat, offsetX: int, offsetY: int, area: Rect): (r: Rect)
    requires 1 <= i < |pts| && area.Valid()
    ensures r.Covers(dirty)
    ensures !SegmentCulled(pts, i, offsetX, offsetY) ==> r.Covers(SegmentClip(pts, i, offsetX, offsetY, area))
    ensures dirty.Valid() ==> r.Valid()
  {
    if SegmentCulled(pts, i, offsetX, offsetY) then dirty
    else dirty.IncludeRect(SegmentClip(pts, i, offsetX, offsetY, area))
  }

  /** The areas the first n-1 segments of a polyline write, one per segment drawn. */
  function PolylineWrites(pts: seq<LineVertex>, n: nat, offsetX: int, offsetY: int, area: Rect): (ws: seq<Rect>)
    requires n <= |pts| && area.Valid()
  {
    if n <= 1 then []
    else PolylineWrites(pts, n - 1, offsetX, offsetY, area)
         + (if SegmentCulled(pts, n - 1, offsetX, offsetY) then [] else [SegmentClip(pts, n - 1, offsetX, offsetY, area)])
  }

  function PolylineDirty(dirty: Rect, pts: seq<LineVertex>, n: nat, offsetX: int, offsetY: int, area: Rect): (r: Rect)
    requires n <= |pts| && area.Valid()
    ensures r.Covers(dirty)
    ensures dirty.Valid() ==> r.Valid()
  {
    if n <= 1 then dirty else IncludeSegment(PolylineDirty(dirty, pts, n - 1, offsetX, offsetY, area), pts, n - 1, offsetX, offsetY, area)
  }

  /** Every segment drawn lies, clipped to the drawing area, inside the dirty area left behind. */
  lemma {:induction false} PolylineDirtyCoversSegments(dirty: Rect, pts: seq<LineVertex>, n: nat, offsetX: int, offsetY: int,
                                                       area: Rect, i: nat)
    requires n <= |pts| && area.Valid() && 1 <= i < n
    requires !SegmentCulled(pts, i, offsetX, offsetY)
    ensures PolylineDirty(dirty, pts, n, offsetX, offsetY, area).Covers(SegmentClip(pts, i, offsetX, offsetY, area))
  {
    if i < n - 1 {
      PolylineDirtyCoversSegments(dirty, pts, n - 1, offsetX, offsetY, area, i);
    }
  }

  // ----- Clearing the framebuffer -----

  /**
   * The dirty-area tracking after a reset, as written: clearing VRAM empties
   * the dirty area, although the read texture keeps the old contents, and
   * keeps the flag saying the sampled texture page lies in the dirty area.
   * Result: (texture page dirty, dirty area).
   */
  function ResetDirtyTrackingAsWritten(clearVram: bool, texpageDirty: bool, dirty: Rect): (bool, Rect) {
    (texpageDirty, if clearVram then Invalid else dirty)
  }

  /** The tracking with the whole of VRAM marked dirty by a clear, as loading a saved state does. */
  function ResetDirtyTracking(clearVram: bool, texpageDirty: bool, dirty: Rect): (bool, Rect) {
    (texpageDirty, if clearVram then VramRect else dirty)
  }

  /** A dirty texture page comes with a dirty area to compare against. */
  predicate DirtyTrackingConsistent(texpageDirty: bool, dirty: Rect) {
    texpageDirty ==> dirty.Valid()
  }

  /**
   * As written, a reset that clears VRAM while a page is dirty leaves the
   * tracking inconsistent, and no part of the cleared VRAM is marked dirty.
   */
  lemma AsWrittenResetBreaksTracking(dirty: Rect)
    requires dirty.Valid()
    ensures var (td, d) := ResetDirtyTrackingAsWritten(true, true, dirty);
      DirtyTrackingConsistent(true, dirty) && !DirtyTrackingConsistent(td, d) &&
      VramRect.Contains(0, 0) && !d.Contains(0, 0)
  {
  }

  /**
   * The corrected reset keeps the tracking consistent, marks all of the
   * cleared VRAM dirty, and agrees with the source's whenever VRAM is kept.
   */
  lemma ResetKeepsTracking(clearVram: bool, texpageDirty: bool, dirty: Rect)
    requires DirtyTrackingConsistent(texpageDirty, dirty)
    ensures var (td, d) := ResetDirtyTracking(clearVram, texpageDirty, dirty);
      DirtyTrackingConsistent(td, d) && (clearVram ==> d.Covers(VramRect)) &&
      (!clearVram ==> (td, d) == ResetDirtyTrackingAsWritten(clearVram, texpageDirty, dirty))
  {
  }

  // ----- VRAM transfers -----

  /**
   * A VRAM copy goes through a shader when masking is on or when the source
   * or destination window wraps around an edge of VRAM.
   */
  predicate CopyVRAMUsesShader(maskingEnabled: bool, srcX: u32, srcY: u32, dstX: u32, dstY: u32, width: u32, height: u32)
    ensures maskingEnabled ==> CopyVRAMUsesShader(maskingEnabled, srcX, srcY, dstX, dstY, width, height)
    ensures width > VRAM_WIDTH || height > VRAM_HEIGHT ==>
      CopyVRAMUsesShader(maskingEnabled, srcX, srcY, dstX, dstY, width, height)
    ensures !maskingEnabled && srcX + width <= VRAM_WIDTH && dstX + width <= VRAM_WIDTH &&
            srcY + height <= VRAM_HEIGHT && dstY + height <= VRAM_HEIGHT ==>
      !CopyVRAMUsesShader(maskingEnabled, srcX, srcY, dstX, dstY, width, height)
  {
    maskingEnabled || (srcX % VRAM_WIDTH) + width > VRAM_WIDTH || (srcY % VRAM_HEIGHT) + height > VRAM_HEIGHT
      || (dstX % VRAM_WIDTH) + width > VRAM_WIDTH || (dstY % VRAM_HEIGHT) + height > VRAM_HEIGHT
  }

  /**
   * A copy taken by a plain texture copy does not wrap: its source and
   * destination windows are exactly their transfer bounds.
   */
  lemma DirectCopyDoesNotWrap(maskingEnabled: bool, srcX: u32, srcY: u32, dstX: u32, dstY: u32, width: u32, height: u32)
    requires !CopyVRAMUsesShader(maskingEnabled, srcX, srcY, dstX, dstY, width, height)
    ensures GetVRAMTransferBounds(srcX, srcY, width, height) == FromExtents(srcX % VRAM_WIDTH, srcY % VRAM_HEIGHT, width, height)
    ensures GetVRAMTransferBounds(dstX, dstY, width, height) == FromExtents(dstX % VRAM_WIDTH, dstY % VRAM_HEIGHT, width, height)
    ensures !maskingEnabled
  {
  }

  /**
   * A texture copy whose destination starts inside VRAM marks dirty exactly
   * the destination's transfer bounds.
   */
  lemma DirectCopyDestination(maskingEnabled: bool, srcX: u32, srcY: u32, dstX: u32, dstY: u32, width: u32, height: u32)
    requires !CopyVRAMUsesShader(maskingEnabled, srcX, srcY, dstX, dstY, width, height)
    requires dstX < VRAM_WIDTH && dstY < VRAM_HEIGHT
    ensures FromExtents(dstX, dstY, width, height).Clamped(0, 0, VRAM_WIDTH, VRAM_HEIGHT)
            == GetVRAMTransferBounds(dstX, dstY, width, height)
  {
    DirectCopyDoesNotWrap(maskingEnabled, srcX, srcY, dstX, dstY, width, height);
    SmallMod(dstX, VRAM_WIDTH);
    SmallMod(dstY, VRAM_HEIGHT);
    assert Rect(0, 0, VRAM_WIDTH, VRAM_HEIGHT).Covers(FromExtents(dstX, dstY, width, height));
  }

  /**
   * How far a VRAM transfer moves the depth counter: a write or copy that
   * checks the mask bit takes a new depth value so later primitives test
   * against it; a shader copy does not when the PGXP depth buffer is in use.
   */
  function TransferDepthStep(checkMask: bool, shaderCopy: bool, pgxpDepthBuffer: bool): (n: nat)
    ensures n <= 1
    ensures n == 1 <==> checkMask && !(shaderCopy && pgxpDepthBuffer)
  {
    if checkMask && !(shaderCopy && pgxpDepthBuffer) then 1 else 0
  }

  /** The area a fill marks dirty, as written: its extent clamped to VRAM, without wrap-around. */
  function FillDirtyAsWritten(x: u32, y: u32, width: u32, height: u32): Rect {
    FromExtents(x, y, width, height).Clamped(0, 0, VRAM_WIDTH, VRAM_HEIGHT)
  }

  /** The area a fill draws into (its viewport), which the corrected fill marks dirty. */
  function FillDirty(x: u32, y: u32, width: u32, height: u32): (r: Rect)
    ensures VramRect.Covers(r)
  {
    GetVRAMTransferBounds(x, y, width, height)
  }

  /**
   * As written, a fill that runs past the right edge of VRAM writes columns
   * from 0 on that are not marked dirty: a 32-wide fill at column 1008
   * writes column 0 (its 17th column) but marks only columns 1008..1023.
   */
  lemma AsWrittenFillMissesWrappedColumns()
    ensures (1008 + 16) % VRAM_WIDTH == 0
    ensures FillDirty(1008, 0, 32, 16).Contains(0, 0)
    ensures FillDirtyAsWritten(1008, 0, 32, 16) == Rect(1008, 0, 1024, 16)
    ensures !FillDirtyAsWritten(1008, 0, 32, 16).Contains(0, 0)
  {
  }

  /**
   * The corrected dirty area holds every cell the fill writes, wrapping
   * around both edges, and the source's area whenever the fill starts
   * inside VRAM.
   */
  lemma FillDirtyCoversFill(x: u32, y: u32, width: u32, height: u32, col: nat, row: nat)
    requires width < U32_LIMIT - VRAM_WIDTH && height < U32_LIMIT - VRAM_HEIGHT
    requires col < width && row < height
    ensures FillDirty(x, y, width, height).Contains((x + col) % VRAM_WIDTH, (y + row) % VRAM_HEIGHT)
    ensures x < VRAM_WIDTH && y < VRAM_HEIGHT ==> FillDirty(x, y, width, height).Covers(FillDirtyAsWritten(x, y, width, height))
  {
    TransferBoundsCoverWrappedCells(x, y, width, height, col, row);
    TransferBoundsShape(x, y, width, height);
  }
}
