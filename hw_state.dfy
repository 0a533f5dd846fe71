/**
 * Values the hardware renderer's batching state machine works on: batch
 * vertices, the batch configuration, the draw-mode registers it reads,
 * decoded render commands and the device calls it makes.
 */
module HwState {
  import opened GpuTypes
  import opened Rectangles
  import opened Pipelines
  import opened HwHelpers

  /**
   * Where a vertex sits. Polygon and rectangle vertices are at integer native
   * positions; a line's six vertices are extruded from its endpoints in
   * floating point, so only the endpoint and the corner index (0..3) are kept.
   */
  datatype Position =
    | Native(x: int, y: int)
    | LineCorner(x: int, y: int, corner: nat)

  /**
   * A vertex of the batch. `depth` is the depth counter the vertex was
   * emitted with (the normalized floating-point depth is a function of it).
   */
  datatype BatchVertex = BatchVertex(pos: Position, depth: nat, color: u32, texpage: u32,
                                     u: nat, v: nat, uvLimits: u32)

  /** The whole of VRAM. */
  const VramRect: Rect := Rect(0, 0, VRAM_WIDTH, VRAM_HEIGHT)

  /** The no-limits tag a polygon vertex starts with. */
  const NO_UV_LIMITS: u32 := 0xFFFF0000

  /** The state shared by every vertex of a batch. */
  datatype BatchConfig = BatchConfig(
    textureMode: TextureMode,
    transparency: TransparencyMode,
    dithering: bool,
    interlacing: bool,
    checkMaskBeforeDraw: bool,
    setMaskWhileDrawing: bool,
    useDepthBuffer: bool)

  /** The value-initialized batch configuration. */
  const DefaultBatch: BatchConfig := BatchConfig(0, HalfBackgroundPlusHalfForeground, false, false, false, false, false)

  /** The two-bit texture colour mode of the draw-mode register. */
  type PageTextureMode = m: nat | m < 4

  datatype TextureWindow = TextureWindow(andX: u8, orX: u8, andY: u8, orY: u8)

  /**
   * The draw-mode registers as decoded by the command processor. The page
   * and palette rectangles are derived from the registers by code that is
   * not part of this model, so they are carried as given.
   */
  datatype DrawMode = DrawMode(
    modeBits: u16,
    paletteReg: u16,
    textureModeBits: PageTextureMode,
    transparency: TransparencyMode,
    texturePageRect: Rect,
    usingPalette: bool,
    paletteRect: Rect,
    textureWindow: TextureWindow,
    texturePageChanged: bool,
    textureWindowChanged: bool)

  /** The word stored in every vertex: the mode register in the low half, the palette register in the high half. */
  function TexPageWord(d: DrawMode): (w: u32)
    ensures w % 0x1_0000 == d.modeBits && w / 0x1_0000 == d.paletteReg
  {
    d.modeBits + d.paletteReg * 0x1_0000
  }

  /** Uniforms of a batch. The alpha factors are kept in quarters (0.25 is 1, 1.0 is 4). */
  datatype UboData = UboData(
    srcAlphaQuarters: nat,
    dstAlphaQuarters: nat,
    setMaskWhileDrawing: u32,
    interlacedDisplayedField: u32,
    windowAnd: (nat, nat),
    windowOr: (nat, nat))

  const DefaultUbo: UboData := UboData(0, 0, 0, 0, (0, 0), (0, 0))

  /** Source and destination alpha factors of the four semi-transparency modes, in quarters. */
  function TransparentAlpha(t: TransparencyMode): (r: (nat, nat))
    requires t != Disabled
    ensures t == HalfBackgroundPlusHalfForeground ==> r == (2, 2)
    ensures t == BackgroundPlusQuarterForeground ==> r == (1, 4)
    ensures t == BackgroundPlusForeground || t == BackgroundMinusForeground ==> r == (4, 4)
  {
    match t
    case HalfBackgroundPlusHalfForeground => (2, 2)
    case BackgroundPlusForeground => (4, 4)
    case BackgroundMinusForeground => (4, 4)
    case BackgroundPlusQuarterForeground => (1, 4)
  }

  datatype WireframeMode = WireframeDisabled | OverlayWireframe | OnlyWireframe

  datatype Primitive = Polygon | Rectangle | Line
  datatype RectangleSize = VariableSize | R1x1 | R8x8 | R16x16

  /** The fields of a render command word the renderer reads. */
  datatype RenderCommand = RenderCommand(
    primitive: Primitive,
    quadPolygon: bool,
    polyline: bool,
    textureEnable: bool,
    rawTextureEnable: bool,
    transparencyEnable: bool,
    shadingEnable: bool,
    ditheringEnabled: bool,
    rectangleSize: RectangleSize,
    color: u32)

  /** Lines are never textured; polygons and rectangles are when their command says so. */
  predicate TexturingEnabled(rc: RenderCommand) {
    rc.primitive != Line && rc.textureEnable
  }

  datatype PolygonVertex = PolygonVertex(x: int, y: int, color: u32, texcoord: u16)
  datatype LineVertex = LineVertex(x: int, y: int, color: u32)

  /** The parameters of a command as popped from the FIFO (or the polyline buffer). */
  datatype Payload =
    | PolygonData(verts: seq<PolygonVertex>)
    | RectangleData(x: int, y: int, texcoord: u16, widthAndHeight: u32)
    | LineData(points: seq<LineVertex>)

  /** A command and its parameters agree in shape. */
  predicate WellFormed(rc: RenderCommand, p: Payload) {
    match rc.primitive
    case Polygon => p.PolygonData? && |p.verts| == (if rc.quadPolygon then 4 else 3)
    case Rectangle => p.RectangleData?
    case Line => p.LineData? && (if rc.polyline then |p.points| >= 2 else |p.points| == 2)
  }

  /** Vertices reserved for a command before its vertices are loaded. */
  function RequiredVertices(rc: RenderCommand, polyLineVertexCount: nat): (n: nat)
    ensures rc.primitive == Polygon ==> n == (if rc.quadPolygon then 6 else 3)
    ensures rc.primitive == Rectangle ==> n == MAX_VERTICES_FOR_RECTANGLE
    ensures rc.primitive == Line ==> n == (if rc.polyline then 6 * polyLineVertexCount else 6)
  {
    match rc.primitive
    case Polygon => if rc.quadPolygon then 6 else 3
    case Rectangle => MAX_VERTICES_FOR_RECTANGLE
    case Line => if rc.polyline then polyLineVertexCount * 6 else 6
  }

  /** The status-register bits the renderer reads. */
  datatype GpuStatus = GpuStatus(
    checkMaskBeforeDraw: bool,
    setMaskWhileDrawing: bool,
    ditherEnable: bool,
    interlacedRendering: bool,
    activeLineLSB: u32)

  /**
   * Device calls the renderer makes, in order. Regions are in device pixels,
   * that is VRAM coordinates multiplied by the resolution scale.
   */
  datatype DeviceEvent =
    | MapVertexBuffer(required: nat, space: nat)
    | UnmapVertexBuffer(vertices: seq<BatchVertex>)
    | UploadUniforms(ubo: UboData)
    | DrawBatch(pipeline: PipelineKey, count: nat)
    | DrawWireframe(count: nat)
    | CopyToReadTexture(region: Rect)
    | ResolveToReadTexture(region: Rect)
    | UpdateDepthFromMask
    | ClearDepth
    | ScissorTo(region: Rect)
    | ClearVRAM
    | FillVRAMDraw(bounds: Rect, oversized: bool, interlaced: bool)
    | ReadVRAMDownload(bounds: Rect, encodedWidth: nat, encodedHeight: nat)
    | UpdateVRAMDraw(bounds: Rect, maskedPipeline: bool, depth: nat, setMask: bool)
    | ReplacementBlit(region: Rect)
    | CopyVRAMDraw(srcBounds: Rect, dstBounds: Rect, maskedPipeline: bool, depth: nat, setMask: bool)
    | CopyVRAMRegion(src: Rect, dst: Rect, fromReadTexture: bool)

  /**
   * The span of a primitive from `lo` to `hi` clamped to the drawing area's
   * inclusive range [areaLo, areaHi], as an exclusive pair of edges.
   */
  function ClipSpan(lo: int, hi: int, areaLo: nat, areaHi: nat): (r: (nat, nat))
    requires areaLo <= areaHi
    ensures areaLo <= r.0 <= areaHi && r.1 <= areaHi + 1
    ensures lo <= hi ==> r.0 < r.1
    ensures areaLo <= lo <= hi <= areaHi ==> r == (lo, hi + 1)
  {
    (Clamp(lo, areaLo, areaHi), Clamp(hi, areaLo, areaHi) + 1)
  }

  /** The dirty area of a primitive whose bounding box is [minX, maxX] x [minY, maxY]. */
  function ClipRect(minX: int, maxX: int, minY: int, maxY: int, area: Rect): (r: Rect)
    requires area.Valid()
    ensures area.left <= r.left && r.right <= area.right + 1 && area.top <= r.top && r.bottom <= area.bottom + 1
    ensures minX <= maxX && minY <= maxY ==> r.left < r.right && r.top < r.bottom
  {
    var (l, rt) := ClipSpan(minX, maxX, area.left, area.right);
    var (t, b) := ClipSpan(minY, maxY, area.top, area.bottom);
    Rect(l, t, rt, b)
  }

  /** Primitives spanning the maximum width or height are not drawn. */
  predicate TooLarge(minX: int, maxX: int, minY: int, maxY: int) {
    maxX - minX >= MAX_PRIMITIVE_WIDTH || maxY - minY >= MAX_PRIMITIVE_HEIGHT
  }

  /** Sign extension of the low 11 bits, as the GPU wraps rectangle positions. */
  function TruncateVertexPosition(x: int): (r: int)
    ensures -1024 <= r < 1024
    ensures (r - x) % 2048 == 0
    ensures -1024 <= x < 1024 ==> r == x
  {
    var low := x % 2048;
    if low >= 1024 then low - 2048 else low
  }

  /**
   * The six vertices of a line from (x0, y0) to (x1, y1): corners 0, 1, 2, 3,
   * 2, 1. A line whose endpoints coincide is drawn as a point in the first
   * endpoint's colour.
   */
  function LineVertices(x0: int, y0: int, col0: u32, x1: int, y1: int, col1: u32, depth: nat): (vs: seq<BatchVertex>)
    ensures |vs| == 6
    ensures vs[4] == vs[2] && vs[5] == vs[1]
    ensures forall i :: 0 <= i < 6 ==> vs[i].pos.LineCorner? && vs[i].depth == depth && vs[i].pos.corner == [0, 1, 2, 3, 2, 1][i]
    ensures vs[0].color == col0 && vs[1].color == col0
    ensures vs[2].color == vs[3].color == (if x0 == x1 && y0 == y1 then col0 else col1)
  {
    var endColor := if x0 == x1 && y0 == y1 then col0 else col1;
    var c0 := BatchVertex(LineCorner(x0, y0, 0), depth, col0, 0, 0, 0, 0);
    var c1 := BatchVertex(LineCorner(x0, y0, 1), depth, col0, 0, 0, 0, 0);
    var c2 := BatchVertex(LineCorner(x1, y1, 2), depth, endColor, 0, 0, 0, 0);
    var c3 := BatchVertex(LineCorner(x1, y1, 3), depth, endColor, 0, 0, 0, 0);
    [c0, c1, c2, c3, c2, c1]
  }
}
