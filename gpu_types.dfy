/**
 * Constants and enumerations shared by the hardware and software renderers.
 * The enumerations keep the numeric order of the emulator's GPU type
 * definitions, since the hardware renderer indexes its shader and pipeline
 * tables by these values.
 */
module GpuTypes {

  const VRAM_WIDTH: nat := 1024
  const VRAM_HEIGHT: nat := 512
  const VRAM_WIDTH_MASK: nat := VRAM_WIDTH - 1
  const VRAM_HEIGHT_MASK: nat := VRAM_HEIGHT - 1
  const TEXTURE_PAGE_WIDTH: nat := 256
  const TEXTURE_PAGE_HEIGHT: nat := 256

  /** Primitives at least this wide or tall are culled by the console. */
  const MAX_PRIMITIVE_WIDTH: nat := 1024
  const MAX_PRIMITIVE_HEIGHT: nat := 512

  /** Number of distinct depth values a batch may use before the depth buffer is reset. */
  const MAX_BATCH_VERTEX_COUNTER_IDS: nat := 65536 - 2

  /**
   * Vertices a rectangle can need once split at texture-page boundaries: six
   * for each of up to ceil(1024 / 256) + 1 by ceil(512 / 256) + 1 sub-quads.
   */
  const MAX_VERTICES_FOR_RECTANGLE: nat := 90

  datatype Option<T> = None | Some(value: T)

  const U32_LIMIT: nat := 0x1_0000_0000

  type u8 = x: nat | x < 256
  type u16 = x: nat | x < 0x1_0000
  type u32 = x: nat | x < U32_LIMIT

  /** Semi-transparency modes; Disabled is the fifth value. */
  datatype TransparencyMode =
    | HalfBackgroundPlusHalfForeground
    | BackgroundPlusForeground
    | BackgroundMinusForeground
    | BackgroundPlusQuarterForeground
    | Disabled

  /** How a batch is drawn with respect to its transparent and opaque pixels. */
  datatype BatchRenderMode =
    | TransparencyDisabled
    | TransparentAndOpaque
    | OnlyOpaque
    | OnlyTransparent

  /**
   * Texture modes are numbered 0..8: the two-bit mode of the draw-mode
   * register, optionally with the raw-texture bit, and Disabled.
   */
  type TextureMode = m: nat | m < 9
  const TEXTURE_MODE_DISABLED: TextureMode := 8
  const RAW_TEXTURE_BIT: nat := 4

  /** Texture filters selectable in the settings. */
  datatype TextureFilter =
    | Nearest | Bilinear | BilinearBinAlpha | JINC2 | JINC2BinAlpha | XBR | XBRBinAlpha

  /** The filters whose output must be blended with the background. */
  predicate IsBlendedTextureFiltering(f: TextureFilter) {
    f == Bilinear || f == JINC2 || f == XBR
  }

  /** Truncation of an unbounded value to an unsigned 32-bit register. */
  function WrapU32(x: int): (r: u32)
    ensures 0 <= x < U32_LIMIT ==> r == x
  {
    x % U32_LIMIT
  }

  /** The index of a transparency mode in the renderer's tables. */
  function TransparencyIndex(t: TransparencyMode): (i: nat)
    ensures i < 5
  {
    match t
    case HalfBackgroundPlusHalfForeground => 0
    case BackgroundPlusForeground => 1
    case BackgroundMinusForeground => 2
    case BackgroundPlusQuarterForeground => 3
    case Disabled => 4
  }

  function TransparencyOfIndex(i: nat): (t: TransparencyMode)
    requires i < 5
    ensures TransparencyIndex(t) == i
  {
    if i == 0 then HalfBackgroundPlusHalfForeground
    else if i == 1 then BackgroundPlusForeground
    else if i == 2 then BackgroundMinusForeground
    else if i == 3 then BackgroundPlusQuarterForeground
    else Disabled
  }

  function RenderModeIndex(m: BatchRenderMode): (i: nat)
    ensures i < 4
  {
    match m
    case TransparencyDisabled => 0
    case TransparentAndOpaque => 1
    case OnlyOpaque => 2
    case OnlyTransparent => 3
  }

  function RenderModeOfIndex(i: nat): (m: BatchRenderMode)
    requires i < 4
    ensures RenderModeIndex(m) == i
  {
    if i == 0 then TransparencyDisabled
    else if i == 1 then TransparentAndOpaque
    else if i == 2 then OnlyOpaque
    else OnlyTransparent
  }

  // ----- Arithmetic shared by the modules -----

  lemma MulMonotone(a: nat, b: nat, s: nat)
    requires a <= b
    ensures a * s <= b * s
  {
  }

  lemma BoundedProduct(a: nat, b: nat, x: nat, y: nat)
    requires a <= x && b <= y
    ensures a * b <= x * y
  {
  }

  lemma SmallMod(a: nat, m: nat)
    requires a < m
    ensures a % m == a
  {
  }
}
