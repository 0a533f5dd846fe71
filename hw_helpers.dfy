/**
 * Integer helpers of the hardware renderer: ordering a pair, the VRAM area
 * touched by a transfer, packing of UV limits, the box-downsample scale, the
 * number of adaptive-downsample mip levels and the scissor rectangle.
 */
module HwHelpers {
  import opened GpuTypes
  import opened Rectangles

  /** The pair (v1, v2) in ascending order. */
  function MinMax(v1: int, v2: int): (r: (int, int))
    ensures r.0 <= r.1
    ensures r.0 == Min(v1, v2) && r.1 == Max(v1, v2)
  {
    if v1 > v2 then (v2, v1) else (v1, v2)
  }

  /**
   * The VRAM area affected by a transfer of width x height at (x, y). The
   * start wraps into VRAM; an area running past the right (bottom) edge is
   * widened to the whole width (height). The right and bottom edges are
   * 32-bit sums.
   */
  function GetVRAMTransferBounds(x: u32, y: u32, width: u32, height: u32): (r: Rect)
    ensures r.right <= VRAM_WIDTH && r.bottom <= VRAM_HEIGHT
    ensures r.left < VRAM_WIDTH && r.top < VRAM_HEIGHT
  {
    var l := x % VRAM_WIDTH;
    var t := y % VRAM_HEIGHT;
    var rt := WrapU32(l + width);
    var bt := WrapU32(t + height);
    var (l', rt') := if rt > VRAM_WIDTH then (0, VRAM_WIDTH) else (l, rt);
    var (t', bt') := if bt > VRAM_HEIGHT then (0, VRAM_HEIGHT) else (t, bt);
    Rect(l', t', rt', bt')
  }

  /**
   * Without 32-bit overflow the bounds keep the wrapped start and the extent
   * when the area fits, and otherwise span the whole of VRAM along that axis.
   */
  lemma TransferBoundsShape(x: u32, y: u32, width: u32, height: u32)
    requires width < U32_LIMIT - VRAM_WIDTH && height < U32_LIMIT - VRAM_HEIGHT
    ensures var r := GetVRAMTransferBounds(x, y, width, height);
      r.Valid() &&
      (x % VRAM_WIDTH + width <= VRAM_WIDTH ==> r.left == x % VRAM_WIDTH && r.Width() == width) &&
      (x % VRAM_WIDTH + width > VRAM_WIDTH ==> r.left == 0 && r.right == VRAM_WIDTH) &&
      (y % VRAM_HEIGHT + height <= VRAM_HEIGHT ==> r.top == y % VRAM_HEIGHT && r.Height() == height) &&
      (y % VRAM_HEIGHT + height > VRAM_HEIGHT ==> r.top == 0 && r.bottom == VRAM_HEIGHT)
  {
  }

  /**
   * Every VRAM cell a transfer writes (with X and Y wrapping around) lies in
   * the bounds.
   */
  lemma TransferBoundsCoverWrappedCells(x: u32, y: u32, width: u32, height: u32, col: nat, row: nat)
    requires width < U32_LIMIT - VRAM_WIDTH && height < U32_LIMIT - VRAM_HEIGHT
    requires col < width && row < height
    ensures GetVRAMTransferBounds(x, y, width, height).Contains((x + col) % VRAM_WIDTH, (y + row) % VRAM_HEIGHT)
  {
    TransferBoundsShape(x, y, width, height);
    if x % VRAM_WIDTH + width <= VRAM_WIDTH {
      WrappedColumn(x, col, width);
    }
    if y % VRAM_HEIGHT + height <= VRAM_HEIGHT {
      WrappedRow(y, row, height);
    }
  }

  lemma WrappedColumn(x: nat, c: nat, w: nat)
    requires c < w && x % VRAM_WIDTH + w <= VRAM_WIDTH
    ensures (x + c) % VRAM_WIDTH == x % VRAM_WIDTH + c
  {
  }

  lemma WrappedRow(y: nat, c: nat, h: nat)
    requires c < h && y % VRAM_HEIGHT + h <= VRAM_HEIGHT
    ensures (y + c) % VRAM_HEIGHT == y % VRAM_HEIGHT + c
  {
  }

  /** UV limits of a vertex packed into one word: min U, min V, max U, max V from the low byte up. */
  function PackUVLimits(minU: u8, maxU: u8, minV: u8, maxV: u8): (p: u32)
    ensures p % 256 == minU
  {
    minU + minV * 0x100 + maxU * 0x1_0000 + maxV * 0x100_0000
  }

  datatype UVLimits = UVLimits(minU: u8, maxU: u8, minV: u8, maxV: u8)

  /** The four bytes of a packed word, as the shaders read them. */
  function UnpackUVLimits(p: u32): (l: UVLimits)
    ensures l.minU == p % 256
  {
    UVLimits(p % 0x100, (p / 0x1_0000) % 0x100, (p / 0x100) % 0x100, p / 0x100_0000)
  }

  /** Packing bytes and reading them back gives the same bytes. */
  lemma {:induction false} PackUnpackRoundTrip(minU: u8, maxU: u8, minV: u8, maxV: u8)
    ensures UnpackUVLimits(PackUVLimits(minU, maxU, minV, maxV)) == UVLimits(minU, maxU, minV, maxV)
  {
    var p := PackUVLimits(minU, maxU, minV, maxV);
    var hi := maxU + maxV * 0x100;
    assert p == minU + minV * 0x100 + hi * 0x1_0000;
    DivModByte(minV + hi * 0x100, minU, p);
    assert p / 0x100 == minV + hi * 0x100;
    DivModByte(hi, minV, p / 0x100);
    assert (p / 0x100) / 0x100 == p / 0x1_0000;
    DivModByte(maxV, maxU, hi);
    assert p / 0x1_0000 == hi;
    assert hi / 0x100 == maxV;
    assert p / 0x100_0000 == (p / 0x1_0000) / 0x100;
  }

  lemma DivModByte(q: nat, r: nat, n: nat)
    requires r < 0x100 && n == r + q * 0x100
    ensures n / 0x100 == q && n % 0x100 == r
  {
  }

  /** Packing is injective: distinct limits give distinct words. */
  lemma PackUVLimitsInjective(a: UVLimits, b: UVLimits)
    requires PackUVLimits(a.minU, a.maxU, a.minV, a.maxV) == PackUVLimits(b.minU, b.maxU, b.minV, b.maxV)
    ensures a == b
  {
    PackUnpackRoundTrip(a.minU, a.maxU, a.minV, a.maxV);
    PackUnpackRoundTrip(b.minU, b.maxU, b.minV, b.maxV);
  }

  /** The largest divisor of n that is at most m. */
  function LargestDivisorAtMost(n: nat, m: nat): (d: nat)
    requires n >= 1 && m >= 1
    ensures 1 <= d <= m && n % d == 0
    ensures forall e :: d < e <= m ==> n % e != 0
  {
    if n % m == 0 then m else LargestDivisorAtMost(n, m - 1)
  }

  /**
   * The box-filter downsample scale: the largest divisor of the resolution
   * scale not above the configured downsample scale.
   */
  method GetBoxDownsampleScale(resolutionScale: u32, downsampleSetting: u32) returns (scale: u32)
    requires resolutionScale >= 1 && downsampleSetting >= 1
    ensures scale == LargestDivisorAtMost(resolutionScale, Min(resolutionScale, downsampleSetting))
    ensures 1 <= scale <= resolutionScale && scale <= downsampleSetting && resolutionScale % scale == 0
  {
    scale := if resolutionScale < downsampleSetting then resolutionScale else downsampleSetting;
    ghost var m := scale;
    while resolutionScale % scale != 0
      invariant 1 <= scale <= m
      invariant LargestDivisorAtMost(resolutionScale, scale) == LargestDivisorAtMost(resolutionScale, m)
      decreases scale
    {
      scale := scale - 1;
    }
  }

  /** Number of halvings of `w` that stay at or above the VRAM width. */
  function MipLevels(w: nat): nat
  {
    if w >= VRAM_WIDTH then 1 + MipLevels(w / 2) else 0
  }

  /** floor(log2(n)) for n >= 1. */
  function Log2Floor(n: nat): nat
    requires n >= 1
  {
    if n < 2 then 0 else 1 + Log2Floor(n / 2)
  }

  /** Mip levels of the adaptive downsample chain for a given resolution scale. */
  method GetAdaptiveDownsamplingMipLevels(resolutionScale: u32) returns (levels: nat)
    requires VRAM_WIDTH * resolutionScale < U32_LIMIT
    ensures levels == MipLevels(VRAM_WIDTH * resolutionScale)
    ensures resolutionScale >= 1 ==> levels == Log2Floor(resolutionScale) + 1
    ensures resolutionScale == 0 ==> levels == 0
  {
    levels := 0;
    var currentWidth: nat := VRAM_WIDTH * resolutionScale;
    while currentWidth >= VRAM_WIDTH
      invariant levels + MipLevels(currentWidth) == MipLevels(VRAM_WIDTH * resolutionScale)
      decreases currentWidth
    {
      levels := levels + 1;
      currentWidth := currentWidth / 2;
    }
    MipLevelsOfScale(resolutionScale, 0);
  }

  /** One mip level per doubling of the scale, plus the base level. */
  lemma {:induction false} MipLevelsOfScale(a: nat, b: nat)
    requires b < VRAM_WIDTH
    ensures MipLevels(VRAM_WIDTH * a + b) == if a == 0 then 0 else Log2Floor(a) + 1
    decreases a
  {
    if a != 0 {
      var w := VRAM_WIDTH * a + b;
      var b' := 512 * (a % 2) + b / 2;
      assert a == 2 * (a / 2) + a % 2;
      assert w == VRAM_WIDTH * (a / 2) * 2 + (512 * (a % 2)) * 2 + b;
      HalveSum(VRAM_WIDTH * (a / 2) + 512 * (a % 2), b);
      assert w / 2 == VRAM_WIDTH * (a / 2) + b';
      MipLevelsOfScale(a / 2, b');
    }
  }

  lemma HalveSum(k: nat, b: nat)
    ensures (2 * k + b) / 2 == k + b / 2
  {
  }

  /**
   * The device scissor for a drawing area with inclusive right and bottom
   * edges, scaled to the render resolution and at least one pixel in each
   * direction.
   */
  function ScissorRect(area: Rect, scale: nat): (r: Rect)
    ensures r.left == area.left * scale && r.top == area.top * scale
    ensures r.Width() >= 1 && r.Height() >= 1
    ensures scale >= 1 && area.Valid() ==> r == Rect(area.left, area.top, area.right + 1, area.bottom + 1).Scaled(scale)
  {
    var l := area.left * scale;
    var t := area.top * scale;
    Rect(l, t, Max((area.right + 1) * scale, l + 1), Max((area.bottom + 1) * scale, t + 1))
  }

  datatype DownsampleMode = DownsampleDisabled | Box | Adaptive

  /** Downsampling is off at native resolution and otherwise follows the setting. */
  function GetDownsampleMode(resolutionScale: nat, setting: DownsampleMode): (m: DownsampleMode)
    ensures m == DownsampleDisabled || m == setting
    ensures resolutionScale == 1 ==> m == DownsampleDisabled
  {
    if resolutionScale == 1 then DownsampleDisabled else setting
  }

  /**
   * The box filter's output rectangle: the source rectangle at render
   * resolution shrunk by the ratio of the resolution scale to the
   * box-downsample scale, each edge rounded down.
   */
  function BoxDownsampleRect(resolutionScale: nat, downsampleSetting: nat, left: nat, top: nat, width: nat, height: nat): (r: BoxDownsample)
    requires resolutionScale >= 1 && downsampleSetting >= 1
    ensures r.factor >= 1
    ensures r.factor * LargestDivisorAtMost(resolutionScale, Min(resolutionScale, downsampleSetting)) == resolutionScale
    ensures r.rect.left * r.factor <= left < r.rect.left * r.factor + r.factor
    ensures r.rect.top * r.factor <= top < r.rect.top * r.factor + r.factor
    ensures r.rect.Width() * r.factor <= width < r.rect.Width() * r.factor + r.factor
    ensures r.rect.Height() * r.factor <= height < r.rect.Height() * r.factor + r.factor
  {
    var box := LargestDivisorAtMost(resolutionScale, Min(resolutionScale, downsampleSetting));
    var factor := resolutionScale / box;
    DivisorFactor(resolutionScale, box);
    var ds := FromExtents(left / factor, top / factor, width / factor, height / factor);
    FloorDivBounds(left, factor);
    FloorDivBounds(top, factor);
    FloorDivBounds(width, factor);
    FloorDivBounds(height, factor);
    BoxDownsample(factor, ds)
  }

  datatype BoxDownsample = BoxDownsample(factor: nat, rect: Rect)

  lemma FloorDivBounds(a: nat, f: nat)
    requires f >= 1
    ensures (a / f) * f <= a < (a / f) * f + f
  {
  }

  lemma DivisorFactor(n: nat, d: nat)
    requires d >= 1 && n >= 1 && n % d == 0
    ensures n / d >= 1 && (n / d) * d == n
  {
  }
}
