/**
 * The VRAM area a primitive samples, as the hardware renderer estimates it
 * before deciding whether its read-back texture is stale. A texture page
 * starts at column 64 * (texpage & 15) and row 256 * ((texpage >> 4) & 1) of
 * VRAM; bits 7-8 of the draw-mode register select 4-bit, 8-bit or 15-bit
 * texels, so that one VRAM halfword holds four, two or one texel(s).
 */
module TexPageOverlap {
  import opened GpuTypes
  import opened Rectangles

  function Pow2(n: nat): (p: nat)
    ensures p >= 1
  {
    if n == 0 then 1 else 2 * Pow2(n - 1)
  }

  /** The bitwise and of the low `n` bits of `a` and `b`. */
  function AndBits(a: nat, b: nat, n: nat): (r: nat)
    ensures r < Pow2(n)
  {
    if n == 0 then 0 else 2 * AndBits(a / 2, b / 2, n - 1) + (if a % 2 == 1 && b % 2 == 1 then 1 else 0)
  }

  /** The bitwise or of the low `n` bits of `a` and `b`. */
  function OrBits(a: nat, b: nat, n: nat): (r: nat)
    ensures r < Pow2(n)
  {
    if n == 0 then 0 else 2 * OrBits(a / 2, b / 2, n - 1) + (if a % 2 == 1 || b % 2 == 1 then 1 else 0)
  }

  /** The texture-window transform of a texture coordinate, on its low byte: (u & and) | or. */
  function Windowed(u: u32, andMask: u8, orMask: u8): (r: nat)
    ensures r < 256
  {
    assert Pow2(8) == 256;
    OrBits(AndBits(u % 256, andMask, 8), orMask, 8)
  }

  /** And with all ones keeps a value of `n` bits. */
  lemma {:induction false} AndOnes(a: nat, ones: nat, n: nat)
    requires ones == Pow2(n) - 1 && a < Pow2(n)
    ensures AndBits(a, ones, n) == a
  {
    if n > 0 {
      AndOnes(a / 2, ones / 2, n - 1);
    }
  }

  /** Or with zero keeps a value of `n` bits. */
  lemma {:induction false} OrZero(a: nat, n: nat)
    requires a < Pow2(n)
    ensures OrBits(a, 0, n) == a
  {
    if n > 0 {
      OrZero(a / 2, n - 1);
    }
  }

  /** The full window (and-mask 0xFF, or-mask 0) leaves a byte coordinate as it is. */
  lemma WindowedFull(u: u32)
    requires u < 256
    ensures Windowed(u, 0xFF, 0) == u
  {
    assert Pow2(8) == 256 && u % 256 == u;
    AndOnes(u, 0xFF, 8);
    OrZero(u, 8);
  }

  /** The colour-depth field of a texpage word (bits 7 and 8). */
  function TextureDepth(texpage: u32): (d: nat)
    ensures d < 4
  {
    (texpage / 128) % 4
  }

  /** VRAM halfwords are shared by this many texels in each colour depth. */
  function TexelsPerHalfword(depth: nat): (n: nat)
    ensures n == 1 || n == 2 || n == 4
  {
    if depth == 0 then 4 else if depth == 1 then 2 else 1
  }

  /** The (shift, add) row of the renderer's table for a table index. */
  function ShiftAdd(index: nat): (r: (nat, nat))
    requires index < 4
    ensures index == 0 ==> r == (2, 3)
    ensures index == 1 ==> r == (1, 1)
    ensures index >= 2 ==> r == (0, 0)
  {
    if index == 0 then (2, 3) else if index == 1 then (1, 1) else (0, 0)
  }

  /** `x >> shift` for the shifts the table holds. */
  function ShiftRight(x: nat, shift: nat): (r: nat)
    requires shift <= 2
  {
    if shift == 0 then x else if shift == 1 then x / 2 else x / 4
  }

  /** The index the source uses, `(texpage >> 7) & 2`: only the upper bit of the colour depth is kept. */
  function TableIndexAsWritten(texpage: u32): (i: nat)
    ensures i == 0 || i == 2
    ensures i == 2 <==> TextureDepth(texpage) >= 2
  {
    ((texpage / 128) % 4) / 2 * 2
  }

  /** The index that keeps both bits of the colour depth, `(texpage >> 7) & 3`. */
  function TableIndex(texpage: u32): (i: nat)
    ensures i == TextureDepth(texpage)
  {
    (texpage / 128) % 4
  }

  /** The inclusive VRAM range a primitive samples: columns minX..maxX, rows minY..maxY. */
  datatype TexelRange = TexelRange(minX: nat, maxX: nat, minY: nat, maxY: nat)

  /**
   * The sampled range estimated with row `index` of the shift table, for
   * texture coordinates min_u..max_u, min_v..max_v under the texture window
   * (andX, orX, andY, orY).
   */
  function SampledRange(index: nat, texpage: u32, andX: u8, orX: u8, andY: u8, orY: u8,
                        minU: u32, minV: u32, maxU: u32, maxV: u32): (r: TexelRange)
    requires index < 4
    ensures r.minY == Windowed(minV, andY, orY) + ((texpage / 16) % 2) * 256
    ensures r.maxY == Windowed(maxV, andY, orY) + ((texpage / 16) % 2) * 256
  {
    var xoffs := (texpage % 16) * 64;
    var yoffs := ((texpage / 16) % 2) * 256;
    var (shift, add) := ShiftAdd(index);
    TexelRange(ShiftRight(Windowed(minU, andX, orX), shift) + xoffs,
               ShiftRight(Windowed(maxU, andX, orX) + add, shift) + xoffs,
               Windowed(minV, andY, orY) + yoffs,
               Windowed(maxV, andY, orY) + yoffs)
  }

  /** The range as the renderer computes it. */
  function SampledRangeAsWritten(texpage: u32, andX: u8, orX: u8, andY: u8, orY: u8,
                                 minU: u32, minV: u32, maxU: u32, maxV: u32): (r: TexelRange)
    ensures TextureDepth(texpage) != 1 ==>
      r == SampledRange(TextureDepth(texpage), texpage, andX, orX, andY, orY, minU, minV, maxU, maxV)
  {
    SampledRange(TableIndexAsWritten(texpage), texpage, andX, orX, andY, orY, minU, minV, maxU, maxV)
  }

  /** The range with the colour depth indexed in full; the renderer model uses this one. */
  function SampledRangeCorrected(texpage: u32, andX: u8, orX: u8, andY: u8, orY: u8,
                                 minU: u32, minV: u32, maxU: u32, maxV: u32): (r: TexelRange)
  {
    SampledRange(TableIndex(texpage), texpage, andX, orX, andY, orY, minU, minV, maxU, maxV)
  }

  /** The VRAM column holding texel `u` of a page at column `xoffs`. */
  function HalfwordColumn(depth: nat, u: nat, xoffs: nat): nat {
    u / TexelsPerHalfword(depth) + xoffs
  }

  /**
   * The corrected range contains the VRAM columns holding the first and the
   * last sampled texel for every colour depth (the reserved depth 3 is read
   * like 15-bit), and its rows are exactly the sampled rows.
   */
  lemma CorrectedRangeHoldsSampledTexels(texpage: u32, andX: u8, orX: u8, andY: u8, orY: u8,
                                         minU: u32, minV: u32, maxU: u32, maxV: u32)
    ensures var r := SampledRangeCorrected(texpage, andX, orX, andY, orY, minU, minV, maxU, maxV);
      var d := TextureDepth(texpage);
      var xoffs := (texpage % 16) * 64;
      r.minX == HalfwordColumn(d, Windowed(minU, andX, orX), xoffs) &&
      HalfwordColumn(d, Windowed(maxU, andX, orX), xoffs) <= r.maxX &&
      r.maxX <= HalfwordColumn(d, Windowed(maxU, andX, orX), xoffs) + 1
  {
    var wmax := Windowed(maxU, andX, orX);
    if TextureDepth(texpage) == 0 {
      assert (wmax + 3) / 4 <= wmax / 4 + 1;
    } else if TextureDepth(texpage) == 1 {
      assert (wmax + 1) / 2 <= wmax / 2 + 1;
    }
  }

  /**
   * With 8-bit texels the renderer's range misses the sampled texels: under
   * the full window, texel u >= 8 of a page lies in halfword column u / 2 of
   * the page, past the range computed as written, which ends at column
   * (u + 3) / 4 (texel 200 lies in column 100, the range ends at column 50).
   * The corrected range starts at the texel's own column.
   */
  lemma AsWrittenMissesEightBitTexels(texpage: u32, u: u32, v: u32)
    requires TextureDepth(texpage) == 1 && 8 <= u < 256 && v < 256
    ensures var xoffs := (texpage % 16) * 64;
      var r := SampledRangeAsWritten(texpage, 0xFF, 0, 0xFF, 0, u, v, u, v);
      r.minX == u / 4 + xoffs && r.maxX == (u + 3) / 4 + xoffs &&
      r.maxX < HalfwordColumn(1, Windowed(u, 0xFF, 0), xoffs) &&
      SampledRangeCorrected(texpage, 0xFF, 0, 0xFF, 0, u, v, u, v).minX == HalfwordColumn(1, u, xoffs)
  {
    WindowedFull(u);
    assert SampledRangeAsWritten(texpage, 0xFF, 0, 0xFF, 0, u, v, u, v) == SampledRange(0, texpage, 0xFF, 0, 0xFF, 0, u, v, u, v);
  }

  /**
   * The UV range after a sampled range is added, as written: the inclusive
   * maxima become the exclusive right and bottom edges.
   */
  function IncludeSampledAsWritten(uv: Rect, r: TexelRange): Rect {
    uv.Include(r.minX, r.maxX, r.minY, r.maxY)
  }

  /** The sampled texels as a rectangle: its exclusive edges lie one past the inclusive maxima. */
  function SampledRect(r: TexelRange): (s: Rect)
    ensures forall x: nat, y: nat :: r.minX <= x <= r.maxX && r.minY <= y <= r.maxY ==> s.Contains(x, y)
  {
    Rect(r.minX, r.minY, r.maxX + 1, r.maxY + 1)
  }

  /** The UV range grown to hold every sampled texel; the renderer model uses this one. */
  function IncludeSampled(uv: Rect, r: TexelRange): (res: Rect)
    ensures res.Covers(uv) && res.Covers(SampledRect(r))
  {
    uv.IncludeRect(SampledRect(r))
  }

  /**
   * As written, a 1x1 sprite at texel (u, v) of a 15-bit page under the full
   * window gives an empty UV range, which meets no dirty area, not even the
   * one-texel area at the very texel sampled; the corrected range meets it.
   */
  lemma AsWrittenRangeMissesItsTexel(texpage: u32, u: u32, v: u32)
    requires TextureDepth(texpage) == 2 && u < 256 && v < 256
    ensures var x, y := u + (texpage % 16) * 64, v + ((texpage / 16) % 2) * 256;
      var r := SampledRangeAsWritten(texpage, 0xFF, 0, 0xFF, 0, u, v, u, v);
      r == TexelRange(x, x, y, y) && SampledRangeCorrected(texpage, 0xFF, 0, 0xFF, 0, u, v, u, v) == r &&
      Rect(x, y, x + 1, y + 1).Contains(x, y) &&
      !IncludeSampledAsWritten(Invalid, r).Intersects(Rect(x, y, x + 1, y + 1)) &&
      IncludeSampled(Invalid, r).Intersects(Rect(x, y, x + 1, y + 1))
  {
    WindowedFull(u);
    WindowedFull(v);
  }

  /**
   * As written, the maxima become exclusive edges on every colour depth: a
   * range included into an empty UV range leaves out its last column and its
   * last row, so a dirty area holding only texels there is missed (and a range
   * one row high adds no row at all). The corrected range keeps every texel.
   */
  lemma AsWrittenIncludeDropsLastColumnAndRow(r: TexelRange, x: nat, y: nat)
    requires r.minX <= U32_MAX && r.minY <= U32_MAX
    requires x == r.maxX || y == r.maxY
    ensures !IncludeSampledAsWritten(Invalid, r).Intersects(Rect(x, y, x + 1, y + 1))
    ensures r.minX <= x <= r.maxX && r.minY <= y <= r.maxY ==>
      IncludeSampled(Invalid, r).Intersects(Rect(x, y, x + 1, y + 1))
  {
    IncludeIntoInvalid(r.minX, r.maxX, r.minY, r.maxY);
    if r.minX <= x <= r.maxX && r.minY <= y <= r.maxY {
      IncludeSampledMeetsDirtyTexels(Invalid, r, Rect(x, y, x + 1, y + 1), x, y);
    }
  }

  /**
   * On an 8-bit page the range as written and the corrected one lie apart:
   * for texels 200..255 under the full window the source estimates columns
   * u / 4 of the page (at most 64) and the model u / 2 (at least 100). A dirty
   * area at columns 55..59 meets the source's UV range and never the model's,
   * while the texels sampled lie in the model's: each check can flush where
   * the other does not.
   */
  lemma EightBitRangesApart(texpage: u32, minU: u32, maxU: u32, minV: u32, maxV: u32)
    requires TextureDepth(texpage) == 1 && 200 <= minU <= maxU < 256 && minV <= maxV < 256
    ensures var xoffs, yoffs := (texpage % 16) * 64, ((texpage / 16) % 2) * 256;
      var asWritten := SampledRangeAsWritten(texpage, 0xFF, 0, 0xFF, 0, minU, minV, maxU, maxV);
      var corrected := SampledRangeCorrected(texpage, 0xFF, 0, 0xFF, 0, minU, minV, maxU, maxV);
      var dirty := Rect(55 + xoffs, minV + yoffs, 60 + xoffs, minV + yoffs + 1);
      asWritten == TexelRange(minU / 4 + xoffs, (maxU + 3) / 4 + xoffs, minV + yoffs, maxV + yoffs) &&
      corrected == TexelRange(minU / 2 + xoffs, (maxU + 1) / 2 + xoffs, minV + yoffs, maxV + yoffs) &&
      asWritten.maxX <= 64 + xoffs < 100 + xoffs <= corrected.minX &&
      (minU < 240 && 220 < maxU && minV < maxV ==> IncludeSampledAsWritten(Invalid, asWritten).Intersects(dirty)) &&
      !IncludeSampled(Invalid, corrected).Intersects(dirty)
  {
    WindowedFull(minU);
    WindowedFull(maxU);
    WindowedFull(minV);
    WindowedFull(maxV);
    var xoffs, yoffs := (texpage % 16) * 64, ((texpage / 16) % 2) * 256;
    var asWritten := SampledRange(0, texpage, 0xFF, 0, 0xFF, 0, minU, minV, maxU, maxV);
    assert SampledRangeAsWritten(texpage, 0xFF, 0, 0xFF, 0, minU, minV, maxU, maxV) == asWritten;
    IncludeIntoInvalid(asWritten.minX, asWritten.maxX, asWritten.minY, asWritten.maxY);
  }

  /** The corrected range meets every dirty area that holds a sampled texel. */
  lemma IncludeSampledMeetsDirtyTexels(uv: Rect, r: TexelRange, dirty: Rect, x: nat, y: nat)
    requires r.minX <= x <= r.maxX && r.minY <= y <= r.maxY && dirty.Contains(x, y)
    ensures IncludeSampled(uv, r).Intersects(dirty)
  {
    assert SampledRect(r).Contains(x, y);
  }
}
