/**
 * The software renderer's copy of the displayed VRAM area into the display
 * texture. A 15-bit display converts each VRAM halfword to a display pixel;
 * a 24-bit display reassembles three-byte pixels packed across adjacent
 * halfwords. Reads wrap around the edges of VRAM, and an interleaved
 * interlaced display reads every other line. Each copy has a fast path for
 * areas that do not wrap and a general path that wraps every read.
 *
 * VRAM is the sequence of its 512 rows of 1024 halfwords, row after row; the
 * texture the pixels go to is a two-dimensional array of `height` rows of
 * `width` pixels, each pixel held as an unsigned 32-bit value.
 */
module SoftwareCopyOut {
  import opened GpuTypes
  import opened TexPageOverlap

  /** The alpha byte every 24-bit output pixel carries, in place. */
  const OPAQUE: nat := 0xFF00_0000

  predicate IsVram(vram: seq<u16>) {
    |vram| == VRAM_WIDTH * VRAM_HEIGHT
  }

  /** The VRAM line that output row `row` reads: lines advance by 2^lineSkip. */
  function SourceRow(srcY: nat, row: nat, lineSkip: nat): nat {
    srcY + row * Pow2(lineSkip)
  }

  /** The next output row starts 2^lineSkip lines further on. */
  lemma NextSourceRow(srcY: nat, row: nat, lineSkip: nat, srcX: nat)
    ensures SourceRow(srcY, row + 1, lineSkip) * VRAM_WIDTH + srcX ==
            SourceRow(srcY, row, lineSkip) * VRAM_WIDTH + srcX + VRAM_WIDTH * Pow2(lineSkip)
  {
    assert (row + 1) * Pow2(lineSkip) == row * Pow2(lineSkip) + Pow2(lineSkip);
  }

  /** The halfword at column `x` of line `y`, both wrapping around VRAM. */
  function WordAt(vram: seq<u16>, x: nat, y: nat): u16
    requires IsVram(vram)
  {
    vram[(y % VRAM_HEIGHT) * VRAM_WIDTH + x % VRAM_WIDTH]
  }

  // ----- 15-bit copy-out -----

  /** Output pixel (row, col) of a 15-bit copy: the converted halfword at column srcX + col of the row's line. */
  function Pixel15(vram: seq<u16>, convert: u16 -> u32, srcX: nat, srcY: nat, lineSkip: nat, row: nat, col: nat): u32
    requires IsVram(vram)
  {
    convert(WordAt(vram, srcX + col, SourceRow(srcY, row, lineSkip)))
  }

  /** Every pixel of `dst` is the 15-bit copy of its VRAM halfword. */
  ghost predicate Copied15(vram: seq<u16>, convert: u16 -> u32, srcX: nat, srcY: nat, lineSkip: nat, dst: array2<u32>)
    requires IsVram(vram)
    reads dst
  {
    forall row, col :: 0 <= row < dst.Length0 && 0 <= col < dst.Length1 ==>
      dst[row, col] == Pixel15(vram, convert, srcX, srcY, lineSkip, row, col)
  }

  /**
   * The fast-path test of the 15-bit copy as written: the height is checked
   * without the line skip, so it keeps the lines read in VRAM only when no
   * line is skipped (FastPathNarrowsAsWritten, AsWrittenFastPath15Overreads).
   */
  predicate FastPath15AsWritten(srcX: nat, srcY: nat, width: nat, height: nat) {
    srcX + width <= VRAM_WIDTH && srcY + height <= VRAM_HEIGHT
  }

  /**
   * The fast-path test the 24-bit copy makes, which the corrected 15-bit copy
   * makes too: the lines read must fit (FastPathRowsInVram). It is never
   * weaker than the test as written (FastPathNarrowsAsWritten).
   */
  predicate FastPath(srcX: nat, srcY: nat, width: nat, height: nat, lineSkip: nat) {
    srcX + width <= VRAM_WIDTH && srcY + height * Pow2(lineSkip) <= VRAM_HEIGHT
  }

  /**
   * As written, the 15-bit fast path is taken for 200 interleaved lines from
   * line 300, whose last output row reads line 698, past the end of VRAM.
   */
  lemma AsWrittenFastPath15Overreads()
    ensures FastPath15AsWritten(0, 300, 1, 200)
    ensures SourceRow(300, 199, 1) == 698 && 698 * VRAM_WIDTH >= VRAM_WIDTH * VRAM_HEIGHT
    ensures !FastPath(0, 300, 1, 200, 1)
  {
    assert Pow2(1) == 2;
  }

  /**
   * The corrected test only narrows the fast path, and without line skipping
   * it is the test as written.
   */
  lemma FastPathNarrowsAsWritten(srcX: nat, srcY: nat, width: nat, height: nat, lineSkip: nat)
    ensures FastPath(srcX, srcY, width, height, lineSkip) ==> FastPath15AsWritten(srcX, srcY, width, height)
    ensures lineSkip == 0 ==> (FastPath(srcX, srcY, width, height, lineSkip) <==> FastPath15AsWritten(srcX, srcY, width, height))
  {
    MulMonotone(1, Pow2(lineSkip), height);
  }

  /**
   * Wherever the fast path as written reads inside VRAM, it reads the
   * halfword the modelled pixel takes. So the copy as written and the copy
   * modelled agree pixel for pixel on every input the source reads within
   * VRAM, whichever path each of them takes.
   */
  lemma AsWrittenDirectReadAgrees(vram: seq<u16>, srcX: nat, srcY: nat, width: nat, height: nat, lineSkip: nat,
                                  row: nat, col: nat)
    requires IsVram(vram) && FastPath15AsWritten(srcX, srcY, width, height) && row < height && col < width
    requires SourceRow(srcY, row, lineSkip) < VRAM_HEIGHT
    ensures SourceRow(srcY, row, lineSkip) * VRAM_WIDTH + srcX + col < |vram|
    ensures vram[SourceRow(srcY, row, lineSkip) * VRAM_WIDTH + srcX + col] == WordAt(vram, srcX + col, SourceRow(srcY, row, lineSkip))
  {
    var y := SourceRow(srcY, row, lineSkip);
    MulMonotone(y, VRAM_HEIGHT - 1, VRAM_WIDTH);
    SmallMod(y, VRAM_HEIGHT);
    SmallMod(srcX + col, VRAM_WIDTH);
  }

  /** Under the fast-path test every output row reads a line inside VRAM, starting inside it. */
  lemma FastPathRowsInVram(srcX: nat, srcY: nat, width: nat, height: nat, lineSkip: nat, row: nat)
    requires FastPath(srcX, srcY, width, height, lineSkip) && row < height
    ensures SourceRow(srcY, row, lineSkip) < VRAM_HEIGHT
    ensures SourceRow(srcY, row, lineSkip) * VRAM_WIDTH + srcX + width <= VRAM_WIDTH * VRAM_HEIGHT
  {
    MulMonotone(row + 1, height, Pow2(lineSkip));
  }

  /**
   * Under the fast-path test the halfword the fast path reads by plain
   * offset from the area's start is the one the wrapping read takes: the two
   * paths compute the same pixels.
   */
  lemma FastPathReadsWrappedWord(vram: seq<u16>, srcX: nat, srcY: nat, width: nat, height: nat, lineSkip: nat,
                                 row: nat, col: nat)
    requires IsVram(vram) && FastPath(srcX, srcY, width, height, lineSkip) && row < height && col < width
    ensures SourceRow(srcY, row, lineSkip) * VRAM_WIDTH + srcX + col < |vram|
    ensures vram[SourceRow(srcY, row, lineSkip) * VRAM_WIDTH + srcX + col] == WordAt(vram, srcX + col, SourceRow(srcY, row, lineSkip))
  {
    FastPathRowsInVram(srcX, srcY, width, height, lineSkip, row);
    var y := SourceRow(srcY, row, lineSkip);
    assert y % VRAM_HEIGHT == y;
    assert (srcX + col) % VRAM_WIDTH == srcX + col;
  }

  /**
   * Copies a width x height area of 15-bit pixels from (srcX, srcY) into
   * `dst`, each through `convert` (the display format's pixel conversion).
   * Nothing is copied when no display texture is available.
   */
  method CopyOut15Bit(vram: seq<u16>, convert: u16 -> u32, srcX: u32, srcY: u32, width: u32, height: u32,
                      lineSkip: nat, textureReady: bool, dst: array2<u32>) returns (ok: bool)
    requires IsVram(vram) && lineSkip < 32 && srcX + width < U32_LIMIT
    requires dst.Length0 == height && dst.Length1 == width
    modifies dst
    ensures ok == textureReady
    ensures ok ==> Copied15(vram, convert, srcX, srcY, lineSkip, dst)
    ensures !ok ==> unchanged(dst)
  {
    if !textureReady {
      return false;
    }
    if FastPath(srcX, srcY, width, height, lineSkip) {
      CopyOut15Direct(vram, convert, srcX, srcY, width, height, lineSkip, dst);
    } else {
      CopyOut15Wrapped(vram, convert, srcX, srcY, width, height, lineSkip, dst);
    }
    return true;
  }

  /** The fast path: each row is read straight from its line's start, the lines 2^lineSkip apart. */
  method CopyOut15Direct(vram: seq<u16>, convert: u16 -> u32, srcX: nat, srcY: nat, width: nat, height: nat,
                         lineSkip: nat, dst: array2<u32>)
    requires IsVram(vram) && FastPath(srcX, srcY, width, height, lineSkip)
    requires dst.Length0 == height && dst.Length1 == width
    modifies dst
    ensures Copied15(vram, convert, srcX, srcY, lineSkip, dst)
  {
    var step := VRAM_WIDTH * Pow2(lineSkip);
    var src := srcY * VRAM_WIDTH + srcX;
    var row := 0;
    while row < height
      invariant row <= height
      invariant src == SourceRow(srcY, row, lineSkip) * VRAM_WIDTH + srcX
      invariant forall r, c :: 0 <= r < row && 0 <= c < width ==> dst[r, c] == Pixel15(vram, convert, srcX, srcY, lineSkip, r, c)
    {
      var x := 0;
      while x < width
        invariant x <= width
        invariant forall r, c :: 0 <= r < row && 0 <= c < width ==> dst[r, c] == Pixel15(vram, convert, srcX, srcY, lineSkip, r, c)
        invariant forall c :: 0 <= c < x ==> dst[row, c] == Pixel15(vram, convert, srcX, srcY, lineSkip, row, c)
      {
        FastPathReadsWrappedWord(vram, srcX, srcY, width, height, lineSkip, row, x);
        dst[row, x] := convert(vram[src + x]);
        x := x + 1;
      }
      NextSourceRow(srcY, row, lineSkip, srcX);
      src := src + step;
      row := row + 1;
    }
  }

  /**
   * The wrap-around path: every read wraps into VRAM. The line counter is a
   * 32-bit value in the source; 2^32 is a multiple of 512, so its wrap-around
   * does not change the line it selects (WrappedLine), and it is kept
   * unbounded here.
   */
  method CopyOut15Wrapped(vram: seq<u16>, convert: u16 -> u32, srcX: nat, srcY: nat, width: nat, height: nat,
                          lineSkip: nat, dst: array2<u32>)
    requires IsVram(vram)
    requires dst.Length0 == height && dst.Length1 == width
    modifies dst
    ensures Copied15(vram, convert, srcX, srcY, lineSkip, dst)
  {
    var endX := srcX + width;
    var yStep := Pow2(lineSkip);
    var y := srcY;
    var row := 0;
    while row < height
      invariant row <= height && y == SourceRow(srcY, row, lineSkip)
      invariant forall r, c :: 0 <= r < row && 0 <= c < width ==> dst[r, c] == Pixel15(vram, convert, srcX, srcY, lineSkip, r, c)
    {
      var lineStart := (y % VRAM_HEIGHT) * VRAM_WIDTH;
      var col := srcX;
      while col < endX
        invariant srcX <= col <= endX
        invariant forall r, c :: 0 <= r < row && 0 <= c < width ==> dst[r, c] == Pixel15(vram, convert, srcX, srcY, lineSkip, r, c)
        invariant forall c :: 0 <= c < col - srcX ==> dst[row, c] == Pixel15(vram, convert, srcX, srcY, lineSkip, row, c)
      {
        dst[row, col - srcX] := convert(vram[lineStart + col % VRAM_WIDTH]);
        col := col + 1;
      }
      y := y + yStep;
      row := row + 1;
    }
  }

  /** A 32-bit line counter selects the same VRAM line as the unbounded one. */
  lemma WrappedLine(y: nat)
    ensures WrapU32(y) % VRAM_HEIGHT == y % VRAM_HEIGHT
  {
    var q, r := y / U32_LIMIT, y % U32_LIMIT;
    assert y == VRAM_HEIGHT * (0x80_0000 * q) + r;
    LinesRepeat(0x80_0000 * q, r);
  }

  /** Adding whole multiples of the VRAM height does not change the line selected. */
  lemma {:induction false} LinesRepeat(m: nat, r: nat)
    ensures (VRAM_HEIGHT * m + r) % VRAM_HEIGHT == r % VRAM_HEIGHT
    decreases m
  {
    if m > 0 {
      LinesRepeat(m - 1, r);
      assert VRAM_HEIGHT * m + r == (VRAM_HEIGHT * (m - 1) + r) + VRAM_HEIGHT;
    }
  }

  // ----- 24-bit copy-out -----

  /** Byte `k` of VRAM, each halfword little-endian; bytes past the end of VRAM read as 0. */
  function VramByte(vram: seq<u16>, k: nat): (b: nat)
    ensures b < 256
  {
    if k / 2 < |vram| then (if k % 2 == 0 then vram[k / 2] % 256 else vram[k / 2] / 256) else 0
  }

  /** The display pixel of three bytes (red, green, blue in the low bytes), with an opaque alpha byte. */
  function Pack24(b0: nat, b1: nat, b2: nat): (r: u32)
    requires b0 < 256 && b1 < 256 && b2 < 256
    ensures r % 0x100_0000 == b0 + 256 * b1 + 65536 * b2
    ensures r / 0x100_0000 == 0xFF
  {
    b0 + 256 * b1 + 65536 * b2 + OPAQUE
  }

  /**
   * The display pixel taken from halfwords s0 and s1: their 32-bit
   * concatenation, shifted right by 8 when the pixel starts in the high byte
   * of s0, with the alpha byte forced opaque.
   */
  function Unpack24(s0: u16, s1: u16, odd: bool): (r: u32)
    ensures r / 0x100_0000 == 0xFF
    ensures !odd ==> r % 0x100_0000 == s0 + 65536 * (s1 % 256)
    ensures odd ==> r % 0x100_0000 == s0 / 256 + 256 * s1
  {
    var rgb := if odd then (s1 * 65536 + s0) / 256 else s1 * 65536 + s0;
    LowBytes(s0, s1);
    rgb % 0x100_0000 + OPAQUE
  }

  lemma LowBytes(s0: u16, s1: u16)
    ensures (s1 * 65536 + s0) % 0x100_0000 == s0 + 65536 * (s1 % 256)
    ensures (s1 * 65536 + s0) / 256 == s0 / 256 + 256 * s1
    ensures s0 / 256 + 256 * s1 < 0x100_0000
  {
    var q := s1 / 256;
    var low := s0 + 65536 * (s1 % 256);
    assert s1 * 65536 + s0 == q * 0x100_0000 + low;
    assert (q * 0x100_0000 + low) % 0x100_0000 == low;
    assert s1 * 65536 + s0 == (s0 / 256 + 256 * s1) * 256 + s0 % 256;
  }

  /** Pixel p of the packed line whose first byte is byte 2 * start of VRAM: its three bytes from byte 3p on. */
  function PackedPixel(vram: seq<u16>, start: nat, p: nat): u32 {
    var k := 2 * start + 3 * p;
    Pack24(VramByte(vram, k), VramByte(vram, k + 1), VramByte(vram, k + 2))
  }

  /**
   * Output pixel (row, col) of the 24-bit fast path: pixel skipX + col of the
   * area from column srcX of the row's line, read on through the following
   * lines when it runs past the end of the line.
   */
  function Pixel24Packed(vram: seq<u16>, srcX: nat, srcY: nat, skipX: nat, lineSkip: nat, row: nat, col: nat): u32 {
    PackedPixel(vram, SourceRow(srcY, row, lineSkip) * VRAM_WIDTH + srcX, skipX + col)
  }

  /** The halfword offset from srcX of 24-bit pixel p, three bytes per pixel, in 32-bit arithmetic. */
  function PixelOffset(srcX: u32, p: u32): u32 {
    WrapU32(srcX + WrapU32(p * 3) / 2)
  }

  /**
   * Pixel p of the area from column srcX of line y, read as the wrap-around
   * path reads it: the halfwords at the pixel's offset and the next, both
   * wrapping along the line, shifted by 8 when `odd`.
   */
  function WrappedPixel(vram: seq<u16>, srcX: u32, y: nat, p: u32, odd: bool): u32
    requires IsVram(vram)
  {
    var offset := PixelOffset(srcX, p);
    Unpack24(WordAt(vram, offset, y), WordAt(vram, WrapU32(offset + 1), y), odd)
  }

  /** Output pixel (row, col) of the 24-bit wrap-around path as written: the shift follows the output column's parity. */
  function Pixel24WrapAsWritten(vram: seq<u16>, srcX: u32, srcY: nat, skipX: u32, lineSkip: nat, row: nat, col: u32): u32
    requires IsVram(vram)
  {
    WrappedPixel(vram, srcX, SourceRow(srcY, row, lineSkip), WrapU32(skipX + col), col % 2 == 1)
  }

  /**
   * The corrected wrap-around pixel: the shift follows the parity of the
   * pixel's own index skipX + col, which is odd exactly when its first byte
   * is the high byte of a halfword.
   */
  function Pixel24Wrap(vram: seq<u16>, srcX: u32, srcY: nat, skipX: u32, lineSkip: nat, row: nat, col: u32): u32
    requires IsVram(vram)
  {
    var p := WrapU32(skipX + col);
    WrappedPixel(vram, srcX, SourceRow(srcY, row, lineSkip), p, p % 2 == 1)
  }

  /**
   * The wrap-around pixel as written and the corrected one agree whenever the
   * pixel skip is even: the output column and the pixel's index then have
   * the same parity.
   */
  lemma WrapAsWrittenAgreesOnEvenSkip(vram: seq<u16>, srcX: u32, srcY: nat, skipX: u32, lineSkip: nat, row: nat, col: u32)
    requires IsVram(vram) && skipX % 2 == 0
    ensures Pixel24WrapAsWritten(vram, srcX, srcY, skipX, lineSkip, row, col) == Pixel24Wrap(vram, srcX, srcY, skipX, lineSkip, row, col)
  {
    var k := (skipX + col) / U32_LIMIT;
    assert WrapU32(skipX + col) == skipX + col - k * U32_LIMIT;
    assert WrapU32(skipX + col) % 2 == col % 2;
  }

  /** The pixel the 24-bit copy-out writes at (row, col). */
  function Pixel24(vram: seq<u16>, srcX: u32, srcY: u32, skipX: u32, width: nat, height: nat, lineSkip: nat,
                   row: nat, col: u32): u32
    requires IsVram(vram)
  {
    if FastPath(srcX, srcY, width, height, lineSkip) then Pixel24Packed(vram, srcX, srcY, skipX, lineSkip, row, col)
    else Pixel24Wrap(vram, srcX, srcY, skipX, lineSkip, row, col)
  }

  /** Every 24-bit output pixel is opaque, on either path. */
  lemma Pixel24Opaque(vram: seq<u16>, srcX: u32, srcY: u32, skipX: u32, width: nat, height: nat, lineSkip: nat,
                      row: nat, col: u32)
    requires IsVram(vram)
    ensures Pixel24(vram, srcX, srcY, skipX, width, height, lineSkip, row, col) / 0x100_0000 == 0xFF
    ensures Pixel24WrapAsWritten(vram, srcX, srcY, skipX, lineSkip, row, col) / 0x100_0000 == 0xFF
  {
  }

  /** Every pixel of `dst` is the 24-bit copy of its VRAM bytes. */
  ghost predicate Copied24(vram: seq<u16>, srcX: u32, srcY: u32, skipX: u32, lineSkip: nat, dst: array2<u32>)
    requires IsVram(vram)
    reads dst
  {
    forall row, col :: 0 <= row < dst.Length0 && 0 <= col < dst.Length1 && col < U32_LIMIT ==>
      dst[row, col] == Pixel24(vram, srcX, srcY, skipX, dst.Length1, dst.Length0, lineSkip, row, col)
  }

  /**
   * Inside a line, the packed read and the corrected wrapping read give the
   * same pixel: three bytes from byte 3p of the area are the halfwords at
   * offsets 3p / 2 and 3p / 2 + 1, starting in the high byte of the first
   * when p is odd.
   */
  lemma PackedMatchesWrap(vram: seq<u16>, srcX: u32, y: nat, p: u32)
    requires IsVram(vram) && y < VRAM_HEIGHT && srcX + (3 * p) / 2 + 1 < VRAM_WIDTH
    ensures PackedPixel(vram, y * VRAM_WIDTH + srcX, p) == WrappedPixel(vram, srcX, y, p, p % 2 == 1)
  {
    var h := (3 * p) / 2;
    var q := y * VRAM_WIDTH + srcX + h;
    WrapReadsWords(vram, srcX, y, p, h);
    assert WrappedPixel(vram, srcX, y, p, p % 2 == 1) == Unpack24(vram[q], vram[q + 1], p % 2 == 1);
    OddPixelStartsInHighByte(p);
    PackedPixelWords(vram, y * VRAM_WIDTH + srcX, p, q);
    PackMatchesUnpack(vram[q], vram[q + 1], p % 2 == 1);
  }

  /** Packed pixel p starts in halfword q: its bytes are those of halfwords q and q + 1. */
  lemma PackedPixelWords(vram: seq<u16>, start: nat, p: nat, q: nat)
    requires 2 * start + 3 * p == 2 * q + p % 2 && q + 1 < |vram|
    ensures p % 2 == 0 ==> PackedPixel(vram, start, p) == Pack24(vram[q] % 256, vram[q] / 256, vram[q + 1] % 256)
    ensures p % 2 == 1 ==> PackedPixel(vram, start, p) == Pack24(vram[q] / 256, vram[q + 1] % 256, vram[q + 1] / 256)
  {
    PackedBytes(vram, q, p % 2 == 1);
  }

  /**
   * On the fast path, an output pixel whose bytes lie inside its line is the
   * pixel the (corrected) wrap-around path computes.
   */
  lemma FastPathMatchesWrap(vram: seq<u16>, srcX: u32, srcY: u32, skipX: u32, width: nat, height: nat, lineSkip: nat,
                            row: nat, col: u32)
    requires IsVram(vram) && FastPath(srcX, srcY, width, height, lineSkip) && row < height
    requires srcX + (3 * (skipX + col)) / 2 + 1 < VRAM_WIDTH
    ensures Pixel24Packed(vram, srcX, srcY, skipX, lineSkip, row, col) == Pixel24Wrap(vram, srcX, srcY, skipX, lineSkip, row, col)
  {
    FastPathRowsInVram(srcX, srcY, width, height, lineSkip, row);
    PackedMatchesWrap(vram, srcX, SourceRow(srcY, row, lineSkip), skipX + col);
  }

  /** Pixel p's first byte is byte 3p: the low byte of halfword 3p / 2 when p is even, its high byte when p is odd. */
  lemma OddPixelStartsInHighByte(p: nat)
    ensures 3 * p == 2 * ((3 * p) / 2) + p % 2
  {
    var n := p / 2;
    var r := p % 2;
    assert p == 2 * n + r;
    assert 3 * p == 2 * (3 * n + r) + r;
    assert (3 * p) / 2 == 3 * n + r;
  }

  /** Three bytes read from halfwords s0 and s1 are the pixel the shifted concatenation of s0 and s1 gives. */
  lemma PackMatchesUnpack(s0: u16, s1: u16, odd: bool)
    ensures !odd ==> Pack24(s0 % 256, s0 / 256, s1 % 256) == Unpack24(s0, s1, false)
    ensures odd ==> Pack24(s0 / 256, s1 % 256, s1 / 256) == Unpack24(s0, s1, true)
  {
    var r := Unpack24(s0, s1, odd);
    assert r == 0xFF * 0x100_0000 + r % 0x100_0000;
  }

  /** Inside its line, the wrapping read of pixel p takes the halfwords at offsets 3p / 2 and 3p / 2 + 1. */
  lemma WrapReadsWords(vram: seq<u16>, srcX: u32, y: nat, p: u32, h: nat)
    requires IsVram(vram) && y < VRAM_HEIGHT && h == (3 * p) / 2 && srcX + h + 1 < VRAM_WIDTH
    ensures PixelOffset(srcX, p) == srcX + h && WrapU32(srcX + h + 1) == srcX + h + 1
    ensures y * VRAM_WIDTH + srcX + h + 1 < |vram|
    ensures WordAt(vram, srcX + h, y) == vram[y * VRAM_WIDTH + srcX + h]
    ensures WordAt(vram, srcX + h + 1, y) == vram[y * VRAM_WIDTH + srcX + h + 1]
  {
    assert WrapU32(p * 3) == 3 * p;
    assert y % VRAM_HEIGHT == y;
    assert (srcX + h) % VRAM_WIDTH == srcX + h;
    assert (srcX + h + 1) % VRAM_WIDTH == srcX + h + 1;
  }

  /** The three bytes from byte 2q (or 2q + 1) of VRAM, in terms of halfwords q and q + 1. */
  lemma PackedBytes(vram: seq<u16>, q: nat, odd: bool)
    requires q + 1 < |vram|
    ensures !odd ==> VramByte(vram, 2 * q) == vram[q] % 256 && VramByte(vram, 2 * q + 1) == vram[q] / 256 &&
                     VramByte(vram, 2 * q + 2) == vram[q + 1] % 256
    ensures odd ==> VramByte(vram, 2 * q + 1) == vram[q] / 256 && VramByte(vram, 2 * q + 2) == vram[q + 1] % 256 &&
                    VramByte(vram, 2 * q + 3) == vram[q + 1] / 256
  {
    assert (2 * q) / 2 == q && (2 * q + 1) / 2 == q && (2 * q + 2) / 2 == q + 1 && (2 * q + 3) / 2 == q + 1;
  }

  /**
   * As written, the wrap-around path misplaces a pixel when skipX is odd: with
   * halfwords 0xABCD and 0x1234 at columns 1 and 2, pixel 1 of the line (its
   * bytes 3 to 5) is 0x1234AB, but the path takes the bytes from 2 and yields
   * 0x34ABCD; the corrected pixel and the fast path agree on 0x1234AB.
   */
  lemma AsWrittenWrapMisplacesOddSkip()
    ensures var vram := TwoWords();
      IsVram(vram) &&
      Pixel24WrapAsWritten(vram, 0, 0, 1, 0, 0, 0) == 0x34ABCD + OPAQUE &&
      Pixel24Wrap(vram, 0, 0, 1, 0, 0, 0) == 0x1234AB + OPAQUE &&
      Pixel24Packed(vram, 0, 0, 1, 0, 0, 0) == 0x1234AB + OPAQUE
  {
    var vram := TwoWords();
    assert WordAt(vram, 1, 0) == 0xABCD && WordAt(vram, 2, 0) == 0x1234;
    assert VramByte(vram, 3) == 0xAB && VramByte(vram, 4) == 0x34 && VramByte(vram, 5) == 0x12;
  }

  function TwoWords(): (vram: seq<u16>)
    ensures IsVram(vram)
  {
    seq(VRAM_WIDTH * VRAM_HEIGHT, i => if i == 1 then 0xABCD else if i == 2 then 0x1234 else 0)
  }

  /**
   * The 24-bit fast-path test checks the start of each line only: a 24-bit
   * line of 1024 pixels spans 1536 halfwords, so from the last line of VRAM
   * the fast path reads past its end.
   */
  lemma FastPath24CanOverrun()
    ensures FastPath(0, 511, 1024, 1, 0)
    ensures 2 * (SourceRow(511, 0, 0) * VRAM_WIDTH + 0) + 3 * (0 + 1023) + 2 >= 2 * VRAM_WIDTH * VRAM_HEIGHT
  {
  }

  /**
   * Copies a width x height area of 24-bit pixels whose first pixel is pixel
   * skipX of the line from (srcX, srcY) into `dst`. Nothing is copied when no
   * display texture is available.
   */
  method CopyOut24Bit(vram: seq<u16>, srcX: u32, srcY: u32, skipX: u32, width: u32, height: u32, lineSkip: nat,
                      textureReady: bool, dst: array2<u32>) returns (ok: bool)
    requires IsVram(vram) && lineSkip < 32
    requires dst.Length0 == height && dst.Length1 == width
    modifies dst
    ensures ok == textureReady
    ensures ok ==> Copied24(vram, srcX, srcY, skipX, lineSkip, dst)
    ensures !ok ==> unchanged(dst)
  {
    if !textureReady {
      return false;
    }
    if FastPath(srcX, srcY, width, height, lineSkip) {
      CopyOut24Packed(vram, srcX, srcY, skipX, width, height, lineSkip, dst);
    } else {
      CopyOut24Wrapped(vram, srcX, srcY, skipX, width, height, lineSkip, dst);
    }
    return true;
  }

  /** The fast path: three bytes per pixel from each row's start, the rows 2^lineSkip lines apart. */
  method CopyOut24Packed(vram: seq<u16>, srcX: u32, srcY: u32, skipX: u32, width: u32, height: u32, lineSkip: nat,
                         dst: array2<u32>)
    requires IsVram(vram) && FastPath(srcX, srcY, width, height, lineSkip)
    requires dst.Length0 == height && dst.Length1 == width
    modifies dst
    ensures Copied24(vram, srcX, srcY, skipX, lineSkip, dst)
  {
    var stride := VRAM_WIDTH * Pow2(lineSkip);
    var start := srcY * VRAM_WIDTH + srcX;
    var row := 0;
    while row < height
      invariant row <= height
      invariant start == SourceRow(srcY, row, lineSkip) * VRAM_WIDTH + srcX
      invariant forall r, c :: 0 <= r < row && 0 <= c < width ==> dst[r, c] == Pixel24Packed(vram, srcX, srcY, skipX, lineSkip, r, c)
    {
      CopyLinePacked(vram, start, skipX, row, dst);
      NextSourceRow(srcY, row, lineSkip, srcX);
      start := start + stride;
      row := row + 1;
    }
  }

  /** Writes row `row` of `dst` with the packed pixels from pixel skipX of the line starting at halfword `start`. */
  method CopyLinePacked(vram: seq<u16>, start: nat, skipX: nat, row: nat, dst: array2<u32>)
    requires row < dst.Length0
    modifies dst
    ensures forall c :: 0 <= c < dst.Length1 ==> dst[row, c] == PackedPixel(vram, start, skipX + c)
    ensures forall r, c :: 0 <= r < dst.Length0 && r != row && 0 <= c < dst.Length1 ==> dst[r, c] == old(dst[r, c])
  {
    var b := 2 * start + 3 * skipX;
    var col := 0;
    while col < dst.Length1
      invariant col <= dst.Length1 && b == 2 * start + 3 * (skipX + col)
      invariant forall c :: 0 <= c < col ==> dst[row, c] == PackedPixel(vram, start, skipX + c)
      invariant forall r, c :: 0 <= r < dst.Length0 && r != row && 0 <= c < dst.Length1 ==> dst[r, c] == old(dst[r, c])
    {
      dst[row, col] := Pack24(VramByte(vram, b), VramByte(vram, b + 1), VramByte(vram, b + 2));
      b := b + 3;
      col := col + 1;
    }
  }

  /** The wrap-around path, with the corrected shift (see Pixel24Wrap). */
  method CopyOut24Wrapped(vram: seq<u16>, srcX: u32, srcY: u32, skipX: u32, width: u32, height: u32, lineSkip: nat,
                          dst: array2<u32>)
    requires IsVram(vram) && !FastPath(srcX, srcY, width, height, lineSkip)
    requires dst.Length0 == height && dst.Length1 == width
    modifies dst
    ensures Copied24(vram, srcX, srcY, skipX, lineSkip, dst)
  {
    var yStep := Pow2(lineSkip);
    var y := srcY as nat;
    var row := 0;
    while row < height
      invariant row <= height && y == SourceRow(srcY, row, lineSkip)
      invariant forall r, c :: 0 <= r < row && 0 <= c < width ==> dst[r, c] == Pixel24Wrap(vram, srcX, srcY, skipX, lineSkip, r, c)
    {
      CopyLineWrapped(vram, srcX, y, skipX, row, dst);
      y := y + yStep;
      row := row + 1;
    }
  }

  /** Halfword x of line y, both wrapping, lies inside VRAM. */
  lemma LineIndex(y: nat, x: nat)
    ensures (y % VRAM_HEIGHT) * VRAM_WIDTH + x % VRAM_WIDTH < VRAM_WIDTH * VRAM_HEIGHT
  {
  }

  /** Writes row `row` of `dst` with the wrapping pixels from pixel skipX of the area from column srcX of line y. */
  method CopyLineWrapped(vram: seq<u16>, srcX: u32, y: nat, skipX: u32, row: nat, dst: array2<u32>)
    requires IsVram(vram) && row < dst.Length0 && dst.Length1 <= U32_LIMIT
    modifies dst
    ensures forall c :: 0 <= c < dst.Length1 ==>
      dst[row, c] == WrappedPixel(vram, srcX, y, WrapU32(skipX + c), WrapU32(skipX + c) % 2 == 1)
    ensures forall r, c :: 0 <= r < dst.Length0 && r != row && 0 <= c < dst.Length1 ==> dst[r, c] == old(dst[r, c])
  {
    var lineStart := (y % VRAM_HEIGHT) * VRAM_WIDTH;
    var col := 0;
    while col < dst.Length1
      invariant col <= dst.Length1
      invariant forall c :: 0 <= c < col ==>
        dst[row, c] == WrappedPixel(vram, srcX, y, WrapU32(skipX + c), WrapU32(skipX + c) % 2 == 1)
      invariant forall r, c :: 0 <= r < dst.Length0 && r != row && 0 <= c < dst.Length1 ==> dst[r, c] == old(dst[r, c])
    {
      var p := WrapU32(skipX + col);
      dst[row, col] := ReadWrappedPixel(vram, lineStart, srcX, y, p);
      col := col + 1;
    }
  }

  /** Reads pixel p of the area from column srcX of line y, whose first halfword is at lineStart. */
  method ReadWrappedPixel(vram: seq<u16>, lineStart: nat, srcX: u32, y: nat, p: u32) returns (v: u32)
    requires IsVram(vram) && lineStart == (y % VRAM_HEIGHT) * VRAM_WIDTH
    ensures v == WrappedPixel(vram, srcX, y, p, p % 2 == 1)
  {
    var offset := PixelOffset(srcX, p);
    LineIndex(y, offset);
    LineIndex(y, WrapU32(offset + 1));
    var s0 := vram[lineStart + offset % VRAM_WIDTH];
    var s1 := vram[lineStart + WrapU32(offset + 1) % VRAM_WIDTH];
    v := Unpack24(s0, s1, p % 2 == 1);
  }

  // ----- Dispatch and display update -----

  /**
   * Copies out a display area in the display's colour depth. A 15-bit copy
   * has no pixel skip; the display texture formats differ only in `convert`.
   */
  method CopyOut(vram: seq<u16>, convert: u16 -> u32, srcX: u32, srcY: u32, skipX: u32, width: u32, height: u32,
                 lineSkip: nat, is24Bit: bool, textureReady: bool, dst: array2<u32>) returns (ok: bool)
    requires IsVram(vram) && lineSkip < 32 && srcX + width < U32_LIMIT
    requires !is24Bit ==> skipX == 0
    requires dst.Length0 == height && dst.Length1 == width
    modifies dst
    ensures ok == textureReady
    ensures ok && !is24Bit ==> Copied15(vram, convert, srcX, srcY, lineSkip, dst)
    ensures ok && is24Bit ==> Copied24(vram, srcX, srcY, skipX, lineSkip, dst)
    ensures !ok ==> unchanged(dst)
  {
    if !is24Bit {
      ok := CopyOut15Bit(vram, convert, srcX, srcY, width, height, lineSkip, textureReady, dst);
    } else {
      ok := CopyOut24Bit(vram, srcX, srcY, skipX, width, height, lineSkip, textureReady, dst);
    }
  }

  /** The display registers a display update carries. */
  datatype DisplayCommand = DisplayCommand(
    displayDisabled: bool,
    display24Bit: bool,
    interlaced: bool,
    interleaved: bool,
    /** The field being shown, 1 for the odd lines. */
    oddField: bool,
    /** The display start column register; a 24-bit area starts there and skips the pixels up to vramLeft. */
    x: u32,
    vramLeft: u32,
    vramTop: u32,
    vramWidth: u32,
    vramHeight: u32)

  /** The parameters of one copy-out. */
  datatype CopyRequest = CopyRequest(srcX: u32, srcY: u32, skipX: u32, width: u32, height: u32, lineSkip: nat, is24Bit: bool)

  /**
   * What a display update copies: nothing when the display is off, the whole
   * of VRAM as 15-bit pixels when VRAM is shown, and otherwise the display
   * area (one field of it, every other line, when interlaced).
   */
  function DisplayCopy(showVram: bool, cmd: DisplayCommand): (r: Option<CopyRequest>)
    ensures r.None? <==> !showVram && cmd.displayDisabled
    ensures showVram ==> r == Some(CopyRequest(0, 0, 0, VRAM_WIDTH, VRAM_HEIGHT, 0, false))
    ensures r.Some? ==> (!r.value.is24Bit ==> r.value.skipX == 0) && r.value.lineSkip <= 1
    ensures r.Some? && !showVram ==>
      r.value.is24Bit == cmd.display24Bit && r.value.width == cmd.vramWidth &&
      r.value.height == (if cmd.interlaced then cmd.vramHeight / 2 else cmd.vramHeight)
    ensures r.Some? && !showVram ==>
      r.value.srcX == (if cmd.display24Bit then cmd.x else cmd.vramLeft) &&
      r.value.skipX == (if cmd.display24Bit then WrapU32(cmd.vramLeft - cmd.x) else 0)
    ensures r.Some? && !showVram ==>
      (r.value.lineSkip == 1 <==> cmd.interlaced && cmd.interleaved) &&
      r.value.srcY == WrapU32(cmd.vramTop + (if cmd.interlaced && cmd.interleaved && cmd.oddField then 1 else 0))
  {
    if showVram then Some(CopyRequest(0, 0, 0, VRAM_WIDTH, VRAM_HEIGHT, 0, false))
    else if cmd.displayDisabled then None
    else
      var field := if cmd.oddField then 1 else 0;
      var srcX := if cmd.display24Bit then cmd.x else cmd.vramLeft;
      var srcY := WrapU32(cmd.vramTop + (if cmd.interlaced && cmd.interleaved then field else 0));
      var skipX := if cmd.display24Bit then WrapU32(cmd.vramLeft - cmd.x) else 0;
      var height := if cmd.interlaced then cmd.vramHeight / 2 else cmd.vramHeight;
      var lineSkip := if cmd.interlaced && cmd.interleaved then 1 else 0;
      Some(CopyRequest(srcX, srcY, skipX, cmd.vramWidth, height, lineSkip, cmd.display24Bit))
  }

  /**
   * An interleaved interlaced display reads only the lines of the field shown
   * (line vramTop + field + 2 * row for output row `row`), and all of them
   * inside the display area.
   */
  lemma InterleavedReadsShownField(cmd: DisplayCommand, row: nat)
    requires !cmd.displayDisabled && cmd.interlaced && cmd.interleaved
    requires cmd.vramTop + cmd.vramHeight < U32_LIMIT
    requires row < cmd.vramHeight / 2
    ensures var r := DisplayCopy(false, cmd).value;
      var line := SourceRow(r.srcY, row, r.lineSkip);
      line == cmd.vramTop + (if cmd.oddField then 1 else 0) + 2 * row &&
      cmd.vramTop <= line < cmd.vramTop + cmd.vramHeight
  {
    assert Pow2(1) == 2;
  }

  /** A copied-out display: `dst` has the request's size and holds its pixels. */
  ghost predicate CopiedOut(vram: seq<u16>, convert: u16 -> u32, r: CopyRequest, dst: array2<u32>)
    requires IsVram(vram)
    reads dst
  {
    dst.Length0 == r.height && dst.Length1 == r.width &&
    (if r.is24Bit then Copied24(vram, r.srcX, r.srcY, r.skipX, r.lineSkip, dst)
     else Copied15(vram, convert, r.srcX, r.srcY, r.lineSkip, dst))
  }

  /** What a display update does to the texture shown. */
  datatype DisplayOutcome =
    | ClearDisplay
    | ShowTexture(texture: array2<u32>)

  /**
   * Updates the display: copies out what DisplayCopy selects and shows it.
   * A disabled display is cleared, and so is the display when no texture can
   * be had for the copy, since the texture fetch clears the display before it
   * fails. Deinterlacing and chroma smoothing of the texture shown are not
   * part of this model.
   */
  method UpdateDisplay(vram: seq<u16>, convert: u16 -> u32, showVram: bool, cmd: DisplayCommand, textureReady: bool)
    returns (outcome: DisplayOutcome)
    requires IsVram(vram)
    requires var r := DisplayCopy(showVram, cmd); r.Some? ==> r.value.srcX + r.value.width < U32_LIMIT
    ensures outcome.ClearDisplay? <==> DisplayCopy(showVram, cmd).None? || !textureReady
    ensures outcome.ShowTexture? <==> DisplayCopy(showVram, cmd).Some? && textureReady
    ensures outcome.ShowTexture? ==>
      fresh(outcome.texture) && CopiedOut(vram, convert, DisplayCopy(showVram, cmd).value, outcome.texture)
  {
    var request := DisplayCopy(showVram, cmd);
    if request.None? {
      return ClearDisplay;
    }
    var r := request.value;
    var dst := new u32[r.height, r.width];
    var ok := CopyOut(vram, convert, r.srcX, r.srcY, r.skipX, r.width, r.height, r.lineSkip, r.is24Bit, textureReady, dst);
    if ok {
      return ShowTexture(dst);
    }
    return ClearDisplay;
  }
}
