/**
 * Splitting of a rectangle primitive at texture-page boundaries. The texture
 * page repeats every 256 texels, so a rectangle is drawn as a grid of
 * sub-quads whose texture coordinates each stay inside one page: the first
 * column (row) starts at the rectangle's own texture coordinate, every later
 * one at zero.
 */
module RectangleSplit {
  import opened GpuTypes

  /** One column (or row) of the grid: where it starts, how long it is, and its first texel. */
  datatype Span = Span(offset: nat, length: nat, texStart: nat)
  {
    function TexEnd(): nat { texStart + length }
  }

  /**
   * The spans covering `len` pixels from `offset` on, starting at texel
   * `texStart` of the page: each runs to the end of the page or of the
   * rectangle, whichever comes first.
   */
  function Spans(texStart: nat, len: nat, offset: nat): (s: seq<Span>)
    requires texStart < TEXTURE_PAGE_WIDTH
    ensures |s| == 0 <==> len == 0
    decreases len
  {
    if len == 0 then []
    else
      var q := if len < TEXTURE_PAGE_WIDTH - texStart then len else TEXTURE_PAGE_WIDTH - texStart;
      [Span(offset, q, texStart)] + Spans(0, len - q, offset + q)
  }

  /** The spans tile [offset, offset + len) in order, and each stays inside one texture page. */
  predicate Tiles(s: seq<Span>, texStart: nat, len: nat, offset: nat) {
    (len == 0 <==> |s| == 0) &&
    (|s| > 0 ==> s[0].offset == offset && s[0].texStart == texStart &&
                 s[|s| - 1].offset + s[|s| - 1].length == offset + len) &&
    (forall i :: 0 <= i < |s| ==> s[i].length >= 1 && s[i].TexEnd() <= TEXTURE_PAGE_WIDTH) &&
    (forall i :: 0 < i < |s| ==> s[i].texStart == 0) &&
    (forall i :: 0 <= i < |s| - 1 ==> s[i + 1].offset == s[i].offset + s[i].length)
  }

  /** Every span covers at least one texel and stays inside one texture page. */
  predicate SpansInPage(s: seq<Span>) {
    forall i :: 0 <= i < |s| ==> s[i].length >= 1 && s[i].TexEnd() <= TEXTURE_PAGE_WIDTH
  }

  /**
   * The loop that walks the spans: once `done` are behind, the next span runs
   * from `offset` to the end of the page or of the rectangle, whichever comes
   * first, and the rest start at texel zero.
   */
  lemma SpansStep(all: seq<Span>, done: seq<Span>, texStart: nat, len: nat, offset: nat, q: nat)
    requires texStart < TEXTURE_PAGE_WIDTH && len > 0 && all == done + Spans(texStart, len, offset)
    requires q == if len < TEXTURE_PAGE_WIDTH - texStart then len else TEXTURE_PAGE_WIDTH - texStart
    ensures |done| < |all| && 1 <= q <= len && texStart + q <= TEXTURE_PAGE_WIDTH
    ensures all == (done + [Span(offset, q, texStart)]) + Spans(0, len - q, offset + q)
  {
    var rest := Spans(0, len - q, offset + q);
    assert Spans(texStart, len, offset) == [Span(offset, q, texStart)] + rest;
    assert all == (done + [Span(offset, q, texStart)]) + rest;
  }

  /** The total length of the spans. */
  function TotalLength(s: seq<Span>): nat {
    if |s| == 0 then 0 else s[0].length + TotalLength(s[1..])
  }

  /** The spans tile the rectangle's extent in order, each inside one texture page. */
  lemma {:induction false} SpansTile(texStart: nat, len: nat, offset: nat)
    requires texStart < TEXTURE_PAGE_WIDTH
    ensures Tiles(Spans(texStart, len, offset), texStart, len, offset)
    decreases len
  {
    if len > 0 {
      var q := if len < TEXTURE_PAGE_WIDTH - texStart then len else TEXTURE_PAGE_WIDTH - texStart;
      SpansTile(0, len - q, offset + q);
      var rest := Spans(0, len - q, offset + q);
      assert Spans(texStart, len, offset) == [Span(offset, q, texStart)] + rest;
      TilesConsAt(Span(offset, q, texStart), rest, Spans(texStart, len, offset), len);
    }
  }

  /** TilesCons, stated for a sequence known to be the head followed by the rest. */
  lemma TilesConsAt(head: Span, rest: seq<Span>, s: seq<Span>, len: nat)
    requires head.length >= 1 && head.TexEnd() <= TEXTURE_PAGE_WIDTH && head.length <= len
    requires Tiles(rest, 0, len - head.length, head.offset + head.length) && s == [head] + rest
    ensures Tiles(s, head.texStart, len, head.offset)
  {
    TilesCons(head, rest, len - head.length);
  }

  /** The spans' lengths add up to the rectangle's extent. */
  lemma {:induction false} SpansTotal(texStart: nat, len: nat, offset: nat)
    requires texStart < TEXTURE_PAGE_WIDTH
    ensures TotalLength(Spans(texStart, len, offset)) == len
    decreases len
  {
    if len > 0 {
      var q := if len < TEXTURE_PAGE_WIDTH - texStart then len else TEXTURE_PAGE_WIDTH - texStart;
      SpansTotal(0, len - q, offset + q);
      var rest := Spans(0, len - q, offset + q);
      assert Spans(texStart, len, offset) == [Span(offset, q, texStart)] + rest;
      assert ([Span(offset, q, texStart)] + rest)[1..] == rest;
    }
  }

  /** Prepending a span that ends where a tiling starts extends the tiling. */
  lemma TilesCons(head: Span, rest: seq<Span>, restLen: nat)
    requires head.length >= 1 && head.TexEnd() <= TEXTURE_PAGE_WIDTH
    requires Tiles(rest, 0, restLen, head.offset + head.length)
    ensures Tiles([head] + rest, head.texStart, head.length + restLen, head.offset)
  {
    var s := [head] + rest;
    forall i | 0 < i < |s| ensures s[i].texStart == 0 {
      assert s[i] == rest[i - 1];
    }
    forall i | 0 <= i < |s| - 1 ensures s[i + 1].offset == s[i].offset + s[i].length {
      if i > 0 {
        assert s[i] == rest[i - 1] && s[i + 1] == rest[i];
      }
    }
    forall i | 0 <= i < |s| ensures s[i].length >= 1 && s[i].TexEnd() <= TEXTURE_PAGE_WIDTH {
      if i > 0 {
        assert s[i] == rest[i - 1];
      }
    }
  }

  /** A rectangle reaching `texStart + len` texels needs at most ceil((texStart + len) / 256) spans. */
  lemma {:induction false} SpanCount(texStart: nat, len: nat, offset: nat)
    requires texStart < TEXTURE_PAGE_WIDTH
    ensures |Spans(texStart, len, offset)| * TEXTURE_PAGE_WIDTH <= texStart + len + (TEXTURE_PAGE_WIDTH - 1)
    decreases len
  {
    if len > 0 {
      var q := if len < TEXTURE_PAGE_WIDTH - texStart then len else TEXTURE_PAGE_WIDTH - texStart;
      SpanCount(0, len - q, offset + q);
    }
  }

  /** One sub-quad: its position relative to the rectangle and its texel range. */
  datatype SubQuad = SubQuad(xOffset: nat, yOffset: nat, width: nat, height: nat,
                             texLeft: nat, texTop: nat, texRight: nat, texBottom: nat)

  function QuadOf(col: Span, row: Span): SubQuad {
    SubQuad(col.offset, row.offset, col.length, row.length, col.texStart, row.texStart, col.TexEnd(), row.TexEnd())
  }

  /** The sub-quads of one row, left to right. */
  function RowQuads(cols: seq<Span>, row: Span): (qs: seq<SubQuad>)
    ensures |qs| == |cols|
    ensures forall i :: 0 <= i < |cols| ==> qs[i] == QuadOf(cols[i], row)
  {
    if |cols| == 0 then [] else [QuadOf(cols[0], row)] + RowQuads(cols[1..], row)
  }

  /** The sub-quads of all rows, top to bottom, each row left to right. */
  function GridQuads(cols: seq<Span>, rows: seq<Span>): seq<SubQuad>
  {
    if |rows| == 0 then [] else RowQuads(cols, rows[0]) + GridQuads(cols, rows[1..])
  }

  /** The grid has one quad per column of every row. */
  lemma {:induction false} GridQuadsLength(cols: seq<Span>, rows: seq<Span>)
    ensures |GridQuads(cols, rows)| == |cols| * |rows|
    decreases |rows|
  {
    if |rows| > 0 {
      GridQuadsLength(cols, rows[1..]);
      assert |cols| * |rows| == |cols| + |cols| * |rows[1..]|;
    }
  }

  /** Adding a row at the bottom adds its quads at the end. */
  lemma {:induction false} GridQuadsSnoc(cols: seq<Span>, rows: seq<Span>, row: Span)
    ensures GridQuads(cols, rows + [row]) == GridQuads(cols, rows) + RowQuads(cols, row)
    decreases |rows|
  {
    if |rows| == 0 {
      assert rows + [row] == [row];
      assert [row][1..] == [];
    } else {
      assert (rows + [row])[1..] == rows[1..] + [row];
      GridQuadsSnoc(cols, rows[1..], row);
    }
  }

  /** Adding a column at the right adds its quad at the end of the row. */
  lemma RowQuadsSnoc(cols: seq<Span>, col: Span, row: Span)
    ensures RowQuads(cols + [col], row) == RowQuads(cols, row) + [QuadOf(col, row)]
  {
    assert forall i :: 0 <= i < |cols| ==> (cols + [col])[i] == cols[i];
  }

  /** One column of the inner loop: the next span, and the sub-quad it adds to the row. */
  lemma ColumnStep(cols: seq<Span>, done: seq<Span>, texStart: nat, len: nat, offset: nat, q: nat, row: Span)
    requires texStart < TEXTURE_PAGE_WIDTH && len > 0 && cols == done + Spans(texStart, len, offset)
    requires q == if len < TEXTURE_PAGE_HEIGHT - texStart then len else TEXTURE_PAGE_HEIGHT - texStart
    ensures 1 <= q <= len
    ensures cols == (done + [Span(offset, q, texStart)]) + Spans(0, len - q, offset + q)
    ensures RowQuads(done + [Span(offset, q, texStart)], row)
         == RowQuads(done, row) + [SubQuad(offset, row.offset, q, row.length, texStart, row.texStart, texStart + q, row.TexEnd())]
  {
    SpansStep(cols, done, texStart, len, offset, q);
    RowQuadsSnoc(done, Span(offset, q, texStart), row);
  }

  /** The sub-quads of a width x height rectangle whose top-left texel is (texLeft, texTop). */
  function RectangleQuads(texLeft: u8, texTop: u8, width: nat, height: nat): seq<SubQuad>
  {
    GridQuads(Spans(texLeft, width, 0), Spans(texTop, height, 0))
  }

  /**
   * The renderer's split loops: rows top to bottom and, in each row, columns
   * left to right, each running to the end of the texture page or of the
   * rectangle. Positions are relative to the rectangle's top-left corner.
   */
  method SplitRectangle(texLeft: u8, texTop: u8, width: nat, height: nat) returns (qs: seq<SubQuad>)
    ensures qs == RectangleQuads(texLeft, texTop, width, height)
  {
    ghost var cols, rows := Spans(texLeft, width, 0), Spans(texTop, height, 0);
    qs := [];
    var yOffset: nat, rowTexTop: nat := 0, texTop;
    ghost var doneRows: seq<Span> := [];
    while yOffset < height
      invariant yOffset <= height && rowTexTop < TEXTURE_PAGE_WIDTH
      invariant rows == doneRows + Spans(rowTexTop, height - yOffset, yOffset)
      invariant qs == GridQuads(cols, doneRows)
      decreases height - yOffset
    {
      var quadHeight: nat := if height - yOffset < TEXTURE_PAGE_WIDTH - rowTexTop then height - yOffset
                             else TEXTURE_PAGE_WIDTH - rowTexTop;
      SpansStep(rows, doneRows, rowTexTop, height - yOffset, yOffset, quadHeight);
      var row := Span(yOffset, quadHeight, rowTexTop);
      var rowQuads := SplitRow(texLeft, width, row);
      GridQuadsSnoc(cols, doneRows, row);
      qs := qs + rowQuads;
      doneRows := doneRows + [row];
      yOffset := yOffset + quadHeight;
      rowTexTop := 0;
    }
    assert doneRows == rows;
  }

  /** The inner loop: the sub-quads of one row, column by column, each running to the end of the page or of the rectangle. */
  method SplitRow(texLeft: u8, width: nat, row: Span) returns (rowQuads: seq<SubQuad>)
    ensures rowQuads == RowQuads(Spans(texLeft, width, 0), row)
  {
    ghost var cols := Spans(texLeft, width, 0);
    var texBottom := row.TexEnd();
    rowQuads := [];
    var xOffset: nat, colTexLeft: nat := 0, texLeft;
    ghost var doneCols: seq<Span> := [];
    while xOffset < width
      invariant xOffset <= width && colTexLeft < TEXTURE_PAGE_HEIGHT
      invariant cols == doneCols + Spans(colTexLeft, width - xOffset, xOffset)
      invariant rowQuads == RowQuads(doneCols, row)
      decreases width - xOffset
    {
      var quadWidth: nat := if width - xOffset < TEXTURE_PAGE_HEIGHT - colTexLeft then width - xOffset
                            else TEXTURE_PAGE_HEIGHT - colTexLeft;
      var texRight := colTexLeft + quadWidth;
      ColumnStep(cols, doneCols, colTexLeft, width - xOffset, xOffset, quadWidth, row);
      rowQuads := rowQuads + [SubQuad(xOffset, row.offset, quadWidth, row.length, colTexLeft, row.texStart, texRight, texBottom)];
      doneCols := doneCols + [Span(xOffset, quadWidth, colTexLeft)];
      xOffset := xOffset + quadWidth;
      colTexLeft := 0;
    }
    assert doneCols == cols;
  }

  /**
   * A rectangle that passed the size cull needs at most
   * MAX_VERTICES_FOR_RECTANGLE vertices, six per sub-quad.
   */
  lemma RectangleFitsReservedSpace(texLeft: u8, texTop: u8, width: nat, height: nat)
    requires width < MAX_PRIMITIVE_WIDTH && height < MAX_PRIMITIVE_HEIGHT
    ensures 6 * |RectangleQuads(texLeft, texTop, width, height)| <= MAX_VERTICES_FOR_RECTANGLE
  {
    var cols := Spans(texLeft, width, 0);
    var rows := Spans(texTop, height, 0);
    RectangleGridBounds(texLeft, texTop, width, height);
    GridQuadsLength(cols, rows);
    BoundedProduct(|cols|, |rows|, 5, 3);
  }

  /** A rectangle that passed the size cull has at most five columns and three rows of sub-quads. */
  lemma RectangleGridBounds(texLeft: u8, texTop: u8, width: nat, height: nat)
    requires width < MAX_PRIMITIVE_WIDTH && height < MAX_PRIMITIVE_HEIGHT
    ensures |Spans(texLeft, width, 0)| <= 5 && |Spans(texTop, height, 0)| <= 3
  {
    SpanCount(texLeft, width, 0);
    SpanCount(texTop, height, 0);
  }

  /** Every sub-quad's texels stay within one page and cover at least one texel each way. */
  lemma QuadsStayInPage(texLeft: u8, texTop: u8, width: nat, height: nat, i: nat)
    requires i < |RectangleQuads(texLeft, texTop, width, height)|
    ensures var q := RectangleQuads(texLeft, texTop, width, height)[i];
      q.texLeft < q.texRight <= TEXTURE_PAGE_WIDTH && q.texTop < q.texBottom <= TEXTURE_PAGE_HEIGHT &&
      q.texRight - q.texLeft == q.width && q.texBottom - q.texTop == q.height &&
      q.xOffset + q.width <= width && q.yOffset + q.height <= height
  {
    var cols := Spans(texLeft, width, 0);
    var rows := Spans(texTop, height, 0);
    SpansTile(texLeft, width, 0);
    SpansTile(texTop, height, 0);
    TiledEnds(cols, texLeft, width, 0);
    TiledEnds(rows, texTop, height, 0);
    GridQuadsMember(cols, rows, i);
  }

  lemma {:induction false} GridQuadsMember(cols: seq<Span>, rows: seq<Span>, i: nat)
    requires i < |GridQuads(cols, rows)|
    ensures exists c, r :: 0 <= c < |cols| && 0 <= r < |rows| && GridQuads(cols, rows)[i] == QuadOf(cols[c], rows[r])
    decreases |rows|
  {
    var head := RowQuads(cols, rows[0]);
    if i < |head| {
      assert GridQuads(cols, rows)[i] == QuadOf(cols[i], rows[0]);
    } else {
      GridQuadsMember(cols, rows[1..], i - |head|);
      var c, r :| 0 <= c < |cols| && 0 <= r < |rows[1..]| && GridQuads(cols, rows[1..])[i - |head|] == QuadOf(cols[c], rows[1..][r]);
      assert GridQuads(cols, rows)[i] == QuadOf(cols[c], rows[r + 1]);
    }
  }

  /** Every span of a tiling ends within the tiled range. */
  lemma {:induction false} TiledEnds(s: seq<Span>, texStart: nat, len: nat, offset: nat)
    requires Tiles(s, texStart, len, offset)
    ensures forall i :: 0 <= i < |s| ==> offset <= s[i].offset && s[i].offset + s[i].length <= offset + len
  {
    if |s| > 0 {
      var k := |s| - 1;
      while k > 0
        invariant 0 <= k < |s|
        invariant forall i :: k <= i < |s| ==> s[i].offset + s[i].length <= offset + len
        decreases k
      {
        assert s[k].offset == s[k - 1].offset + s[k - 1].length;
        k := k - 1;
      }
      var j := 0;
      while j < |s|
        invariant 0 <= j <= |s|
        invariant forall i :: 0 <= i < j ==> offset <= s[i].offset
      {
        if j > 0 {
          assert s[j].offset == s[j - 1].offset + s[j - 1].length;
        }
        j := j + 1;
      }
    }
  }
}
