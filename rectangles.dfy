/**
 * Axis-aligned rectangles with exclusive right and bottom edges, as used by
 * the hardware renderer for VRAM bounds, dirty regions and the UV range of a
 * batch. Coordinates are unsigned 32-bit values in the renderer; every value
 * the model produces stays far below 2^32, so plain naturals are used.
 */
module Rectangles {
  import opened GpuTypes

  const U32_MAX: nat := 0xFFFF_FFFF

  datatype Rect = Rect(left: nat, top: nat, right: nat, bottom: nat)
  {
    /** A rectangle is valid when its edges are not crossed (it may be empty). */
    predicate Valid() {
      left <= right && top <= bottom
    }

    /** The point (x, y) lies inside the rectangle. */
    predicate Contains(x: int, y: int) {
      left <= x < right && top <= y < bottom
    }

    /** Every point of `r` lies inside this rectangle. */
    predicate Covers(r: Rect) {
      left <= r.left && r.right <= right && top <= r.top && r.bottom <= bottom
    }

    /** The two rectangles share at least one point. */
    predicate Intersects(r: Rect) {
      left < r.right && r.left < right && top < r.bottom && r.top < bottom
    }

    function Width(): int { right - left }
    function Height(): int { bottom - top }

    /** Grows the rectangle to cover the edges (l, r, t, b); argument order is left, right, top, bottom. */
    function Include(l: nat, r: nat, t: nat, b: nat): (res: Rect)
      ensures res.Covers(this)
      ensures res.Covers(Rect(l, t, r, b))
      ensures Valid() ==> res.Valid()
    {
      Rect(Min(left, l), Min(top, t), Max(right, r), Max(bottom, b))
    }

    /** Grows the rectangle to cover `r`. */
    function IncludeRect(r: Rect): (res: Rect)
      ensures res.Covers(this) && res.Covers(r)
      ensures Valid() ==> res.Valid()
    {
      Include(r.left, r.right, r.top, r.bottom)
    }

    /** Clamps every edge into [x1, x2] horizontally and [y1, y2] vertically. */
    function Clamped(x1: nat, y1: nat, x2: nat, y2: nat): (res: Rect)
      requires x1 <= x2 && y1 <= y2
      ensures Rect(x1, y1, x2, y2).Covers(res)
      ensures Valid() && Rect(x1, y1, x2, y2).Covers(this) ==> res == this
      ensures Valid() ==> res.Valid()
    {
      Rect(Clamp(left, x1, x2), Clamp(top, y1, y2), Clamp(right, x1, x2), Clamp(bottom, y1, y2))
    }

    /** Multiplies every edge by `s` (the resolution scale). */
    function Scaled(s: nat): (res: Rect)
    {
      Rect(left * s, top * s, right * s, bottom * s)
    }
  }

  /** Scaling multiplies the extent by the scale and keeps a valid rectangle valid. */
  lemma ScaledShape(r: Rect, s: nat)
    ensures r.Scaled(s).Width() == r.Width() * s && r.Scaled(s).Height() == r.Height() * s
    ensures r.Valid() ==> r.Scaled(s).Valid()
  {
    assert (r.right - r.left) * s == r.right * s - r.left * s;
    assert (r.bottom - r.top) * s == r.bottom * s - r.top * s;
    if r.Valid() {
      MulMonotone(r.left, r.right, s);
      MulMonotone(r.top, r.bottom, s);
    }
  }

  /** The rectangle with top-left corner (l, t) and the given extent. */
  function FromExtents(l: nat, t: nat, w: nat, h: nat): (r: Rect)
    ensures r.Valid() && r.left == l && r.top == t && r.Width() == w && r.Height() == h
  {
    Rect(l, t, l + w, t + h)
  }

  /**
   * The empty rectangle that any Include replaces: left and top at the
   * largest u32, right and bottom at zero.
   */
  const Invalid: Rect := Rect(U32_MAX, U32_MAX, 0, 0)

  function Min(a: int, b: int): int { if a < b then a else b }
  function Max(a: int, b: int): int { if a < b then b else a }
  function Clamp(v: int, lo: int, hi: int): int { if v < lo then lo else if v > hi then hi else v }

  /** The union is the smallest rectangle covering both: any rectangle covering the two covers it. */
  lemma IncludeIsLeast(a: Rect, l: nat, r: nat, t: nat, b: nat, q: Rect)
    requires q.Covers(a) && q.Covers(Rect(l, t, r, b))
    ensures q.Covers(a.Include(l, r, t, b))
  {
  }

  /** Including a rectangle of u32 edges into the invalid rectangle yields that rectangle. */
  lemma IncludeIntoInvalid(l: nat, r: nat, t: nat, b: nat)
    requires l <= U32_MAX && t <= U32_MAX
    ensures Invalid.Include(l, r, t, b) == Rect(l, t, r, b)
  {
  }

  /** The invalid rectangle intersects no rectangle whose right and bottom edges fit in a u32. */
  lemma InvalidIntersectsNothing(q: Rect)
    requires q.right <= U32_MAX && q.bottom <= U32_MAX
    ensures !Invalid.Intersects(q) && !q.Intersects(Invalid)
  {
  }

  /** Growing a rectangle keeps every intersection it had. */
  lemma CoversPreservesIntersection(big: Rect, small: Rect, q: Rect)
    requires big.Covers(small) && small.Intersects(q)
    ensures big.Intersects(q) && q.Intersects(big)
  {
  }
}
