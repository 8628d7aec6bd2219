/**
 * The scissor rectangle of one draw command (src/lib.rs:171-174, 193-198).
 * Clip rectangles come from nuklear with a top-left origin; glium's `Rect`
 * counts `bottom` from the bottom edge of the framebuffer, which is `hh`
 * pixels high. Coordinates are integers and the scale an integer factor
 * per axis; `as u32` saturates.
 */
module Scissoring {

  const U32_MAX: int := 0xFFFF_FFFF

  /** A clip rectangle, top-left origin. */
  datatype ClipRect = ClipRect(x: int, y: int, w: int, h: int)

  datatype Scale = Scale(sx: int, sy: int)

  /** glium's scissor `Rect`, bottom-left origin. */
  datatype Rect = Rect(left: int, bottom: int, width: int, height: int)

  /** `v as u32`: negative values become 0, values above the range become `U32_MAX`. */
  function CastU32(v: int): (r: int)
    ensures 0 <= r <= U32_MAX
    ensures 0 <= v <= U32_MAX ==> r == v
  {
    if v < 0 then 0 else if v > U32_MAX then U32_MAX else v
  }

  function Max(a: int, b: int): int
  {
    if a < b then b else a
  }

  /** The clip rectangle multiplied by the content scale. */
  function Scaled(c: ClipRect, s: Scale): ClipRect
  {
    ClipRect(c.x * s.sx, c.y * s.sy, c.w * s.sx, c.h * s.sy)
  }

  predicate InSpan(lo: int, len: int, p: int)
  {
    lo <= p < lo + len
  }

  /** Pixel `(px, py)`, counted from the bottom-left corner, lies in the scissor rectangle. */
  predicate InRect(r: Rect, px: int, py: int)
  {
    InSpan(r.left, r.width, px) && InSpan(r.bottom, r.height, py)
  }

  /**
   * Pixel `(px, py)`, counted from the bottom-left corner of a framebuffer
   * `hh` rows high, lies in clip rectangle `k`: row `py` from the bottom is
   * row `hh - 1 - py` from the top.
   */
  predicate InClip(k: ClipRect, hh: int, px: int, py: int)
  {
    InSpan(k.x, k.w, px) && InSpan(k.y, k.h, hh - 1 - py)
  }

  /** No horizontal value of the computation exceeds the u32 range. */
  predicate FitsHorizontally(k: ClipRect)
  {
    k.x <= U32_MAX && k.x + k.w <= U32_MAX
  }

  /** No vertical value of the computation exceeds the u32 range. */
  predicate FitsVertically(k: ClipRect, hh: int)
  {
    hh <= U32_MAX && hh - k.y - k.h <= U32_MAX
  }

  /** The rectangle exactly as the source computes it. Every field is a u32. */
  function ScissorAsWritten(c: ClipRect, s: Scale, hh: nat): (r: Rect)
    ensures 0 <= r.left <= U32_MAX && 0 <= r.bottom <= U32_MAX
    ensures 0 <= r.width <= U32_MAX && 0 <= r.height <= U32_MAX
  {
    var k := Scaled(c, s);
    Rect(CastU32(if k.x < 0 then 0 else k.x),
         CastU32(if k.y < 0 then 0 else hh - k.y - k.h),
         CastU32(if k.x < 0 then k.w + k.x else k.w),
         CastU32(if k.y < 0 then k.h + k.y else k.h))
  }

  /**
   * Horizontally the source's rectangle is right: the columns it covers are
   * the clip rectangle's columns that are not left of the framebuffer.
   */
  lemma AsWrittenColumnsAreExact(c: ClipRect, s: Scale, hh: nat)
    requires FitsHorizontally(Scaled(c, s))
    ensures var r, k := ScissorAsWritten(c, s, hh), Scaled(c, s);
      forall px | 0 <= px :: InSpan(r.left, r.width, px) <==> InSpan(k.x, k.w, px)
  {
  }

  /**
   * The rectangle the source evidently intends: the part of the clip
   * rectangle that lies inside the framebuffer's left, top and bottom
   * edges. Left and width are computed as in the source; the bottom edge is
   * `hh - y - h` whatever the sign of `y`, clamped at 0, and the height runs
   * from there up to the clip's top edge or the framebuffer's, whichever is
   * lower.
   */
  function Scissor(c: ClipRect, s: Scale, hh: nat): (r: Rect)
    ensures 0 <= r.left <= U32_MAX && 0 <= r.bottom <= U32_MAX
    ensures 0 <= r.width <= U32_MAX && 0 <= r.height <= U32_MAX
    ensures var k := Scaled(c, s);
      FitsHorizontally(k) && FitsVertically(k, hh) ==>
        forall px, py | 0 <= px && 0 <= py :: InRect(r, px, py) <==> InClip(k, hh, px, py) && py < hh
  {
    var k := Scaled(c, s);
    var left := Max(k.x, 0);
    var bottom := Max(hh - k.y - k.h, 0);
    var top := hh - Max(k.y, 0);
    Rect(CastU32(left), CastU32(bottom), CastU32(k.x + k.w - left), CastU32(top - bottom))
  }

  /**
   * The two agree whenever the clip rectangle lies vertically inside the
   * framebuffer, including every case with `x < 0`.
   */
  lemma ScissorAgreesInsideFramebuffer(c: ClipRect, s: Scale, hh: nat)
    requires 0 <= Scaled(c, s).y && Scaled(c, s).y + Scaled(c, s).h <= hh
    ensures Scissor(c, s, hh) == ScissorAsWritten(c, s, hh)
  {
  }

  /** Clip `(-10, 5, 50, 20)` at scale 1: left clamped to 0, width reduced to 40. */
  lemma NegativeLeftEdgeExample(hh: nat)
    requires 25 <= hh <= U32_MAX
    ensures ScissorAsWritten(ClipRect(-10, 5, 50, 20), Scale(1, 1), hh) == Rect(0, hh - 25, 40, 20)
    ensures Scissor(ClipRect(-10, 5, 50, 20), Scale(1, 1), hh) == Rect(0, hh - 25, 40, 20)
  {
  }

  /**
   * A clip rectangle that starts above the framebuffer (y = -10, h = 100,
   * hh = 600): the source puts the scissor at the bottom of the framebuffer,
   * so a visible pixel of the clip is cut and a pixel outside it is kept.
   */
  lemma AsWrittenMisplacesTopClippedRect()
    ensures var c, s := ClipRect(0, -10, 10, 100), Scale(1, 1);
      && FitsHorizontally(Scaled(c, s)) && FitsVertically(Scaled(c, s), 600)
      && InClip(Scaled(c, s), 600, 0, 520) && !InRect(ScissorAsWritten(c, s, 600), 0, 520)
      && InRect(ScissorAsWritten(c, s, 600), 0, 0) && !InClip(Scaled(c, s), 600, 0, 0)
  {
  }

  /**
   * A clip rectangle that runs past the bottom of the framebuffer (y = 550,
   * h = 100, hh = 600): `bottom` saturates to 0 but the height is not
   * reduced, so the scissor reaches 50 rows above the clip's top edge.
   */
  lemma AsWrittenOverreachesPastBottom()
    ensures var c, s := ClipRect(0, 550, 10, 100), Scale(1, 1);
      && FitsHorizontally(Scaled(c, s)) && FitsVertically(Scaled(c, s), 600)
      && InRect(ScissorAsWritten(c, s, 600), 0, 60) && !InClip(Scaled(c, s), 600, 0, 60)
  {
  }
}
