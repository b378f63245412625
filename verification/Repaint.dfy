// The cursor-only fast path: repainting the dirty rectangle of a moved cursor leaves the frame
// that a full repaint would (compositor/src/compositor.rs, compositor/src/framebuffer_backend.rs).
module Repaint {
  import opened Options
  import opened Arithmetic
  import opened Geometry
  import opened Pixel
  import opened Scene

  // --- When the fill loops honour their clip --------------------------------------------------

  // The clipped rectangle starts on the screen, or reaches the far edge anyway.
  predicate AxisExact(lo: int, length: nat, bound: nat) {
    0 <= lo || bound <= lo + length
  }

  lemma SpanOnAxis(lo: int, length: nat, bound: nat, v: int)
    requires 0 <= v < bound
    ensures lo <= v < lo + length ==> InSpan(lo, length, bound, v)
    ensures AxisExact(lo, length, bound) ==> (InSpan(lo, length, bound, v) <==> lo <= v < lo + length)
  {
  }

  // A rectangle clipped to a non-negative clip paints exactly its pixels inside the clip.
  lemma SpanHonoursClip(rect: Rect, clip: Clip, s: Screen, x: int, y: int)
    requires OnScreen(s, x, y)
    requires clip.Some? && 0 <= clip.value.x && 0 <= clip.value.y
    ensures SpanCovers(rect, clip, s, x, y) <==> Inside(rect, x, y) && InClip(clip, x, y)
  {
    var r := ApplyClip(rect, clip);
    if r.Some? {
      SpanOnAxis(r.value.x, r.value.width, s.width, x);
      SpanOnAxis(r.value.y, r.value.height, s.height, y);
    }
  }

  // Exactly when the loops honour the clipped rectangle r on the whole screen: it is off screen
  // to the right or below, or exact on both axes.
  predicate SpanExact(r: Rect, s: Screen) {
    || s.width <= r.x || s.height <= r.y
    || (AxisExact(r.x, r.width, s.width) && AxisExact(r.y, r.height, s.height))
  }

  lemma SpanHonoursRectIff(r: Rect, s: Screen)
    requires 0 < r.width && 0 < r.height && 0 < s.width && 0 < s.height
    ensures SpanExact(r, s)
       <==> (forall x, y | OnScreen(s, x, y) :: SpanCovers(r, None, s, x, y) <==> Inside(r, x, y))
  {
    forall x, y | OnScreen(s, x, y)
      ensures SpanExact(r, s) ==> (SpanCovers(r, None, s, x, y) <==> Inside(r, x, y))
    {
      SpanOnAxis(r.x, r.width, s.width, x);
      SpanOnAxis(r.y, r.height, s.height, y);
    }
    if !SpanExact(r, s) {
      // The last painted pixel is outside the rectangle.
      var x, y := SpanTo(r.x, r.width, s.width) - 1, SpanTo(r.y, r.height, s.height) - 1;
      assert OnScreen(s, x, y) && SpanCovers(r, None, s, x, y) && !Inside(r, x, y);
    }
  }

  // A clip entry restricts drawing to both rectangles exactly when they overlap: an empty
  // intersection is stored as None, which clips nothing.
  lemma PushNestsIff(parent: Rect, rect: Rect)
    ensures (exists x, y :: Inside(parent, x, y) && Inside(rect, x, y))
       <==> (forall x, y :: InClip(PushClip(Some(parent), rect), x, y)
                            <==> Inside(parent, x, y) && Inside(rect, x, y))
  {
    var c := PushClip(Some(parent), rect);
    if c.Some? {
      assert Inside(parent, c.value.x, c.value.y) && Inside(rect, c.value.x, c.value.y);
    } else {
      assert InClip(c, 0, 0) && !(Inside(parent, 0, 0) && Inside(rect, 0, 0));
    }
  }

  // --- Conditions on a scene ------------------------------------------------------------------

  // Every ClipPush overlaps the clip it is pushed on.
  predicate PushesOverlap(items: seq<Item>, root: Rect) {
    items == []
    || (&& PushesOverlap(items[..|items| - 1], root)
        && (items[|items| - 1].ClipPush? ==> Top(StackAfter(items, [Some(root)])).Some?))
  }

  predicate ClearsOpaque(items: seq<Item>) {
    forall k | 0 <= k < |items| :: items[k].Clear? ==> items[k].color.a == 255
  }

  // --- The clip stacks of the two repaints ----------------------------------------------------

  // The two clips agree on a pixel, and neither starts off screen.
  ghost predicate ClipsAgree(full: Clip, part: Clip, dirty: Rect, x: int, y: int) {
    && full.Some? && 0 <= full.value.x && 0 <= full.value.y
    && part.Some? && 0 <= part.value.x && 0 <= part.value.y
    && (Inside(part.value, x, y) <==> Inside(full.value, x, y) && Inside(dirty, x, y))
  }

  ghost predicate StacksAgree(full: seq<Clip>, part: seq<Clip>, dirty: Rect, x: int, y: int) {
    && |full| == |part| && 1 <= |full|
    && forall k | 0 <= k < |full| :: ClipsAgree(full[k], part[k], dirty, x, y)
  }

  lemma PushAgrees(full: Clip, part: Clip, rect: Rect, dirty: Rect, x: int, y: int)
    requires ClipsAgree(full, part, dirty, x, y)
    requires PushClip(full, rect).Some? && PushClip(part, rect).Some?
    ensures ClipsAgree(PushClip(full, rect), PushClip(part, rect), dirty, x, y)
  {
  }

  lemma {:induction false} StacksStayAgreed(items: seq<Item>, dirty: Rect, s: Screen, x: int, y: int)
    requires OnScreen(s, x, y) && 0 <= dirty.x && 0 <= dirty.y
    requires PushesOverlap(items, dirty) && PushesOverlap(items, ScreenRect(s))
    ensures StacksAgree(StackAfter(items, [Some(ScreenRect(s))]), StackAfter(items, [Some(dirty)]), dirty, x, y)
  {
    if items != [] {
      var before := items[..|items| - 1];
      StacksStayAgreed(before, dirty, s, x, y);
      var item := items[|items| - 1];
      if item.ClipPush? {
        var full, part := StackAfter(before, [Some(ScreenRect(s))]), StackAfter(before, [Some(dirty)]);
        assert StackAfter(items, [Some(ScreenRect(s))]) == full + [PushClip(Top(full), item.rect)];
        assert StackAfter(items, [Some(dirty)]) == part + [PushClip(Top(part), item.rect)];
        PushAgrees(Top(full), Top(part), item.rect, dirty, x, y);
      }
    }
  }

  // A primitive drawn under agreeing clips does the same to a dirty pixel and nothing to a clean one.
  lemma DrawnAgrees(item: Item, full: Clip, part: Clip, dirty: Rect, s: Screen, x: int, y: int, v: Argb)
    requires OnScreen(s, x, y) && ClipsAgree(full, part, dirty, x, y)
    ensures Inside(dirty, x, y) ==> Drawn(item, part, s, x, y, v) == Drawn(item, full, s, x, y, v)
    ensures !Inside(dirty, x, y) ==> Drawn(item, part, s, x, y, v) == v
  {
    if item.FillRect? || item.HatchRect? || item.BlitImage? {
      SpanHonoursClip(item.rect, full, s, x, y);
      SpanHonoursClip(item.rect, part, s, x, y);
    }
  }

  // --- Repainting -----------------------------------------------------------------------------

  // A pixel outside the dirty rectangle keeps its value.
  lemma {:induction false} CleanPixelKept(items: seq<Item>, dirty: Rect, s: Screen, x: int, y: int, v: Argb)
    requires OnScreen(s, x, y) && 0 <= dirty.x && 0 <= dirty.y
    requires PushesOverlap(items, dirty) && PushesOverlap(items, ScreenRect(s))
    requires !Inside(dirty, x, y)
    ensures PartialPixel(items, dirty, s, x, y, v) == v
  {
    if items != [] {
      var before, item := items[..|items| - 1], items[|items| - 1];
      CleanPixelKept(before, dirty, s, x, y, v);
      StacksStayAgreed(before, dirty, s, x, y);
      var full, part := StackAfter(before, [Some(ScreenRect(s))]), StackAfter(before, [Some(dirty)]);
      DrawnAgrees(item, Top(full), Top(part), dirty, s, x, y, v);
      SpanHonoursClip(dirty, Some(dirty), s, x, y);
    }
  }

  // A pixel inside the dirty rectangle ends as in a full repaint, whatever was there before.
  lemma {:induction false} DirtyPixelRepainted(items: seq<Item>, dirty: Rect, s: Screen, x: int, y: int, v: Argb)
    requires OnScreen(s, x, y) && 0 <= dirty.x && 0 <= dirty.y
    requires PushesOverlap(items, dirty) && PushesOverlap(items, ScreenRect(s))
    requires ClearsOpaque(items) && items != [] && items[0].Clear?
    requires Inside(dirty, x, y)
    ensures PartialPixel(items, dirty, s, x, y, v) == FullPixel(items, s, x, y)
  {
    var before, item := items[..|items| - 1], items[|items| - 1];
    SpanHonoursClip(dirty, Some(dirty), s, x, y);
    if before != [] {
      DirtyPixelRepainted(before, dirty, s, x, y, v);
      StacksStayAgreed(before, dirty, s, x, y);
      var full, part := StackAfter(before, [Some(ScreenRect(s))]), StackAfter(before, [Some(dirty)]);
      DrawnAgrees(item, Top(full), Top(part), dirty, s, x, y, FullPixel(before, s, x, y));
    }
  }

  // --- The cursor -----------------------------------------------------------------------------

  // A frame: the cleared screen, the content, and the cursor if it is visible.
  function Frame(content: seq<Item>, cursor: Option<Item>): seq<Item> {
    [Clear(CLEAR_COLOR)] + content + (if cursor.Some? then [cursor.value] else [])
  }

  predicate CursorOrNone(cursor: Option<Item>) { cursor.Some? ==> cursor.value.DrawCursor? }

  // What `tick` compares to decide whether the cursor moved: its rectangle, or nothing.
  function CursorPlace(cursor: Option<Item>): Option<Rect>
    requires CursorOrNone(cursor)
  {
    if cursor.Some? then Some(CursorRect(cursor.value)) else None
  }

  // The dirty rectangle of `tick`: both cursor rectangles, or the one there is.
  function DirtyRect(prev: Option<Item>, curr: Option<Item>): Rect
    requires CursorOrNone(prev) && CursorOrNone(curr)
  {
    if prev.Some? then
      if curr.Some? then Union(CursorRect(prev.value), CursorRect(curr.value)) else CursorRect(prev.value)
    else if curr.Some? then CursorRect(curr.value)
    else Rect(0, 0, 0, 0)
  }

  // A pixel outside the cursor's rectangle shows the frame without it.
  lemma CursorOnlyInItsRect(content: seq<Item>, cursor: Option<Item>, s: Screen, x: int, y: int)
    requires CursorOrNone(cursor)
    requires cursor.Some? ==> !Inside(CursorRect(cursor.value), x, y)
    ensures FullPixel(Frame(content, cursor), s, x, y) == FullPixel(Frame(content, None), s, x, y)
  {
    assert Frame(content, None) == [Clear(CLEAR_COLOR)] + content;
    if cursor.Some? {
      assert Frame(content, cursor)[..|Frame(content, cursor)| - 1] == Frame(content, None);
    }
  }

  // What the caller of the fast path has to know about a frame.
  predicate Repaintable(frame: seq<Item>, dirty: Rect, s: Screen) {
    && 0 <= dirty.x && 0 <= dirty.y
    && ClearsOpaque(frame)
    && PushesOverlap(frame, dirty) && PushesOverlap(frame, ScreenRect(s))
  }

  // The fast path: from the full frame with the old cursor, repainting the dirty rectangle of
  // the frame with the new cursor gives every pixel of the full frame with the new cursor.
  lemma CursorRepaintIsFullRepaint(content: seq<Item>, prev: Option<Item>, curr: Option<Item>,
                                   s: Screen, x: int, y: int)
    requires CursorOrNone(prev) && CursorOrNone(curr)
    requires Repaintable(Frame(content, curr), DirtyRect(prev, curr), s)
    requires OnScreen(s, x, y)
    ensures PartialPixel(Frame(content, curr), DirtyRect(prev, curr), s, x, y,
                         FullPixel(Frame(content, prev), s, x, y))
         == FullPixel(Frame(content, curr), s, x, y)
  {
    var dirty, frame := DirtyRect(prev, curr), Frame(content, curr);
    if Inside(dirty, x, y) {
      DirtyPixelRepainted(frame, dirty, s, x, y, FullPixel(Frame(content, prev), s, x, y));
    } else {
      CleanPixelKept(frame, dirty, s, x, y, FullPixel(Frame(content, prev), s, x, y));
      CursorOnlyInItsRect(content, prev, s, x, y);
      CursorOnlyInItsRect(content, curr, s, x, y);
    }
  }

  // --- The exact conditions -------------------------------------------------------------------

  const WHITE := Argb(255, 255, 255, 255)

  // A partial repaint does what it is for: the dirty pixels end as in a full repaint, whatever
  // they were, and the others keep their values.
  ghost predicate RepaintsExactly(items: seq<Item>, dirty: Rect, s: Screen) {
    forall x, y, v | OnScreen(s, x, y) ::
      PartialPixel(items, dirty, s, x, y, v) == if Inside(dirty, x, y) then FullPixel(items, s, x, y) else v
  }

  predicate OpensOpaque(items: seq<Item>) {
    items != [] && items[0].Clear? && ClearsOpaque(items)
  }

  predicate PushFree(items: seq<Item>) {
    forall k | 0 <= k < |items| :: !items[k].ClipPush?
  }

  lemma RepaintableIsExact(items: seq<Item>, dirty: Rect, s: Screen)
    requires OpensOpaque(items) && Repaintable(items, dirty, s)
    ensures RepaintsExactly(items, dirty, s)
  {
    forall x, y, v | OnScreen(s, x, y)
      ensures PartialPixel(items, dirty, s, x, y, v) == if Inside(dirty, x, y) then FullPixel(items, s, x, y) else v
    {
      if Inside(dirty, x, y) {
        DirtyPixelRepainted(items, dirty, s, x, y, v);
      } else {
        CleanPixelKept(items, dirty, s, x, y, v);
      }
    }
  }

  lemma {:induction false} PushFreeSuffixOverlaps(items: seq<Item>, body: seq<Item>, root: Rect)
    requires PushesOverlap(items, root) && PushFree(body)
    ensures PushesOverlap(items + body, root)
  {
    if body == [] {
      assert items + body == items;
    } else {
      PushFreeSuffixOverlaps(items, body[..|body| - 1], root);
      assert (items + body)[..|items + body| - 1] == items + body[..|body| - 1];
    }
  }

  // Both repaints of a scene, extended by one item.
  lemma OneMoreItem(items: seq<Item>, item: Item, root: Rect, mode: ClearMode, s: Screen, x: int, y: int, v: Argb)
    ensures StackAfter(items + [item], [Some(root)]) == StackStep(item, StackAfter(items, [Some(root)]))
    ensures ValueAfter(items + [item], root, mode, s, x, y, v)
         == ValueStep(item, Top(StackAfter(items, [Some(root)])), mode, s, x, y,
                      ValueAfter(items, root, mode, s, x, y, v))
  {
    assert (items + [item])[..|items|] == items;
  }

  // Clearing and drawing one item, in both repaints.
  lemma ClearThen(item: Item, dirty: Rect, s: Screen, x: int, y: int, v: Argb)
    ensures PartialPixel([Clear(CLEAR_COLOR)] + [item], dirty, s, x, y, v)
         == ValueStep(item, Some(dirty), ClipTo(dirty), s, x, y,
                      Drawn(FillRect(dirty, CLEAR_COLOR), Some(dirty), s, x, y, v))
    ensures FullPixel([Clear(CLEAR_COLOR)] + [item], s, x, y)
         == ValueStep(item, Some(ScreenRect(s)), Full, s, x, y, CLEAR_COLOR)
  {
    var clear := [Clear(CLEAR_COLOR)];
    assert [] + clear == clear;
    OneMoreItem([], clear[0], dirty, ClipTo(dirty), s, x, y, v);
    OneMoreItem(clear, item, dirty, ClipTo(dirty), s, x, y, v);
    OneMoreItem([], clear[0], ScreenRect(s), Full, s, x, y, CLEAR_COLOR);
    OneMoreItem(clear, item, ScreenRect(s), Full, s, x, y, CLEAR_COLOR);
  }

  // A fill that starts left of (above) the screen, next to a dirty rectangle that does too.
  lemma FillOverruns(rect: Rect, dirty: Rect, s: Screen, x: int, y: int)
    requires OnScreen(s, x, y) && SpanCovers(rect, Some(dirty), s, x, y) && !Inside(rect, x, y)
    ensures !RepaintsExactly([Clear(CLEAR_COLOR)] + [FillRect(rect, WHITE)], dirty, s)
  {
    var items := [Clear(CLEAR_COLOR)] + [FillRect(rect, WHITE)];
    ClearThen(FillRect(rect, WHITE), dirty, s, x, y, CLEAR_COLOR);
    SpanHonoursClip(rect, Some(ScreenRect(s)), s, x, y);
    assert PartialPixel(items, dirty, s, x, y, CLEAR_COLOR) == WHITE;
    assert FullPixel(items, s, x, y) == CLEAR_COLOR;
  }

  // A rectangle whose part in the dirty rectangle is painted over (x, y) although it does not hold
  // that pixel, when the dirty rectangle starts left of or above the screen.
  function OverrunRect(dirty: Rect, x: int, y: int): Rect
    requires 0 <= x && 0 <= y
  {
    if dirty.x < 0 then
      if x < dirty.x + dirty.width then Rect(-1, dirty.y, x + 1, dirty.height) else dirty
    else
      if y < dirty.y + dirty.height then Rect(dirty.x, -1, dirty.width, y + 1) else dirty
  }

  lemma Overruns(dirty: Rect, s: Screen, x: int, y: int)
    requires OnScreen(s, x, y) && SpanCovers(dirty, None, s, x, y) && (dirty.x < 0 || dirty.y < 0)
    ensures SpanCovers(OverrunRect(dirty, x, y), Some(dirty), s, x, y) && !Inside(OverrunRect(dirty, x, y), x, y)
  {
  }

  // The fill loops visit no pixel of the screen for this rectangle.
  ghost predicate PaintsNothing(rect: Rect, s: Screen) {
    forall x, y | OnScreen(s, x, y) :: !SpanCovers(rect, None, s, x, y)
  }

  // For scenes without clip pushes, a dirty rectangle repaints every scene exactly if and only if
  // it does not start left of or above the screen, or paints nothing.
  lemma NonNegativeOriginIff(dirty: Rect, s: Screen)
    ensures (0 <= dirty.x && 0 <= dirty.y) || PaintsNothing(dirty, s)
       <==> (forall items | OpensOpaque(items) && PushFree(items) :: RepaintsExactly(items, dirty, s))
  {
    if 0 <= dirty.x && 0 <= dirty.y {
      forall items | OpensOpaque(items) && PushFree(items) ensures RepaintsExactly(items, dirty, s) {
        PushFreeSuffixOverlaps([], items, dirty);
        PushFreeSuffixOverlaps([], items, ScreenRect(s));
        assert [] + items == items;
        RepaintableIsExact(items, dirty, s);
      }
    } else if PaintsNothing(dirty, s) {
      forall items | OpensOpaque(items) && PushFree(items) ensures RepaintsExactly(items, dirty, s) {
        NothingRepainted(items, dirty, s);
      }
    } else {
      var x, y :| OnScreen(s, x, y) && SpanCovers(dirty, None, s, x, y);
      var rect := OverrunRect(dirty, x, y);
      Overruns(dirty, s, x, y);
      FillOverruns(rect, dirty, s, x, y);
      assert OpensOpaque([Clear(CLEAR_COLOR)] + [FillRect(rect, WHITE)]);
    }
  }

  lemma NothingRepainted(items: seq<Item>, dirty: Rect, s: Screen)
    requires PaintsNothing(dirty, s) && PushFree(items)
    ensures RepaintsExactly(items, dirty, s)
  {
    forall x, y, v | OnScreen(s, x, y)
      ensures PartialPixel(items, dirty, s, x, y, v) == v && !Inside(dirty, x, y)
    {
      KeptOutsideSpan(items, dirty, s, x, y, v);
      SpanOfInside(dirty, s, x, y);
    }
  }

  // --- Outside the span of the dirty rectangle --------------------------------------------------

  lemma SpanOfInside(r: Rect, s: Screen, x: int, y: int)
    requires OnScreen(s, x, y)
    ensures Inside(r, x, y) ==> SpanCovers(r, None, s, x, y)
  {
  }

  // What is clipped to the dirty rectangle is painted inside its span, wherever it starts.
  lemma SpanInSpan(rect: Rect, dirty: Rect, s: Screen, x: int, y: int)
    requires OnScreen(s, x, y)
    ensures SpanCovers(rect, Some(dirty), s, x, y) ==> SpanCovers(dirty, None, s, x, y)
  {
  }

  lemma {:induction false} StackIsRoot(items: seq<Item>, root: Rect)
    requires PushFree(items)
    ensures StackAfter(items, [Some(root)]) == [Some(root)]
  {
    if items != [] {
      StackIsRoot(items[..|items| - 1], root);
    }
  }

  lemma {:induction false} KeptOutsideSpan(items: seq<Item>, dirty: Rect, s: Screen, x: int, y: int, v: Argb)
    requires PushFree(items) && OnScreen(s, x, y) && !SpanCovers(dirty, None, s, x, y)
    ensures PartialPixel(items, dirty, s, x, y, v) == v
  {
    if items != [] {
      var before, item := items[..|items| - 1], items[|items| - 1];
      KeptOutsideSpan(before, dirty, s, x, y, v);
      StackIsRoot(before, dirty);
      NotDrawnOutsideSpan(item, dirty, s, x, y, v);
      if item.Clear? { NotDrawnOutsideSpan(FillRect(dirty, item.color), dirty, s, x, y, v); }
    }
  }

  lemma NotDrawnOutsideSpan(item: Item, dirty: Rect, s: Screen, x: int, y: int, v: Argb)
    requires OnScreen(s, x, y) && !SpanCovers(dirty, None, s, x, y)
    ensures Drawn(item, Some(dirty), s, x, y, v) == v
  {
    hide Paint;
    if item.FillRect? || item.HatchRect? || item.BlitImage? {
      SpanInSpan(item.rect, dirty, s, x, y);
    }
    SpanOfInside(dirty, s, x, y);
  }

  // --- The pointer ----------------------------------------------------------------------------

  // The cursor item drawn for a pointer position, which is clamped to the screen.
  function PointerItem(x: int, y: int, sprite: Bitmap, hotX: int, hotY: int, s: Screen): Item {
    DrawCursor(Max(0, Min(x, Max(s.width - 1, 0))), Max(0, Min(y, Max(s.height - 1, 0))), sprite, hotX, hotY)
  }

  // The rectangle `get_cursor_rect` reports, which is not clamped, is the one drawn exactly when
  // the pointer is on the screen.
  lemma PointerRectIsDrawnIff(x: int, y: int, sprite: Bitmap, hotX: int, hotY: int, s: Screen)
    requires 0 < s.width && 0 < s.height
    ensures CursorRect(PointerItem(x, y, sprite, hotX, hotY, s))
            == Rect(x - hotX, y - hotY, sprite.width, sprite.height)
       <==> OnScreen(s, x, y)
  {
  }
}
