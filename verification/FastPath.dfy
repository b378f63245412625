// When the cursor-only fast path is right: the exact condition, for every content
// (compositor/src/compositor.rs, compositor/src/framebuffer_backend.rs).
module FastPath {
  import opened Options
  import opened Arithmetic
  import opened Geometry
  import opened Pixel
  import opened Scene
  import opened Repaint

  // From the full frame with the previous cursor, the partial repaint leaves the full frame with
  // the current one.
  ghost predicate FastPathExact(content: seq<Item>, prev: Option<Item>, curr: Option<Item>, s: Screen)
    requires CursorOrNone(prev) && CursorOrNone(curr)
  {
    forall x, y | OnScreen(s, x, y) ::
      PartialPixel(Frame(content, curr), DirtyRect(prev, curr), s, x, y, FullPixel(Frame(content, prev), s, x, y))
      == FullPixel(Frame(content, curr), s, x, y)
  }

  // An opaque pixel of the cursor hides whatever was painted below it.
  predicate OpaqueAt(cursor: Option<Item>, x: int, y: int)
    requires CursorOrNone(cursor)
  {
    cursor.Some? &&
    var r := CursorRect(cursor.value);
    Inside(r, x, y) && Cell(cursor.value.sprite, x - r.x, y - r.y).a == 255
  }

  // The dirty rectangle does not start left of or above the screen, or everything it can paint is
  // hidden by the cursor.
  ghost predicate FastPathSafe(prev: Option<Item>, curr: Option<Item>, s: Screen)
    requires CursorOrNone(prev) && CursorOrNone(curr)
  {
    var dirty := DirtyRect(prev, curr);
    || (0 <= dirty.x && 0 <= dirty.y)
    || (forall x, y | OnScreen(s, x, y) && SpanCovers(dirty, None, s, x, y) :: OpaqueAt(curr, x, y))
  }

  lemma CursorsInDirty(prev: Option<Item>, curr: Option<Item>, x: int, y: int)
    requires CursorOrNone(prev) && CursorOrNone(curr)
    ensures prev.Some? && Inside(CursorRect(prev.value), x, y) ==> Inside(DirtyRect(prev, curr), x, y)
    ensures curr.Some? && Inside(CursorRect(curr.value), x, y) ==> Inside(DirtyRect(prev, curr), x, y)
  {
  }

  // --- Drawing the cursor last ------------------------------------------------------------------

  function WithCursor(cursor: Option<Item>, root: Rect, s: Screen, x: int, y: int, below: Argb): Argb {
    if cursor.Some? then Drawn(cursor.value, Some(root), s, x, y, below) else below
  }

  // The cursor is drawn on the content, under the root clip.
  lemma CursorOnTop(content: seq<Item>, cursor: Option<Item>, root: Rect, mode: ClearMode, s: Screen,
                    x: int, y: int, v: Argb)
    requires CursorOrNone(cursor) && PushFree(content)
    ensures ValueAfter(Frame(content, cursor), root, mode, s, x, y, v)
         == WithCursor(cursor, root, s, x, y, ValueAfter(Frame(content, None), root, mode, s, x, y, v))
  {
    var frame := Frame(content, None);
    assert frame == [Clear(CLEAR_COLOR)] + content;
    if cursor.Some? {
      assert Frame(content, cursor) == frame + [cursor.value];
      OneMoreItem(frame, cursor.value, root, mode, s, x, y, v);
      assert PushFree(frame);
      StackIsRoot(frame, root);
    }
  }

  lemma OpaqueWins(content: seq<Item>, prev: Option<Item>, curr: Option<Item>, s: Screen, x: int, y: int, v: Argb)
    requires CursorOrNone(prev) && CursorOrNone(curr) && PushFree(content)
    requires OnScreen(s, x, y) && OpaqueAt(curr, x, y)
    ensures PartialPixel(Frame(content, curr), DirtyRect(prev, curr), s, x, y, v)
            == FullPixel(Frame(content, curr), s, x, y)
  {
    var dirty := DirtyRect(prev, curr);
    CursorOnTop(content, curr, dirty, ClipTo(dirty), s, x, y, v);
    CursorOnTop(content, curr, ScreenRect(s), Full, s, x, y, CLEAR_COLOR);
    CursorsInDirty(prev, curr, x, y);
  }

  // White and black stay different under a cursor pixel that is not opaque.
  lemma CompositeTellsApart(px: Argb)
    requires px.a < 255
    ensures Composite(px, WHITE) != Composite(px, CLEAR_COLOR)
  {
    LayOnWhite(px.b, px.a);
    LayOnBlack(px.b, px.a);
    hide Lay, OrCarry;
  }

  lemma LayOnWhite(src: Byte, alpha: Byte)
    ensures Lay(src, 255, alpha) == src + 255 - alpha
  {
  }

  lemma LayOnBlack(src: Byte, alpha: Byte)
    ensures Lay(src, 0, alpha) == src
  {
    assert 0 * (255 - alpha) == 0;
  }

  // --- The condition suffices -------------------------------------------------------------------

  lemma SafeIsExact(content: seq<Item>, prev: Option<Item>, curr: Option<Item>, s: Screen)
    requires CursorOrNone(prev) && CursorOrNone(curr)
    requires PushFree(content) && ClearsOpaque(content) && FastPathSafe(prev, curr, s)
    ensures FastPathExact(content, prev, curr, s)
  {
    var dirty, frame := DirtyRect(prev, curr), Frame(content, curr);
    assert PushFree(frame) && ClearsOpaque(frame);
    forall x, y | OnScreen(s, x, y)
      ensures PartialPixel(frame, dirty, s, x, y, FullPixel(Frame(content, prev), s, x, y)) == FullPixel(frame, s, x, y)
    {
      if 0 <= dirty.x && 0 <= dirty.y {
        PushFreeIsRepaintable(frame, dirty, s);
        CursorRepaintIsFullRepaint(content, prev, curr, s, x, y);
      } else if SpanCovers(dirty, None, s, x, y) {
        OpaqueWins(content, prev, curr, s, x, y, FullPixel(Frame(content, prev), s, x, y));
      } else {
        KeptOutsideSpan(frame, dirty, s, x, y, FullPixel(Frame(content, prev), s, x, y));
        SpanOfInside(dirty, s, x, y);
        CursorsInDirty(prev, curr, x, y);
        CursorOnlyInItsRect(content, prev, s, x, y);
        CursorOnlyInItsRect(content, curr, s, x, y);
      }
    }
  }

  lemma PushFreeIsRepaintable(frame: seq<Item>, dirty: Rect, s: Screen)
    requires PushFree(frame) && ClearsOpaque(frame) && 0 <= dirty.x && 0 <= dirty.y
    ensures Repaintable(frame, dirty, s)
  {
    PushFreeSuffixOverlaps([], frame, dirty);
    PushFreeSuffixOverlaps([], frame, ScreenRect(s));
    assert [] + frame == frame;
  }

  // --- The condition is needed ------------------------------------------------------------------

  // A fill painted over a pixel it does not hold shows, unless an opaque cursor pixel hides it.
  lemma OverrunShows(rect: Rect, prev: Option<Item>, curr: Option<Item>, s: Screen, x: int, y: int, v: Argb)
    requires CursorOrNone(prev) && CursorOrNone(curr) && OnScreen(s, x, y)
    requires SpanCovers(rect, Some(DirtyRect(prev, curr)), s, x, y) && !Inside(rect, x, y)
    requires !OpaqueAt(curr, x, y)
    ensures var frame := Frame([FillRect(rect, WHITE)], curr);
            PartialPixel(frame, DirtyRect(prev, curr), s, x, y, v) != FullPixel(frame, s, x, y)
  {
    var dirty := DirtyRect(prev, curr);
    var fill := FillRect(rect, WHITE);
    assert Frame([fill], None) == [Clear(CLEAR_COLOR)] + [fill];
    ClearThen(fill, dirty, s, x, y, v);
    SpanHonoursClip(rect, Some(ScreenRect(s)), s, x, y);
    assert PartialPixel(Frame([fill], None), dirty, s, x, y, v) == WHITE;
    assert FullPixel(Frame([fill], None), s, x, y) == CLEAR_COLOR;
    CursorOnTop([fill], curr, dirty, ClipTo(dirty), s, x, y, v);
    CursorOnTop([fill], curr, ScreenRect(s), Full, s, x, y, CLEAR_COLOR);
    CursorsInDirty(prev, curr, x, y);
    CursorTellsApart(curr, dirty, s, x, y);
  }

  lemma CursorTellsApart(cursor: Option<Item>, dirty: Rect, s: Screen, x: int, y: int)
    requires CursorOrNone(cursor) && OnScreen(s, x, y) && !OpaqueAt(cursor, x, y)
    requires cursor.Some? && Inside(CursorRect(cursor.value), x, y) ==> Inside(dirty, x, y)
    ensures WithCursor(cursor, dirty, s, x, y, WHITE) != WithCursor(cursor, ScreenRect(s), s, x, y, CLEAR_COLOR)
    ensures WithCursor(cursor, dirty, s, x, y, CLEAR_COLOR) != WithCursor(cursor, ScreenRect(s), s, x, y, WHITE)
  {
    hide Composite;
    if cursor.Some? && Inside(CursorRect(cursor.value), x, y) {
      var r := CursorRect(cursor.value);
      CompositeTellsApart(Cell(cursor.value.sprite, x - r.x, y - r.y));
    }
  }

  // The fast path is right for every content without clip pushes if and only if the dirty
  // rectangle does not start off screen or the cursor hides everything it can paint.
  lemma FastPathIff(prev: Option<Item>, curr: Option<Item>, s: Screen)
    requires CursorOrNone(prev) && CursorOrNone(curr)
    ensures FastPathSafe(prev, curr, s)
       <==> (forall content | PushFree(content) && ClearsOpaque(content) :: FastPathExact(content, prev, curr, s))
  {
    if FastPathSafe(prev, curr, s) {
      forall content | PushFree(content) && ClearsOpaque(content) ensures FastPathExact(content, prev, curr, s) {
        SafeIsExact(content, prev, curr, s);
      }
    } else {
      var dirty := DirtyRect(prev, curr);
      var x, y :| OnScreen(s, x, y) && SpanCovers(dirty, None, s, x, y) && !OpaqueAt(curr, x, y);
      var content := [FillRect(OverrunRect(dirty, x, y), WHITE)];
      Overruns(dirty, s, x, y);
      OverrunShows(OverrunRect(dirty, x, y), prev, curr, s, x, y, FullPixel(Frame(content, prev), s, x, y));
      assert PushFree(content) && ClearsOpaque(content);
    }
  }

  // The last pixel the loops visit lies outside a rectangle that starts off screen.
  lemma LastPixelIsOutside(r: Rect, s: Screen)
    requires 0 < r.width && 0 < r.height && r.x + r.width < s.width && r.y + r.height < s.height
    requires 0 < s.width && 0 < s.height && (r.x < 0 || r.y < 0)
    ensures var x, y := SpanTo(r.x, r.width, s.width) - 1, SpanTo(r.y, r.height, s.height) - 1;
            OnScreen(s, x, y) && SpanCovers(r, None, s, x, y) && !Inside(r, x, y)
  {
  }

  // For a dirty rectangle that ends before the far edges of the screen, only its origin matters.
  lemma FastPathOriginIff(prev: Option<Item>, curr: Option<Item>, dirty: Rect, s: Screen)
    requires CursorOrNone(prev) && CursorOrNone(curr) && dirty == DirtyRect(prev, curr)
    requires 0 < dirty.width && 0 < dirty.height && 0 < s.width && 0 < s.height
    requires dirty.x + dirty.width < s.width && dirty.y + dirty.height < s.height
    ensures 0 <= dirty.x && 0 <= dirty.y
       <==> (forall content | PushFree(content) && ClearsOpaque(content) :: FastPathExact(content, prev, curr, s))
  {
    FastPathIff(prev, curr, s);
    hide FastPathExact, PushFree, ClearsOpaque;
    if dirty.x < 0 || dirty.y < 0 {
      LastPixelIsOutside(dirty, s);
      var x := SpanTo(dirty.x, dirty.width, s.width) - 1;
      var y := SpanTo(dirty.y, dirty.height, s.height) - 1;
      CursorsInDirty(prev, curr, x, y);
      hide SpanCovers, SpanTo, DirtyRect;
      assert !OpaqueAt(curr, x, y);
    }
  }

  // Two conditions under which the fast path is right: the second covers cursors at the edges.
  lemma ExactWhen(content: seq<Item>, prev: Option<Item>, curr: Option<Item>, s: Screen)
    requires CursorOrNone(prev) && CursorOrNone(curr)
    ensures Repaintable(Frame(content, curr), DirtyRect(prev, curr), s)
            || (PushFree(content) && ClearsOpaque(content) && FastPathSafe(prev, curr, s))
        ==> FastPathExact(content, prev, curr, s)
  {
    if Repaintable(Frame(content, curr), DirtyRect(prev, curr), s) {
      forall x, y | OnScreen(s, x, y)
        ensures PartialPixel(Frame(content, curr), DirtyRect(prev, curr), s, x, y,
                             FullPixel(Frame(content, prev), s, x, y))
             == FullPixel(Frame(content, curr), s, x, y)
      {
        CursorRepaintIsFullRepaint(content, prev, curr, s, x, y);
      }
    } else if PushFree(content) && ClearsOpaque(content) && FastPathSafe(prev, curr, s) {
      SafeIsExact(content, prev, curr, s);
    }
  }

  // --- What is shown ----------------------------------------------------------------------------

  // Only dirty pixels are copied to the screen: they end as in the full frame, whatever the buffer
  // held.
  ghost predicate ShownExact(content: seq<Item>, prev: Option<Item>, curr: Option<Item>, s: Screen)
    requires CursorOrNone(prev) && CursorOrNone(curr)
  {
    forall x, y, v | OnScreen(s, x, y) && Inside(DirtyRect(prev, curr), x, y) ::
      PartialPixel(Frame(content, curr), DirtyRect(prev, curr), s, x, y, v) == FullPixel(Frame(content, curr), s, x, y)
  }

  ghost predicate ShownSafe(prev: Option<Item>, curr: Option<Item>, s: Screen)
    requires CursorOrNone(prev) && CursorOrNone(curr)
  {
    var dirty := DirtyRect(prev, curr);
    || (0 <= dirty.x && 0 <= dirty.y)
    || (forall x, y | OnScreen(s, x, y) && Inside(dirty, x, y) :: OpaqueAt(curr, x, y))
  }

  lemma RepaintableIsShown(content: seq<Item>, prev: Option<Item>, curr: Option<Item>, s: Screen)
    requires CursorOrNone(prev) && CursorOrNone(curr)
    requires Repaintable(Frame(content, curr), DirtyRect(prev, curr), s)
    ensures ShownExact(content, prev, curr, s)
  {
    forall x, y, v | OnScreen(s, x, y) && Inside(DirtyRect(prev, curr), x, y)
      ensures PartialPixel(Frame(content, curr), DirtyRect(prev, curr), s, x, y, v)
           == FullPixel(Frame(content, curr), s, x, y)
    {
      DirtyPixelRepainted(Frame(content, curr), DirtyRect(prev, curr), s, x, y, v);
    }
  }

  lemma SafeIsShown(content: seq<Item>, prev: Option<Item>, curr: Option<Item>, s: Screen)
    requires CursorOrNone(prev) && CursorOrNone(curr)
    requires PushFree(content) && ClearsOpaque(content) && ShownSafe(prev, curr, s)
    ensures ShownExact(content, prev, curr, s)
  {
    var dirty, frame := DirtyRect(prev, curr), Frame(content, curr);
    assert PushFree(frame) && ClearsOpaque(frame);
    if 0 <= dirty.x && 0 <= dirty.y {
      PushFreeIsRepaintable(frame, dirty, s);
      RepaintableIsShown(content, prev, curr, s);
    } else {
      forall x, y, v | OnScreen(s, x, y) && Inside(dirty, x, y)
        ensures PartialPixel(frame, dirty, s, x, y, v) == FullPixel(frame, s, x, y)
      {
        OpaqueWins(content, prev, curr, s, x, y, v);
      }
    }
  }

  lemma ShownWhen(content: seq<Item>, prev: Option<Item>, curr: Option<Item>, s: Screen)
    requires CursorOrNone(prev) && CursorOrNone(curr)
    ensures Repaintable(Frame(content, curr), DirtyRect(prev, curr), s)
            || (PushFree(content) && ClearsOpaque(content) && ShownSafe(prev, curr, s))
        ==> ShownExact(content, prev, curr, s)
  {
    if Repaintable(Frame(content, curr), DirtyRect(prev, curr), s) {
      RepaintableIsShown(content, prev, curr, s);
    } else if PushFree(content) && ClearsOpaque(content) && ShownSafe(prev, curr, s) {
      SafeIsShown(content, prev, curr, s);
    }
  }

  // What is shown is right for every content without clip pushes if and only if the dirty rectangle
  // does not start off screen or the cursor hides all of it.
  lemma ShownIff(prev: Option<Item>, curr: Option<Item>, s: Screen)
    requires CursorOrNone(prev) && CursorOrNone(curr)
    ensures ShownSafe(prev, curr, s)
       <==> (forall content | PushFree(content) && ClearsOpaque(content) :: ShownExact(content, prev, curr, s))
  {
    if ShownSafe(prev, curr, s) {
      forall content | PushFree(content) && ClearsOpaque(content) ensures ShownExact(content, prev, curr, s) {
        SafeIsShown(content, prev, curr, s);
      }
    } else {
      var dirty := DirtyRect(prev, curr);
      var x, y :| OnScreen(s, x, y) && Inside(dirty, x, y) && !OpaqueAt(curr, x, y);
      SpanOfInside(dirty, s, x, y);
      Overruns(dirty, s, x, y);
      OverrunShows(OverrunRect(dirty, x, y), prev, curr, s, x, y, CLEAR_COLOR);
      var content := [FillRect(OverrunRect(dirty, x, y), WHITE)];
      assert PushFree(content) && ClearsOpaque(content);
    }
  }

  // A cursor whose hotspot is its corner is never drawn off the left or top edge, so for content
  // without clip pushes the fast path is right wherever the pointer is.
  lemma CornerHotspotIsSafe(x: int, y: int, x': int, y': int, sprite: Bitmap, sprite': Bitmap, s: Screen)
    ensures var prev := Some(PointerItem(x, y, sprite, 0, 0, s));
            var curr := Some(PointerItem(x', y', sprite', 0, 0, s));
            FastPathSafe(prev, curr, s) && ShownSafe(prev, curr, s)
  {
  }

  // --- A pointer in the corner ------------------------------------------------------------------

  // With the pointer in the corner, a rectangle that starts off screen is painted too wide: pixel
  // (40, 10) is dirty, lies right of it, and shows the wrong colour through a transparent pixel of
  // the cursor.
  lemma OffScreenFillShows(sprite: Bitmap, s: Screen, v: Argb)
    requires sprite.width == 98 && sprite.height == 98 && s == Screen(640, 480)
    requires Cell(sprite, 89, 59).a == 0
    ensures var prev := Some(PointerItem(1, 0, sprite, 49, 49, s));
            var curr := Some(PointerItem(0, 0, sprite, 49, 49, s));
            var frame := Frame([FillRect(Rect(-30, 0, 60, 40), WHITE)], curr);
            && Inside(DirtyRect(prev, curr), 40, 10)
            && PartialPixel(frame, DirtyRect(prev, curr), s, 40, 10, v) != FullPixel(frame, s, 40, 10)
  {
    var prev, curr := Some(PointerItem(1, 0, sprite, 49, 49, s)), Some(PointerItem(0, 0, sprite, 49, 49, s));
    var rect, dirty := Rect(-30, 0, 60, 40), Rect(-49, -49, 99, 98);
    assert DirtyRect(prev, curr) == dirty && CursorRect(curr.value) == Rect(-49, -49, 98, 98);
    assert IntersectRect(rect, dirty) == Some(rect);
    assert SpanCovers(rect, Some(dirty), s, 40, 10) && !OpaqueAt(curr, 40, 10);
    hide ValueAfter, Frame, Drawn, SpanCovers, DirtyRect, OpaqueAt, Paint, FullPixel, PartialPixel;
    OverrunShows(rect, prev, curr, s, 40, 10, v);
  }

  // The rectangle `get_cursor_rect` reports for a pointer, wherever it is.
  function ReportedRect(x: int, y: int, sprite: Bitmap, hotX: int, hotY: int): Rect {
    Rect(x - hotX, y - hotY, sprite.width, sprite.height)
  }

  // A pointer set to positions left of the screen: nothing of the screen is dirty, but the drawn
  // cursor, which is clamped, moves down the left edge.
  lemma OffScreenPointerStays(sprite: Bitmap, s: Screen)
    requires sprite.width == 98 && sprite.height == 98 && s == Screen(640, 480) && Cell(sprite, 0, 70) == WHITE
    ensures var dirty := Union(ReportedRect(-200, 0, sprite, 0, 0), ReportedRect(-150, 50, sprite, 0, 0));
            forall x, y | OnScreen(s, x, y) :: !Inside(dirty, x, y)
    ensures FullPixel(Frame([], Some(PointerItem(-200, 0, sprite, 0, 0, s))), s, 0, 120) == CLEAR_COLOR
    ensures FullPixel(Frame([], Some(PointerItem(-150, 50, sprite, 0, 0, s))), s, 0, 120) == WHITE
  {
    var prev, curr := PointerItem(-200, 0, sprite, 0, 0, s), PointerItem(-150, 50, sprite, 0, 0, s);
    assert CursorRect(prev) == Rect(0, 0, 98, 98) && CursorRect(curr) == Rect(0, 50, 98, 98);
    hide PointerItem, ValueAfter;
    CursorOnBlack(prev, s, 0, 120);
    CursorOnBlack(curr, s, 0, 120);
  }

  lemma CursorOnBlack(cursor: Item, s: Screen, x: int, y: int)
    requires cursor.DrawCursor? && OnScreen(s, x, y)
    ensures FullPixel(Frame([], Some(cursor)), s, x, y) == WithCursor(Some(cursor), ScreenRect(s), s, x, y, CLEAR_COLOR)
  {
    CursorOnTop([], Some(cursor), ScreenRect(s), Full, s, x, y, CLEAR_COLOR);
    assert Frame([], None) == [] + [Clear(CLEAR_COLOR)];
    OneMoreItem([], Clear(CLEAR_COLOR), ScreenRect(s), Full, s, x, y, CLEAR_COLOR);
  }

  // Moving a 98-pixel cursor with its hotspot in the middle to the corner of a white screen leaves
  // a black pixel in the buffer where it should be white.
  lemma CornerPointerFails(sprite: Bitmap, s: Screen)
    requires sprite.width == 98 && sprite.height == 98 && s == Screen(640, 480)
    ensures var prev := Some(PointerItem(1, 0, sprite, 49, 49, s));
            var curr := Some(PointerItem(0, 0, sprite, 49, 49, s));
            var content := [FillRect(ScreenRect(s), WHITE)];
            && FullPixel(Frame(content, curr), s, 98, 0) == WHITE
            && PartialPixel(Frame(content, curr), DirtyRect(prev, curr), s, 98, 0,
                            FullPixel(Frame(content, prev), s, 98, 0)) == CLEAR_COLOR
  {
    CornerGeometry(sprite, s);
    hide ValueAfter, Frame, Drawn, SpanCovers, DirtyRect, CursorRect, Paint, FullPixel, PartialPixel, ScreenRect;
    StripFails(Some(PointerItem(1, 0, sprite, 49, 49, s)), Some(PointerItem(0, 0, sprite, 49, 49, s)), s, 98, 0);
  }

  lemma StripFails(prev: Option<Item>, curr: Option<Item>, s: Screen, x: int, y: int)
    requires CursorOrNone(prev) && CursorOrNone(curr) && OnScreen(s, x, y)
    requires curr.Some? ==> !Inside(CursorRect(curr.value), x, y)
    requires SpanCovers(DirtyRect(prev, curr), Some(DirtyRect(prev, curr)), s, x, y)
    requires !SpanCovers(ScreenRect(s), Some(DirtyRect(prev, curr)), s, x, y)
    ensures var content := [FillRect(ScreenRect(s), WHITE)];
            && FullPixel(Frame(content, curr), s, x, y) == WHITE
            && PartialPixel(Frame(content, curr), DirtyRect(prev, curr), s, x, y,
                            FullPixel(Frame(content, prev), s, x, y)) == CLEAR_COLOR
  {
    hide ValueAfter, Frame, Drawn, SpanCovers, DirtyRect;
    var content, dirty := [FillRect(ScreenRect(s), WHITE)], DirtyRect(prev, curr);
    var v := FullPixel(Frame(content, prev), s, x, y);
    ClearedStrip(dirty, s, x, y, v);
    CursorElsewhere(content, curr, dirty, ClipTo(dirty), s, x, y, v);
    CursorElsewhere(content, curr, ScreenRect(s), Full, s, x, y, CLEAR_COLOR);
  }

  // Pixel (98, 0) is cleared, but outside both cursors and the clipped screen.
  lemma CornerGeometry(sprite: Bitmap, s: Screen)
    requires sprite.width == 98 && sprite.height == 98 && s == Screen(640, 480)
    ensures var prev := Some(PointerItem(1, 0, sprite, 49, 49, s));
            var curr := Some(PointerItem(0, 0, sprite, 49, 49, s));
            var dirty := DirtyRect(prev, curr);
            && dirty == Rect(-49, -49, 99, 98) && !Inside(CursorRect(curr.value), 98, 0)
            && SpanCovers(dirty, Some(dirty), s, 98, 0) && !SpanCovers(ScreenRect(s), Some(dirty), s, 98, 0)
  {
    var dirty := Rect(-49, -49, 99, 98);
    assert IntersectRect(dirty, dirty) == Some(dirty);
    assert IntersectRect(ScreenRect(s), dirty) == Some(Rect(0, 0, 50, 49));
  }

  // A cursor that does not reach a pixel leaves it to the content.
  lemma CursorElsewhere(content: seq<Item>, cursor: Option<Item>, root: Rect, mode: ClearMode, s: Screen,
                        x: int, y: int, v: Argb)
    requires CursorOrNone(cursor) && PushFree(content)
    requires cursor.Some? ==> !Inside(CursorRect(cursor.value), x, y)
    ensures ValueAfter(Frame(content, cursor), root, mode, s, x, y, v)
         == ValueAfter(Frame(content, None), root, mode, s, x, y, v)
  {
    CursorOnTop(content, cursor, root, mode, s, x, y, v);
    hide ValueAfter, Frame, Paint;
  }

  // A pixel that is cleared although no fill reaches it under the dirty clip turns black.
  lemma ClearedStrip(dirty: Rect, s: Screen, x: int, y: int, v: Argb)
    requires OnScreen(s, x, y)
    requires SpanCovers(dirty, Some(dirty), s, x, y) && !SpanCovers(ScreenRect(s), Some(dirty), s, x, y)
    ensures var frame := Frame([FillRect(ScreenRect(s), WHITE)], None);
            FullPixel(frame, s, x, y) == WHITE && PartialPixel(frame, dirty, s, x, y, v) == CLEAR_COLOR
  {
    var fill := FillRect(ScreenRect(s), WHITE);
    assert Frame([fill], None) == [Clear(CLEAR_COLOR)] + [fill];
    ClearThen(fill, dirty, s, x, y, v);
    SpanHonoursClip(ScreenRect(s), Some(ScreenRect(s)), s, x, y);
    hide ValueAfter, Frame, Blend, SpanCovers;
  }
}
