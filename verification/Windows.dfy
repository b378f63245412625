// When the cursor-only fast path is right for frames with windows: exact conditions on where the
// windows are (compositor/src/compositor.rs, compositor/src/framebuffer_backend.rs).
module Windows {
  import opened Options
  import opened Arithmetic
  import opened Geometry
  import opened Pixel
  import opened Scene
  import opened Repaint
  import opened FastPath
  import opened Layers

  // The layers drawn for given windows, with any bodies.
  predicate LayersOf(layers: seq<Layer>, windows: seq<Option<Rect>>) {
    && |layers| == |windows| && AllFlat(layers)
    && forall k | 0 <= k < |layers| :: layers[k].window == windows[k]
  }

  // The current cursor hides every dirty pixel of the screen.
  ghost predicate DirtyHidden(prev: Option<Item>, curr: Option<Item>, s: Screen)
    requires CursorOrNone(prev) && CursorOrNone(curr)
  {
    forall x, y | OnScreen(s, x, y) && Inside(DirtyRect(prev, curr), x, y) :: OpaqueAt(curr, x, y)
  }

  ghost predicate AllDirty(dirty: Rect, s: Screen) {
    forall x, y | OnScreen(s, x, y) :: Inside(dirty, x, y)
  }

  predicate Meets(window: Rect, r: Rect) { IntersectRect(r, window).Some? }

  // A window that the buffer is repainted right for: it meets the screen and the dirty rectangle;
  // or it meets neither and everything is dirty; or only the dirty rectangle, all hidden.
  ghost predicate WindowFine(window: Rect, prev: Option<Item>, curr: Option<Item>, s: Screen)
    requires CursorOrNone(prev) && CursorOrNone(curr)
  {
    var dirty := DirtyRect(prev, curr);
    if Meets(window, ScreenRect(s)) then Meets(window, dirty)
    else if Meets(window, dirty) then DirtyHidden(prev, curr, s)
    else AllDirty(dirty, s)
  }

  ghost predicate WindowsFine(windows: seq<Option<Rect>>, prev: Option<Item>, curr: Option<Item>, s: Screen)
    requires CursorOrNone(prev) && CursorOrNone(curr)
  {
    forall k | 0 <= k < |windows| && windows[k].Some? :: WindowFine(windows[k].value, prev, curr, s)
  }

  // --- Dirty pixels -------------------------------------------------------------------------------

  // The window is clipped alike in both repaints of a dirty pixel.
  predicate ClipsAlike(window: Option<Rect>, dirty: Rect, s: Screen) {
    window.Some? ==> (Meets(window.value, ScreenRect(s)) <==> Meets(window.value, dirty))
  }

  lemma AlikeCover(body: seq<Item>, window: Option<Rect>, dirty: Rect, s: Screen, x: int, y: int)
    requires OnScreen(s, x, y) && Inside(dirty, x, y) && 0 <= dirty.x && 0 <= dirty.y && ClipsAlike(window, dirty, s)
    ensures SameCover(body, LayerClip(window, ScreenRect(s)), LayerClip(window, dirty), s, x, y)
  {
    var full, part := LayerClip(window, ScreenRect(s)), LayerClip(window, dirty);
    forall k | 0 <= k < |body| ensures Covers(body[k], full, s, x, y) <==> Covers(body[k], part, s, x, y) {
      var item := body[k];
      if full.Some? && (item.FillRect? || item.HatchRect? || item.BlitImage?) {
        SpanHonoursClip(item.rect, full, s, x, y);
        SpanHonoursClip(item.rect, part, s, x, y);
      }
    }
  }

  lemma {:induction false} DirtyLayers(layers: seq<Layer>, dirty: Rect, s: Screen, x: int, y: int, v: Argb)
    requires OnScreen(s, x, y) && Inside(dirty, x, y) && AllFlat(layers)
    requires forall k | 0 <= k < |layers| ::
               SameCover(layers[k].body, LayerClip(layers[k].window, ScreenRect(s)),
                         LayerClip(layers[k].window, dirty), s, x, y)
    ensures LayersValue(layers, dirty, ClipTo(dirty), s, x, y, v)
            == LayersValue(layers, ScreenRect(s), Full, s, x, y, v)
  {
    hide SameCover, BodyValue, LayerClip, Flat, ClearsOpaque;
    if layers != [] {
      var before, last := layers[..|layers| - 1], layers[|layers| - 1];
      DirtyLayers(before, dirty, s, x, y, v);
      SameBody(last.body, LayerClip(last.window, ScreenRect(s)), LayerClip(last.window, dirty), dirty, s, x, y,
               LayersValue(before, ScreenRect(s), Full, s, x, y, v));
    }
  }

  // A dirty pixel ends as in the full frame if the same is drawn on it.
  lemma DirtyPixelRight(layers: seq<Layer>, prev: Option<Item>, curr: Option<Item>, s: Screen, x: int, y: int, v: Argb)
    requires CursorOrNone(prev) && CursorOrNone(curr) && AllFlat(layers)
    requires OnScreen(s, x, y) && Inside(DirtyRect(prev, curr), x, y)
    requires forall k | 0 <= k < |layers| ::
               SameCover(layers[k].body, LayerClip(layers[k].window, ScreenRect(s)),
                         LayerClip(layers[k].window, DirtyRect(prev, curr)), s, x, y)
    ensures PartialPixel(Frame(Content(layers), curr), DirtyRect(prev, curr), s, x, y, v)
         == FullPixel(Frame(Content(layers), curr), s, x, y)
  {
    var dirty := DirtyRect(prev, curr);
    hide SameCover, AllFlat, LayersValue, LayerClip, Frame, Content, PartialPixel, FullPixel;
    FramePixels(layers, curr, dirty, s, x, y, v);
    DirtyLayers(layers, dirty, s, x, y, CLEAR_COLOR);
    ClearPaints(dirty, CLEAR_COLOR, s, x, y, v);
    SameCursor(curr, dirty, s, x, y, FullLayers(layers, s, x, y));
  }

  lemma SameCursor(cursor: Option<Item>, dirty: Rect, s: Screen, x: int, y: int, v: Argb)
    requires CursorOrNone(cursor) && OnScreen(s, x, y) && Inside(dirty, x, y)
    ensures WithCursor(cursor, dirty, s, x, y, v) == WithCursor(cursor, ScreenRect(s), s, x, y, v)
  {
    hide Paint;
  }

  // An opaque cursor pixel hides everything below it.
  lemma HiddenPixelRight(layers: seq<Layer>, prev: Option<Item>, curr: Option<Item>, s: Screen, x: int, y: int, v: Argb)
    requires CursorOrNone(prev) && CursorOrNone(curr) && AllFlat(layers)
    requires OnScreen(s, x, y) && OpaqueAt(curr, x, y)
    ensures PartialPixel(Frame(Content(layers), curr), DirtyRect(prev, curr), s, x, y, v)
         == FullPixel(Frame(Content(layers), curr), s, x, y)
  {
    var dirty := DirtyRect(prev, curr);
    CursorsInDirty(prev, curr, x, y);
    hide AllFlat, LayersValue, Frame, Content, PartialPixel, FullPixel, DirtyRect;
    FramePixels(layers, curr, dirty, s, x, y, v);
    SameCursor(curr, dirty, s, x, y, PartLayers(layers, dirty, s, x, y, v));
    OpaqueHides(curr, ScreenRect(s), s, x, y, PartLayers(layers, dirty, s, x, y, v), FullLayers(layers, s, x, y));
  }

  lemma OpaqueHides(cursor: Option<Item>, root: Rect, s: Screen, x: int, y: int, v: Argb, w: Argb)
    requires CursorOrNone(cursor) && OpaqueAt(cursor, x, y) && Inside(root, x, y)
    ensures WithCursor(cursor, root, s, x, y, v) == WithCursor(cursor, root, s, x, y, w)
  {
  }

  // --- Clean pixels -------------------------------------------------------------------------------

  lemma {:induction false} CleanLayers(layers: seq<Layer>, dirty: Rect, s: Screen, x: int, y: int, v: Argb)
    requires OnScreen(s, x, y) && !SpanCovers(dirty, None, s, x, y) && AllFlat(layers)
    requires forall k | 0 <= k < |layers| :: NoCover(layers[k].body, LayerClip(layers[k].window, dirty), s, x, y)
    ensures LayersValue(layers, dirty, ClipTo(dirty), s, x, y, v) == v
  {
    hide NoCover, BodyValue, LayerClip, SpanCovers, Flat, ClearsOpaque;
    if layers != [] {
      var before, last := layers[..|layers| - 1], layers[|layers| - 1];
      CleanLayers(before, dirty, s, x, y, v);
      UntouchedBody(last.body, LayerClip(last.window, dirty), dirty, s, x, y, v);
    }
  }

  // A pixel that the fill loops do not reach keeps its value if every window meets the dirty
  // rectangle.
  lemma CleanPixelRight(layers: seq<Layer>, prev: Option<Item>, curr: Option<Item>, s: Screen, x: int, y: int, v: Argb)
    requires CursorOrNone(prev) && CursorOrNone(curr) && AllFlat(layers)
    requires OnScreen(s, x, y) && !SpanCovers(DirtyRect(prev, curr), None, s, x, y)
    requires forall k | 0 <= k < |layers| && layers[k].window.Some? ::
             Meets(layers[k].window.value, DirtyRect(prev, curr))
    ensures PartialPixel(Frame(Content(layers), curr), DirtyRect(prev, curr), s, x, y, v) == v
  {
    hide AllFlat, LayersValue, LayerClip, Frame, Content, PartialPixel, FullPixel;
    hide SpanCovers, DirtyRect, NoCover, Meets, Drawn;
    var dirty := DirtyRect(prev, curr);
    NothingReaches(layers, dirty, s, x, y);
    FramePixels(layers, curr, dirty, s, x, y, v);
    NotDrawnOutsideSpan(FillRect(dirty, CLEAR_COLOR), dirty, s, x, y, v);
    CleanLayers(layers, dirty, s, x, y, v);
    if curr.Some? { NotDrawnOutsideSpan(curr.value, dirty, s, x, y, v); }
  }

  lemma NothingReaches(layers: seq<Layer>, dirty: Rect, s: Screen, x: int, y: int)
    requires OnScreen(s, x, y) && !SpanCovers(dirty, None, s, x, y)
    requires forall k | 0 <= k < |layers| && layers[k].window.Some? :: Meets(layers[k].window.value, dirty)
    ensures forall k | 0 <= k < |layers| :: NoCover(layers[k].body, LayerClip(layers[k].window, dirty), s, x, y)
  {
    hide NoCover, SpanCovers, IntersectRect;
    forall k | 0 <= k < |layers| ensures NoCover(layers[k].body, LayerClip(layers[k].window, dirty), s, x, y) {
      if layers[k].window.Some? {
        ClippedElsewhere(layers[k].body, layers[k].window.value, dirty, s, x, y);
      } else {
        UnclippedElsewhere(layers[k].body, dirty, s, x, y);
      }
    }
  }

  lemma UnclippedElsewhere(body: seq<Item>, dirty: Rect, s: Screen, x: int, y: int)
    requires OnScreen(s, x, y) && !SpanCovers(dirty, None, s, x, y)
    ensures NoCover(body, Some(dirty), s, x, y)
  {
    SpanOfInside(dirty, s, x, y);
    forall k | 0 <= k < |body| ensures !Covers(body[k], Some(dirty), s, x, y) {
      var item := body[k];
      if item.FillRect? || item.HatchRect? || item.BlitImage? {
        SpanInSpan(item.rect, dirty, s, x, y);
      }
    }
  }

  // --- The conditions suffice ---------------------------------------------------------------------

  // Outside the dirty rectangle the fill loops reach only pixels that the cursor hides.
  lemma SafeSpan(prev: Option<Item>, curr: Option<Item>, s: Screen, x: int, y: int)
    requires CursorOrNone(prev) && CursorOrNone(curr) && FastPathSafe(prev, curr, s)
    requires OnScreen(s, x, y) && !OpaqueAt(curr, x, y)
    ensures SpanCovers(DirtyRect(prev, curr), None, s, x, y) <==> Inside(DirtyRect(prev, curr), x, y)
    ensures Inside(DirtyRect(prev, curr), x, y) ==> 0 <= DirtyRect(prev, curr).x && 0 <= DirtyRect(prev, curr).y
  {
    var dirty := DirtyRect(prev, curr);
    SpanOfInside(dirty, s, x, y);
    if 0 <= dirty.x && 0 <= dirty.y {
      SpanOnAxis(dirty.x, dirty.width, s.width, x);
      SpanOnAxis(dirty.y, dirty.height, s.height, y);
    }
  }

  lemma FinePixelRight(layers: seq<Layer>, windows: seq<Option<Rect>>, prev: Option<Item>, curr: Option<Item>,
                       s: Screen, x: int, y: int)
    requires CursorOrNone(prev) && CursorOrNone(curr) && LayersOf(layers, windows) && OnScreen(s, x, y)
    requires FastPathSafe(prev, curr, s) && WindowsFine(windows, prev, curr, s)
    ensures PartialPixel(Frame(Content(layers), curr), DirtyRect(prev, curr), s, x, y,
                         FullPixel(Frame(Content(layers), prev), s, x, y))
         == FullPixel(Frame(Content(layers), curr), s, x, y)
  {
    hide PartialPixel, FullPixel, Frame, Content, AllFlat, SpanCovers, DirtyRect, FastPathSafe;
    var dirty, v := DirtyRect(prev, curr), FullPixel(Frame(Content(layers), prev), s, x, y);
    if OpaqueAt(curr, x, y) {
      HiddenPixelRight(layers, prev, curr, s, x, y, v);
    } else {
      SafeSpan(prev, curr, s, x, y);
      hide OpaqueAt;
      if Inside(dirty, x, y) {
        forall k | 0 <= k < |layers|
          ensures SameCover(layers[k].body, LayerClip(layers[k].window, ScreenRect(s)),
                            LayerClip(layers[k].window, dirty), s, x, y)
        {
          FineIsAlike(windows, k, prev, curr, s, x, y);
          AlikeCover(layers[k].body, layers[k].window, dirty, s, x, y);
        }
        DirtyPixelRight(layers, prev, curr, s, x, y, v);
      } else {
        CleanPixelRight(layers, prev, curr, s, x, y, v);
        CursorsInDirty(prev, curr, x, y);
        CursorOnlyInItsRect(Content(layers), prev, s, x, y);
        CursorOnlyInItsRect(Content(layers), curr, s, x, y);
      }
    }
  }

  lemma FineIsAlike(windows: seq<Option<Rect>>, k: nat, prev: Option<Item>, curr: Option<Item>, s: Screen,
                    x: int, y: int)
    requires CursorOrNone(prev) && CursorOrNone(curr) && WindowsFine(windows, prev, curr, s) && k < |windows|
    requires OnScreen(s, x, y) && Inside(DirtyRect(prev, curr), x, y) && !OpaqueAt(curr, x, y)
    ensures ClipsAlike(windows[k], DirtyRect(prev, curr), s)
  {
    hide Meets, OpaqueAt, DirtyRect;
    if windows[k].Some? {
      assert WindowFine(windows[k].value, prev, curr, s);
    }
  }

  lemma FineIsExact(layers: seq<Layer>, windows: seq<Option<Rect>>, prev: Option<Item>, curr: Option<Item>, s: Screen)
    requires CursorOrNone(prev) && CursorOrNone(curr) && LayersOf(layers, windows)
    requires FastPathSafe(prev, curr, s) && WindowsFine(windows, prev, curr, s)
    ensures FastPathExact(Content(layers), prev, curr, s)
  {
    hide PartialPixel, FullPixel, Frame, Content, LayersOf, FastPathSafe, WindowsFine, DirtyRect;
    forall x, y | OnScreen(s, x, y)
      ensures PartialPixel(Frame(Content(layers), curr), DirtyRect(prev, curr), s, x, y,
                           FullPixel(Frame(Content(layers), prev), s, x, y))
           == FullPixel(Frame(Content(layers), curr), s, x, y)
    {
      FinePixelRight(layers, windows, prev, curr, s, x, y);
    }
  }

  // --- The conditions are needed ------------------------------------------------------------------

  // One layer draws something, the others nothing.
  function Only(windows: seq<Option<Rect>>, k: nat, body: seq<Item>): seq<Layer> {
    seq(|windows|, i requires 0 <= i < |windows| => Layer(windows[i], if i == k then body else []))
  }

  lemma OnlyIsOf(windows: seq<Option<Rect>>, k: nat, body: seq<Item>)
    requires Flat(body) && ClearsOpaque(body)
    ensures LayersOf(Only(windows, k, body), windows)
  {
  }

  lemma {:induction false} OnlyOne(windows: seq<Option<Rect>>, k: nat, body: seq<Item>, root: Rect, mode: ClearMode,
                                   s: Screen, x: int, y: int, v: Argb)
    ensures LayersValue(Only(windows, k, body), root, mode, s, x, y, v)
         == if k < |windows| then BodyValue(body, LayerClip(windows[k], root), mode, s, x, y, v) else v
  {
    if windows != [] {
      var n := |windows| - 1;
      OnlyOne(windows[..n], k, body, root, mode, s, x, y, v);
      assert Only(windows, k, body)[..n] == Only(windows[..n], k, body);
    }
  }

  lemma OneItem(item: Item, clip: Clip, mode: ClearMode, s: Screen, x: int, y: int, v: Argb)
    ensures BodyValue([item], clip, mode, s, x, y, v) == ValueStep(item, clip, mode, s, x, y, v)
  {
    assert [item][..0] == [];
  }

  // Both repaints of a frame in which one layer draws one fill.
  lemma OneFill(windows: seq<Option<Rect>>, k: nat, fill: Item, cursor: Option<Item>, dirty: Rect, s: Screen,
                x: int, y: int, v: Argb)
    requires CursorOrNone(cursor) && k < |windows| && fill.FillRect?
    ensures FullPixel(Frame(Content(Only(windows, k, [fill])), cursor), s, x, y)
         == WithCursor(cursor, ScreenRect(s), s, x, y,
                       Drawn(fill, LayerClip(windows[k], ScreenRect(s)), s, x, y, CLEAR_COLOR))
    ensures PartialPixel(Frame(Content(Only(windows, k, [fill])), cursor), dirty, s, x, y, v)
         == WithCursor(cursor, dirty, s, x, y,
                       Drawn(fill, LayerClip(windows[k], dirty), s, x, y, Cleared(dirty, s, x, y, v)))
  {
    hide LayersValue, BodyValue, Drawn, Content, Frame, FullPixel, PartialPixel;
    var layers := Only(windows, k, [fill]);
    OnlyIsOf(windows, k, [fill]);
    FramePixels(layers, cursor, dirty, s, x, y, v);
    OnlyOne(windows, k, [fill], ScreenRect(s), Full, s, x, y, CLEAR_COLOR);
    OnlyOne(windows, k, [fill], dirty, ClipTo(dirty), s, x, y, Cleared(dirty, s, x, y, v));
    OneItem(fill, LayerClip(windows[k], ScreenRect(s)), Full, s, x, y, CLEAR_COLOR);
    OneItem(fill, LayerClip(windows[k], dirty), ClipTo(dirty), s, x, y, Cleared(dirty, s, x, y, v));
  }

  // A white fill that one repaint draws on a pixel and the other does not shows, unless hidden.
  lemma FillShows(windows: seq<Option<Rect>>, k: nat, rect: Rect, prev: Option<Item>, curr: Option<Item>, s: Screen,
                  x: int, y: int, v: Argb)
    requires CursorOrNone(prev) && CursorOrNone(curr) && k < |windows| && OnScreen(s, x, y) && !OpaqueAt(curr, x, y)
    requires var dirty := DirtyRect(prev, curr);
             var part := SpanCovers(rect, LayerClip(windows[k], dirty), s, x, y);
             && part != SpanCovers(rect, LayerClip(windows[k], ScreenRect(s)), s, x, y)
             && (part || Inside(dirty, x, y))
    ensures var frame := Frame(Content(Only(windows, k, [FillRect(rect, WHITE)])), curr);
            PartialPixel(frame, DirtyRect(prev, curr), s, x, y, v) != FullPixel(frame, s, x, y)
  {
    hide SpanCovers, LayerClip, Content, Frame, FullPixel, PartialPixel, DirtyRect;
    var dirty, fill := DirtyRect(prev, curr), FillRect(rect, WHITE);
    OneFill(windows, k, fill, curr, dirty, s, x, y, v);
    WhiteDrawn(rect, LayerClip(windows[k], dirty), s, x, y, Cleared(dirty, s, x, y, v));
    WhiteDrawn(rect, LayerClip(windows[k], ScreenRect(s)), s, x, y, CLEAR_COLOR);
    if Inside(dirty, x, y) {
      ClearPaints(dirty, CLEAR_COLOR, s, x, y, v);
    }
    CursorsInDirty(prev, curr, x, y);
    CursorTellsApart(curr, dirty, s, x, y);
  }

  lemma WhiteDrawn(rect: Rect, clip: Clip, s: Screen, x: int, y: int, v: Argb)
    ensures Drawn(FillRect(rect, WHITE), clip, s, x, y, v) == if SpanCovers(rect, clip, s, x, y) then WHITE else v
  {
    hide SpanCovers;
  }
}
