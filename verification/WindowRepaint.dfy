// The exact conditions of the cursor-only fast path for frames with windows, in the buffer and on
// the screen, and why what `tick` shows is right (compositor/src/compositor.rs).
module WindowRepaint {
  import opened Options
  import opened Arithmetic
  import opened Geometry
  import opened Pixel
  import opened Scene
  import opened Repaint
  import opened FastPath
  import opened Layers
  import opened Windows

  // Something is drawn unclipped, as the background and the shadows are.
  predicate HasOpenLayer(windows: seq<Option<Rect>>) { exists k | 0 <= k < |windows| :: windows[k].None? }

  // --- The buffer ---------------------------------------------------------------------------------

  ghost predicate AlwaysExact(windows: seq<Option<Rect>>, prev: Option<Item>, curr: Option<Item>, s: Screen)
    requires CursorOrNone(prev) && CursorOrNone(curr)
  {
    forall layers | LayersOf(layers, windows) :: FastPathExact(Content(layers), prev, curr, s)
  }

  lemma ExactOnly(windows: seq<Option<Rect>>, k: nat, fill: Item, prev: Option<Item>, curr: Option<Item>, s: Screen,
                  x: int, y: int)
    requires CursorOrNone(prev) && CursorOrNone(curr) && AlwaysExact(windows, prev, curr, s)
    requires OnScreen(s, x, y) && fill.FillRect?
    ensures PartialPixel(Frame(Content(Only(windows, k, [fill])), curr), DirtyRect(prev, curr), s, x, y,
                         FullPixel(Frame(Content(Only(windows, k, [fill])), prev), s, x, y))
         == FullPixel(Frame(Content(Only(windows, k, [fill])), curr), s, x, y)
  {
    hide PartialPixel, FullPixel, Frame, Content, DirtyRect;
    OnlyIsOf(windows, k, [fill]);
    assert FastPathExact(Content(Only(windows, k, [fill])), prev, curr, s);
  }

  lemma NeedsSafe(windows: seq<Option<Rect>>, prev: Option<Item>, curr: Option<Item>, s: Screen)
    requires CursorOrNone(prev) && CursorOrNone(curr) && HasOpenLayer(windows) && AlwaysExact(windows, prev, curr, s)
    ensures FastPathSafe(prev, curr, s)
  {
    hide AlwaysExact, PartialPixel, FullPixel, Frame, Content;
    var dirty := DirtyRect(prev, curr);
    var k :| 0 <= k < |windows| && windows[k].None?;
    if dirty.x < 0 || dirty.y < 0 {
      forall x, y | OnScreen(s, x, y) && SpanCovers(dirty, None, s, x, y) ensures OpaqueAt(curr, x, y) {
        if !OpaqueAt(curr, x, y) {
          var rect := OverrunRect(dirty, x, y);
          Overruns(dirty, s, x, y);
          SpanHonoursClip(rect, Some(ScreenRect(s)), s, x, y);
          var fill := FillRect(rect, WHITE);
          var v := FullPixel(Frame(Content(Only(windows, k, [fill])), prev), s, x, y);
          ExactOnly(windows, k, fill, prev, curr, s, x, y);
          FillShows(windows, k, rect, prev, curr, s, x, y, v);
          assert false;
        }
      }
    }
  }

  // A window on the screen that the dirty rectangle misses is painted unclipped.
  lemma NeedsMeeting(windows: seq<Option<Rect>>, k: nat, prev: Option<Item>, curr: Option<Item>, s: Screen)
    requires CursorOrNone(prev) && CursorOrNone(curr) && AlwaysExact(windows, prev, curr, s)
    requires k < |windows| && windows[k].Some? && Meets(windows[k].value, ScreenRect(s))
    ensures Meets(windows[k].value, DirtyRect(prev, curr))
  {
    hide AlwaysExact, PartialPixel, FullPixel, Frame, Content;
    var dirty := DirtyRect(prev, curr);
    if !Meets(windows[k].value, dirty) {
      var p := IntersectRect(ScreenRect(s), windows[k].value).value;
      var x, y := p.x, p.y;
      assert Inside(p, x, y) && OnScreen(s, x, y) && !Inside(dirty, x, y);
      CursorsInDirty(prev, curr, x, y);
      var rect := Rect(-1, y, x + 1, 1);
      var fill := FillRect(rect, WHITE);
      SpanHonoursClip(rect, Some(p), s, x, y);
      var v := FullPixel(Frame(Content(Only(windows, k, [fill])), prev), s, x, y);
      ExactOnly(windows, k, fill, prev, curr, s, x, y);
      FillShows(windows, k, rect, prev, curr, s, x, y, v);
      assert false;
    }
  }

  // A window off the screen that the dirty rectangle meets is painted in the full frame only.
  lemma NeedsHidden(windows: seq<Option<Rect>>, k: nat, prev: Option<Item>, curr: Option<Item>, s: Screen)
    requires CursorOrNone(prev) && CursorOrNone(curr) && AlwaysExact(windows, prev, curr, s)
    requires k < |windows| && windows[k].Some?
    requires !Meets(windows[k].value, ScreenRect(s)) && Meets(windows[k].value, DirtyRect(prev, curr))
    ensures DirtyHidden(prev, curr, s)
  {
    hide AlwaysExact, PartialPixel, FullPixel, Frame, Content;
    var dirty := DirtyRect(prev, curr);
    forall x, y | OnScreen(s, x, y) && Inside(dirty, x, y) ensures OpaqueAt(curr, x, y) {
      if !OpaqueAt(curr, x, y) {
        OnlyFullPaints(windows[k].value, dirty, s, x, y);
        var fill := FillRect(ScreenRect(s), WHITE);
        var v := FullPixel(Frame(Content(Only(windows, k, [fill])), prev), s, x, y);
        ExactOnly(windows, k, fill, prev, curr, s, x, y);
        FillShows(windows, k, ScreenRect(s), prev, curr, s, x, y, v);
        assert false;
      }
    }
  }

  lemma OnlyFullPaints(window: Rect, dirty: Rect, s: Screen, x: int, y: int)
    requires OnScreen(s, x, y) && !Meets(window, ScreenRect(s)) && Meets(window, dirty)
    ensures SpanCovers(ScreenRect(s), LayerClip(Some(window), ScreenRect(s)), s, x, y)
    ensures !SpanCovers(ScreenRect(s), LayerClip(Some(window), dirty), s, x, y)
  {
    var part := IntersectRect(dirty, window).value;
    assert IntersectRect(ScreenRect(s), part).None?;
  }

  const GREY := Argb(128, 255, 255, 255)

  lemma GreyTwice()
    ensures Over(GREY, Over(GREY, CLEAR_COLOR)) != Over(GREY, CLEAR_COLOR)
  {
    assert Over(GREY, CLEAR_COLOR) == Argb(255, 128, 128, 128);
  }

  // A window that meets neither is painted unclipped in both, and so twice on a clean pixel.
  lemma NeedsAllDirty(windows: seq<Option<Rect>>, k: nat, prev: Option<Item>, curr: Option<Item>, s: Screen)
    requires CursorOrNone(prev) && CursorOrNone(curr) && AlwaysExact(windows, prev, curr, s)
    requires FastPathSafe(prev, curr, s) && k < |windows| && windows[k].Some?
    requires !Meets(windows[k].value, ScreenRect(s)) && !Meets(windows[k].value, DirtyRect(prev, curr))
    ensures AllDirty(DirtyRect(prev, curr), s)
  {
    hide AlwaysExact, PartialPixel, FullPixel, Frame, Content, FastPathSafe, DirtyRect;
    var dirty := DirtyRect(prev, curr);
    forall x, y | OnScreen(s, x, y) ensures Inside(dirty, x, y) {
      if !Inside(dirty, x, y) {
        CursorsInDirty(prev, curr, x, y);
        SafeSpan(prev, curr, s, x, y);
        var fill := FillRect(ScreenRect(s), GREY);
        var content := Content(Only(windows, k, [fill]));
        var v := FullPixel(Frame(content, prev), s, x, y);
        ExactOnly(windows, k, fill, prev, curr, s, x, y);
        OneFill(windows, k, fill, curr, dirty, s, x, y, v);
        OneFill(windows, k, fill, prev, dirty, s, x, y, v);
        DrawnTwice(windows[k], fill, prev, curr, dirty, s, x, y, v);
        assert false;
      }
    }
  }

  lemma DrawnTwice(window: Option<Rect>, fill: Item, prev: Option<Item>, curr: Option<Item>, dirty: Rect, s: Screen,
                   x: int, y: int, v: Argb)
    requires CursorOrNone(prev) && CursorOrNone(curr) && fill == FillRect(ScreenRect(s), GREY) && window.Some?
    requires OnScreen(s, x, y) && !Meets(window.value, ScreenRect(s)) && !Meets(window.value, dirty)
    requires !SpanCovers(dirty, None, s, x, y)
    requires prev.Some? ==> !Inside(CursorRect(prev.value), x, y)
    requires curr.Some? ==> !Inside(CursorRect(curr.value), x, y)
    requires v == WithCursor(prev, ScreenRect(s), s, x, y,
                             Drawn(fill, LayerClip(window, ScreenRect(s)), s, x, y, CLEAR_COLOR))
    ensures WithCursor(curr, dirty, s, x, y, Drawn(fill, LayerClip(window, dirty), s, x, y, Cleared(dirty, s, x, y, v)))
         != WithCursor(curr, ScreenRect(s), s, x, y,
                       Drawn(fill, LayerClip(window, ScreenRect(s)), s, x, y, CLEAR_COLOR))
  {
    NotDrawnOutsideSpan(FillRect(dirty, CLEAR_COLOR), dirty, s, x, y, v);
    GreyTwice();
    hide Over;
  }

  // The buffer is repainted right whatever the windows show if and only if the dirty rectangle does
  // not start off screen, or all it reaches is hidden, and every window is fine.
  lemma WindowsIff(windows: seq<Option<Rect>>, prev: Option<Item>, curr: Option<Item>, s: Screen)
    requires CursorOrNone(prev) && CursorOrNone(curr) && HasOpenLayer(windows)
    ensures FastPathSafe(prev, curr, s) && WindowsFine(windows, prev, curr, s)
       <==> (forall layers | LayersOf(layers, windows) :: FastPathExact(Content(layers), prev, curr, s))
  {
    hide LayersOf, FastPathExact, Content, FastPathSafe, HasOpenLayer, Meets, AllDirty, DirtyHidden, DirtyRect;
    if FastPathSafe(prev, curr, s) && WindowsFine(windows, prev, curr, s) {
      forall layers | LayersOf(layers, windows) ensures FastPathExact(Content(layers), prev, curr, s) {
        FineIsExact(layers, windows, prev, curr, s);
      }
    }
    if AlwaysExact(windows, prev, curr, s) {
      NeedsSafe(windows, prev, curr, s);
      forall k | 0 <= k < |windows| && windows[k].Some? ensures WindowFine(windows[k].value, prev, curr, s) {
        if Meets(windows[k].value, ScreenRect(s)) {
          NeedsMeeting(windows, k, prev, curr, s);
        } else if Meets(windows[k].value, DirtyRect(prev, curr)) {
          NeedsHidden(windows, k, prev, curr, s);
        } else {
          NeedsAllDirty(windows, k, prev, curr, s);
        }
      }
    }
  }

  // --- The screen ---------------------------------------------------------------------------------

  // What is shown is right whatever the windows show if and only if the cursor hides every dirty
  // pixel, or the dirty rectangle does not start off screen and each window meets it exactly if it
  // meets the screen.
  lemma ShownWindowsIff(windows: seq<Option<Rect>>, prev: Option<Item>, curr: Option<Item>, s: Screen)
    requires CursorOrNone(prev) && CursorOrNone(curr) && HasOpenLayer(windows)
    ensures (var dirty := DirtyRect(prev, curr);
             || DirtyHidden(prev, curr, s)
             || (0 <= dirty.x && 0 <= dirty.y && forall k | 0 <= k < |windows| :: ClipsAlike(windows[k], dirty, s)))
       <==> (forall layers | LayersOf(layers, windows) :: ShownExact(Content(layers), prev, curr, s))
  {
    hide Content, HasOpenLayer, ClipsAlike, DirtyRect;
    var dirty := DirtyRect(prev, curr);
    if DirtyHidden(prev, curr, s)
       || (0 <= dirty.x && 0 <= dirty.y && forall k | 0 <= k < |windows| :: ClipsAlike(windows[k], dirty, s)) {
      forall layers | LayersOf(layers, windows) ensures ShownExact(Content(layers), prev, curr, s) {
        AlikeIsShown(layers, windows, prev, curr, s);
      }
    } else {
      var x, y :| OnScreen(s, x, y) && Inside(dirty, x, y) && !OpaqueAt(curr, x, y);
      var layers := UnlikeIsNotShown(windows, prev, curr, s, x, y);
    }
  }

  lemma AlikeIsShown(layers: seq<Layer>, windows: seq<Option<Rect>>, prev: Option<Item>, curr: Option<Item>, s: Screen)
    requires CursorOrNone(prev) && CursorOrNone(curr) && LayersOf(layers, windows)
    requires var dirty := DirtyRect(prev, curr);
             || DirtyHidden(prev, curr, s)
             || (0 <= dirty.x && 0 <= dirty.y && forall k | 0 <= k < |windows| :: ClipsAlike(windows[k], dirty, s))
    ensures ShownExact(Content(layers), prev, curr, s)
  {
    hide PartialPixel, FullPixel, Frame, Content, AllFlat, DirtyRect, ClipsAlike, OpaqueAt;
    var dirty := DirtyRect(prev, curr);
    forall x, y, v | OnScreen(s, x, y) && Inside(dirty, x, y)
      ensures PartialPixel(Frame(Content(layers), curr), dirty, s, x, y, v)
              == FullPixel(Frame(Content(layers), curr), s, x, y)
    {
      if OpaqueAt(curr, x, y) {
        HiddenPixelRight(layers, prev, curr, s, x, y, v);
      } else {
        forall k | 0 <= k < |layers|
          ensures SameCover(layers[k].body, LayerClip(layers[k].window, ScreenRect(s)),
                            LayerClip(layers[k].window, dirty), s, x, y)
        {
          AlikeCover(layers[k].body, layers[k].window, dirty, s, x, y);
        }
        DirtyPixelRight(layers, prev, curr, s, x, y, v);
      }
    }
  }

  // Layers that show a wrong pixel.
  lemma UnlikeIsNotShown(windows: seq<Option<Rect>>, prev: Option<Item>, curr: Option<Item>, s: Screen, x: int, y: int)
    returns (layers: seq<Layer>)
    requires CursorOrNone(prev) && CursorOrNone(curr) && HasOpenLayer(windows)
    requires OnScreen(s, x, y) && Inside(DirtyRect(prev, curr), x, y) && !OpaqueAt(curr, x, y)
    requires var dirty := DirtyRect(prev, curr);
             !(0 <= dirty.x && 0 <= dirty.y && forall k | 0 <= k < |windows| :: ClipsAlike(windows[k], dirty, s))
    ensures LayersOf(layers, windows) && !ShownExact(Content(layers), prev, curr, s)
  {
    hide PartialPixel, FullPixel, Frame, Content, OpaqueAt, SpanCovers, DirtyRect, LayerClip, Only;
    var k, rect := UnlikeFill(windows, DirtyRect(prev, curr), s, x, y);
    layers := Only(windows, k, [FillRect(rect, WHITE)]);
    OnlyIsOf(windows, k, [FillRect(rect, WHITE)]);
    FillShows(windows, k, rect, prev, curr, s, x, y, CLEAR_COLOR);
  }

  // A fill that the two repaints draw differently on a dirty pixel.
  lemma UnlikeFill(windows: seq<Option<Rect>>, dirty: Rect, s: Screen, x: int, y: int) returns (k: nat, rect: Rect)
    requires HasOpenLayer(windows) && OnScreen(s, x, y) && Inside(dirty, x, y)
    requires !(0 <= dirty.x && 0 <= dirty.y && forall k | 0 <= k < |windows| :: ClipsAlike(windows[k], dirty, s))
    ensures k < |windows|
    ensures SpanCovers(rect, LayerClip(windows[k], dirty), s, x, y)
         != SpanCovers(rect, LayerClip(windows[k], ScreenRect(s)), s, x, y)
  {
    if dirty.x < 0 || dirty.y < 0 {
      k :| 0 <= k < |windows| && windows[k].None?;
      rect := OverrunRect(dirty, x, y);
      SpanOfInside(dirty, s, x, y);
      Overruns(dirty, s, x, y);
      SpanHonoursClip(rect, Some(ScreenRect(s)), s, x, y);
    } else {
      k :| 0 <= k < |windows| && !ClipsAlike(windows[k], dirty, s);
      if Meets(windows[k].value, dirty) {
        rect := ScreenRect(s);
        OnlyFullPaints(windows[k].value, dirty, s, x, y);
      } else {
        rect := Rect(-1, y, x + 1, 1);
        SpanHonoursClip(rect, IntersectRect(ScreenRect(s), windows[k].value), s, x, y);
      }
    }
  }

  // --- What tick draws ----------------------------------------------------------------------------

  // No rectangle starts left of or above the screen.
  predicate StartsOnScreen(body: seq<Item>) {
    forall k | 0 <= k < |body| && (body[k].FillRect? || body[k].HatchRect? || body[k].BlitImage?) ::
      0 <= body[k].rect.x && 0 <= body[k].rect.y
  }

  // Even unclipped, a body paints only inside its window.
  ghost predicate StaysIn(body: seq<Item>, window: Rect, s: Screen) {
    forall k, x, y | 0 <= k < |body| && OnScreen(s, x, y) && Covers(body[k], None, s, x, y) :: Inside(window, x, y)
  }

  ghost predicate WellPlaced(layers: seq<Layer>, s: Screen) {
    && AllFlat(layers)
    && forall k | 0 <= k < |layers| ::
         && StartsOnScreen(layers[k].body)
         && (layers[k].window.Some? ==> StaysIn(layers[k].body, layers[k].window.value, s))
  }

  // A rectangle that starts on the screen is painted exactly, whatever the clip.
  lemma StartingSpan(rect: Rect, clip: Clip, s: Screen, x: int, y: int)
    requires OnScreen(s, x, y) && 0 <= rect.x && 0 <= rect.y
    ensures SpanCovers(rect, clip, s, x, y) <==> Inside(rect, x, y) && InClip(clip, x, y)
  {
    var r := ApplyClip(rect, clip);
    if r.Some? {
      SpanOnAxis(r.value.x, r.value.width, s.width, x);
      SpanOnAxis(r.value.y, r.value.height, s.height, y);
    }
  }

  // So is every item of such a body: unclipped, and inside the clip.
  lemma StartingCover(body: seq<Item>, k: nat, clip: Clip, s: Screen, x: int, y: int)
    requires OnScreen(s, x, y) && StartsOnScreen(body) && k < |body|
    ensures Covers(body[k], clip, s, x, y) <==> Covers(body[k], None, s, x, y) && InClip(clip, x, y)
  {
    var item := body[k];
    if item.FillRect? || item.HatchRect? || item.BlitImage? {
      StartingSpan(item.rect, clip, s, x, y);
      StartingSpan(item.rect, None, s, x, y);
    }
  }

  lemma PlacedCover(l: Layer, dirty: Rect, s: Screen, x: int, y: int)
    requires OnScreen(s, x, y) && Inside(dirty, x, y) && StartsOnScreen(l.body)
    requires l.window.Some? ==> StaysIn(l.body, l.window.value, s)
    ensures SameCover(l.body, LayerClip(l.window, ScreenRect(s)), LayerClip(l.window, dirty), s, x, y)
  {
    var full, part := LayerClip(l.window, ScreenRect(s)), LayerClip(l.window, dirty);
    forall k | 0 <= k < |l.body| ensures Covers(l.body[k], full, s, x, y) <==> Covers(l.body[k], part, s, x, y) {
      StartingCover(l.body, k, full, s, x, y);
      StartingCover(l.body, k, part, s, x, y);
      hide Covers;
    }
  }

  // Frames whose rectangles start on the screen and whose windows stay inside their frames are
  // shown right, wherever the cursor and the windows are.
  lemma WellPlacedIsShown(layers: seq<Layer>, prev: Option<Item>, curr: Option<Item>, s: Screen)
    requires CursorOrNone(prev) && CursorOrNone(curr) && WellPlaced(layers, s)
    ensures ShownExact(Content(layers), prev, curr, s)
  {
    hide PartialPixel, FullPixel, Frame, Content, AllFlat, DirtyRect, StaysIn, StartsOnScreen, LayerClip, SameCover;
    var dirty := DirtyRect(prev, curr);
    forall x, y, v | OnScreen(s, x, y) && Inside(dirty, x, y)
      ensures PartialPixel(Frame(Content(layers), curr), dirty, s, x, y, v)
              == FullPixel(Frame(Content(layers), curr), s, x, y)
    {
      forall k | 0 <= k < |layers|
        ensures SameCover(layers[k].body, LayerClip(layers[k].window, ScreenRect(s)),
                          LayerClip(layers[k].window, dirty), s, x, y)
      {
        PlacedCover(layers[k], dirty, s, x, y);
      }
      DirtyPixelRight(layers, prev, curr, s, x, y, v);
    }
  }

  // --- When a frame is known to be right ------------------------------------------------------------

  function WindowsOf(layers: seq<Layer>): seq<Option<Rect>> {
    seq(|layers|, k requires 0 <= k < |layers| => layers[k].window)
  }

  // The layers have this content, and every window is fine.
  ghost predicate FineLayers(layers: seq<Layer>, content: seq<Item>, prev: Option<Item>, curr: Option<Item>, s: Screen)
    requires CursorOrNone(prev) && CursorOrNone(curr)
  {
    content == Content(layers) && AllFlat(layers) && WindowsFine(WindowsOf(layers), prev, curr, s)
  }

  // Conditions on a frame under which the buffer ends as the full frame with the new cursor.
  ghost predicate BufferRight(content: seq<Item>, prev: Option<Item>, curr: Option<Item>, s: Screen)
    requires CursorOrNone(prev) && CursorOrNone(curr)
  {
    || Repaintable(Frame(content, curr), DirtyRect(prev, curr), s)
    || (FastPathSafe(prev, curr, s) && PushFree(content) && ClearsOpaque(content))
    || (FastPathSafe(prev, curr, s) && exists layers :: FineLayers(layers, content, prev, curr, s))
  }

  lemma BufferRightIsExact(content: seq<Item>, prev: Option<Item>, curr: Option<Item>, s: Screen)
    requires CursorOrNone(prev) && CursorOrNone(curr)
    ensures BufferRight(content, prev, curr, s) ==> FastPathExact(content, prev, curr, s)
  {
    hide FastPathExact, Repaintable, FastPathSafe, PushFree, ClearsOpaque, AllFlat, WindowsFine;
    hide Frame, Content, DirtyRect;
    ExactWhen(content, prev, curr, s);
    if FastPathSafe(prev, curr, s) && exists layers :: FineLayers(layers, content, prev, curr, s) {
      var layers :| FineLayers(layers, content, prev, curr, s);
      FineIsExact(layers, WindowsOf(layers), prev, curr, s);
    }
  }

  // Conditions on a frame under which what is shown is the full frame with the new cursor.
  ghost predicate ScreenRight(content: seq<Item>, prev: Option<Item>, curr: Option<Item>, s: Screen)
    requires CursorOrNone(prev) && CursorOrNone(curr)
  {
    || Repaintable(Frame(content, curr), DirtyRect(prev, curr), s)
    || (ShownSafe(prev, curr, s) && PushFree(content) && ClearsOpaque(content))
    || (exists layers :: content == Content(layers) && WellPlaced(layers, s))
  }

  lemma ScreenRightIsShown(content: seq<Item>, prev: Option<Item>, curr: Option<Item>, s: Screen)
    requires CursorOrNone(prev) && CursorOrNone(curr)
    ensures ScreenRight(content, prev, curr, s) ==> ShownExact(content, prev, curr, s)
  {
    hide ShownExact, Repaintable, ShownSafe, PushFree, ClearsOpaque, WellPlaced, Frame, Content, DirtyRect;
    ShownWhen(content, prev, curr, s);
    if exists layers :: content == Content(layers) && WellPlaced(layers, s) {
      var layers :| content == Content(layers) && WellPlaced(layers, s);
      WellPlacedIsShown(layers, prev, curr, s);
    }
  }

  // --- Two windows --------------------------------------------------------------------------------

  // A window below another one that fills itself.
  function Filled(window: Rect, color: Argb): Layer { Layer(Some(window), [FillRect(window, color)]) }

  function TwoWindows(lower: Rect, upper: Rect,
                      color: Argb): seq<Layer> { [Filled(lower, color), Filled(upper, WHITE)] }

  lemma TwoLayers(lower: Rect, upper: Rect, color: Argb, root: Rect, mode: ClearMode, s: Screen, x: int, y: int,
                  v: Argb)
    ensures LayersValue(TwoWindows(lower, upper, color), root, mode, s, x, y, v)
         == Drawn(FillRect(upper, WHITE), IntersectRect(root, upper), s, x, y,
                  Drawn(FillRect(lower, color), IntersectRect(root, lower), s, x, y, v))
  {
    hide IntersectRect, Drawn;
    var layers := TwoWindows(lower, upper, color);
    assert layers[..1] == [Filled(lower, color)] && layers[..1][..0] == [];
    OneItem(FillRect(lower, color), IntersectRect(root, lower), mode, s, x, y, v);
    OneItem(FillRect(upper, WHITE), IntersectRect(root, upper), mode, s, x, y,
            Drawn(FillRect(lower, color), IntersectRect(root, lower), s, x, y, v));
    hide BodyValue;
    assert LayersValue(layers[..1], root, mode, s, x, y, v)
        == Drawn(FillRect(lower, color), IntersectRect(root, lower), s, x, y, v);
  }

  // If the dirty rectangle meets the upper window but misses the lower one, the lower window is
  // painted over the upper one in the buffer, wherever they overlap.
  lemma LowerWindowCovers(lower: Rect, upper: Rect, color: Argb, prev: Option<Item>, curr: Option<Item>, s: Screen,
                          x: int, y: int)
    requires CursorOrNone(prev) && CursorOrNone(curr) && OnScreen(s, x, y) && color.a == 255
    requires 0 <= DirtyRect(prev, curr).x && 0 <= DirtyRect(prev, curr).y
    requires Meets(upper, DirtyRect(prev, curr)) && !Meets(lower, DirtyRect(prev, curr))
    requires Inside(lower, x, y) && Inside(upper, x, y) && !Inside(DirtyRect(prev, curr), x, y)
    ensures var content := Content(TwoWindows(lower, upper, color));
            && FullPixel(Frame(content, curr), s, x, y) == WHITE
            && PartialPixel(Frame(content, curr), DirtyRect(prev, curr), s, x, y,
                            FullPixel(Frame(content, prev), s, x, y)) == color
  {
    hide FullPixel, PartialPixel, Frame, Content, LayersValue, DirtyRect, TwoWindows, AllFlat, Drawn, Paint,
         IntersectRect, Meets, Cleared, WithCursor;
    TwoFlatWindows(lower, upper, color);
    var layers, dirty := TwoWindows(lower, upper, color), DirtyRect(prev, curr);
    var v := FullPixel(Frame(Content(layers), prev), s, x, y);
    CursorsInDirty(prev, curr, x, y);
    FramePixels(layers, curr, dirty, s, x, y, v);
    TwoLayers(lower, upper, color, ScreenRect(s), Full, s, x, y, CLEAR_COLOR);
    TwoLayers(lower, upper, color, dirty, ClipTo(dirty), s, x, y, Cleared(dirty, s, x, y, v));
    BothFilled(lower, upper, color, s, x, y);
    OnlyLowerFilled(lower, upper, color, dirty, s, x, y, v);
    NoCursorHere(curr, ScreenRect(s), s, x, y, WHITE);
    NoCursorHere(curr, dirty, s, x, y, color);
  }

  lemma TwoFlatWindows(lower: Rect, upper: Rect, color: Argb)
    ensures AllFlat(TwoWindows(lower, upper, color))
  {
  }

  lemma NoCursorHere(cursor: Option<Item>, root: Rect, s: Screen, x: int, y: int, v: Argb)
    requires CursorOrNone(cursor) && (cursor.Some? ==> !Inside(CursorRect(cursor.value), x, y))
    ensures WithCursor(cursor, root, s, x, y, v) == v
  {
  }

  lemma OpaqueFill(rect: Rect, color: Argb, clip: Clip, s: Screen, x: int, y: int, v: Argb)
    requires color.a == 255
    ensures Drawn(FillRect(rect, color), clip, s, x, y, v) == if SpanCovers(rect, clip, s, x, y) then color else v
  {
    hide SpanCovers;
  }

  lemma BothFilled(lower: Rect, upper: Rect, color: Argb, s: Screen, x: int, y: int)
    requires OnScreen(s, x, y) && Inside(lower, x, y) && Inside(upper, x, y)
    ensures Drawn(FillRect(upper, WHITE), IntersectRect(ScreenRect(s), upper), s, x, y,
                  Drawn(FillRect(lower, color), IntersectRect(ScreenRect(s), lower), s, x, y, CLEAR_COLOR)) == WHITE
  {
    var clip := IntersectRect(ScreenRect(s), upper);
    SpanHonoursClip(upper, clip, s, x, y);
    OpaqueFill(upper, WHITE, clip, s, x, y,
               Drawn(FillRect(lower, color), IntersectRect(ScreenRect(s), lower), s, x, y, CLEAR_COLOR));
  }

  lemma OnlyLowerFilled(lower: Rect, upper: Rect, color: Argb, dirty: Rect, s: Screen, x: int, y: int, v: Argb)
    requires OnScreen(s, x, y) && 0 <= dirty.x && 0 <= dirty.y && color.a == 255
    requires Meets(upper, dirty) && !Meets(lower, dirty)
    requires Inside(lower, x, y) && !Inside(dirty, x, y)
    ensures Drawn(FillRect(upper, WHITE), IntersectRect(dirty, upper), s, x, y,
                  Drawn(FillRect(lower, color), IntersectRect(dirty, lower), s, x, y, Cleared(dirty, s, x, y, v)))
                    == color
  {
    var below := Cleared(dirty, s, x, y, v);
    SpanOfInside(lower, s, x, y);
    SpanHonoursClip(upper, IntersectRect(dirty, upper), s, x, y);
    OpaqueFill(lower, color, None, s, x, y, below);
    OpaqueFill(upper, WHITE, IntersectRect(dirty, upper), s, x, y, color);
  }

  const RED := Argb(255, 255, 0, 0)

  // The arrow moves by one pixel over the upper of two windows: where the lower window overlaps it,
  // away from the arrow, the buffer turns red.
  lemma ArrowUncoversLowerWindow(sprite: Bitmap, s: Screen)
    requires sprite.width == 98 && sprite.height == 98 && s == Screen(640, 480)
    ensures var prev := Some(PointerItem(300, 300, sprite, 0, 0, s));
            var curr := Some(PointerItem(301, 300, sprite, 0, 0, s));
            var content := Content(TwoWindows(Rect(100, 100, 100, 100), Rect(150, 150, 200, 200), RED));
            && FullPixel(Frame(content, curr), s, 160, 160) == WHITE
            && PartialPixel(Frame(content, curr), DirtyRect(prev, curr), s, 160, 160,
                            FullPixel(Frame(content, prev), s, 160, 160)) == RED
  {
    var prev, curr := Some(PointerItem(300, 300, sprite, 0, 0, s)), Some(PointerItem(301, 300, sprite, 0, 0, s));
    assert DirtyRect(prev, curr) == Rect(300, 300, 99, 98);
    var lower, upper := Rect(100, 100, 100, 100), Rect(150, 150, 200, 200);
    assert Meets(upper, DirtyRect(prev, curr)) && !Meets(lower, DirtyRect(prev, curr));
    hide FullPixel, PartialPixel, Frame, Content, DirtyRect, PointerItem, TwoWindows, Meets;
    LowerWindowCovers(lower, upper, RED, prev, curr, s, 160, 160);
  }

  // A window away from the cursor is not clipped: what it paints beyond its frame is shown where it
  // is dirty.
  lemma OverflowShows(window: Rect, rect: Rect, prev: Option<Item>, curr: Option<Item>, s: Screen,
                      x: int, y: int, v: Argb)
    requires CursorOrNone(prev) && CursorOrNone(curr) && OnScreen(s, x, y) && !OpaqueAt(curr, x, y)
    requires Meets(window, ScreenRect(s)) && !Meets(window, DirtyRect(prev, curr))
    requires Inside(rect, x, y) && Inside(DirtyRect(prev, curr), x, y)
    ensures var frame := Frame(Content(Only([Some(window)], 0, [FillRect(rect, WHITE)])), curr);
            PartialPixel(frame, DirtyRect(prev, curr), s, x, y, v) != FullPixel(frame, s, x, y)
  {
    hide FullPixel, PartialPixel, Frame, Content, DirtyRect, Only, OpaqueAt;
    SpanHonoursClip(rect, IntersectRect(ScreenRect(s), window), s, x, y);
    SpanOfInside(rect, s, x, y);
    FillShows([Some(window)], 0, rect, prev, curr, s, x, y, v);
  }

  // The arrow moves by one pixel, and a fill that overflows a window far away shows through a
  // transparent pixel of it.
  lemma ArrowShowsOverflow(sprite: Bitmap, s: Screen, v: Argb)
    requires sprite.width == 98 && sprite.height == 98 && s == Screen(640, 480)
    requires Cell(sprite, 89, 90).a < 255
    ensures var prev := Some(PointerItem(300, 300, sprite, 0, 0, s));
            var curr := Some(PointerItem(301, 300, sprite, 0, 0, s));
            var window, rect := Some(Rect(100, 100, 140, 100)), Rect(100, 100, 300, 300);
            var frame := Frame(Content(Only([window], 0, [FillRect(rect, WHITE)])), curr);
            PartialPixel(frame, DirtyRect(prev, curr), s, 390, 390, v) != FullPixel(frame, s, 390, 390)
  {
    ArrowGeometry(sprite, s);
    hide FullPixel, PartialPixel, Frame, Content, DirtyRect, Only, OpaqueAt, PointerItem, CursorRect, ScreenRect;
    OverflowShows(Rect(100, 100, 140, 100), Rect(100, 100, 300, 300), Some(PointerItem(300, 300, sprite, 0, 0, s)),
                  Some(PointerItem(301, 300, sprite, 0, 0, s)), s, 390, 390, v);
  }

  lemma ArrowGeometry(sprite: Bitmap, s: Screen)
    requires sprite.width == 98 && sprite.height == 98 && s == Screen(640, 480)
    requires Cell(sprite, 89, 90).a < 255
    ensures var prev := Some(PointerItem(300, 300, sprite, 0, 0, s));
            var curr := Some(PointerItem(301, 300, sprite, 0, 0, s));
            var window := Rect(100, 100, 140, 100);
            && Meets(window, ScreenRect(s)) && !Meets(window, DirtyRect(prev, curr))
            && Inside(DirtyRect(prev, curr), 390, 390) && !OpaqueAt(curr, 390, 390)
  {
    var prev, curr := Some(PointerItem(300, 300, sprite, 0, 0, s)), Some(PointerItem(301, 300, sprite, 0, 0, s));
    assert DirtyRect(prev, curr) == Rect(300, 300, 99, 98) && CursorRect(curr.value) == Rect(301, 300, 98, 98);
  }
}
