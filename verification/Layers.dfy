// Frames as `tick` draws them: layers, each drawn under the clip of its own window or unclipped,
// and what they mean at one pixel (compositor/src/compositor.rs).
module Layers {
  import opened Options
  import opened Geometry
  import opened Pixel
  import opened Scene
  import opened Repaint
  import opened FastPath

  // What is drawn between the push and the pop of a window, or unclipped between windows.
  datatype Layer = Layer(window: Option<Rect>, body: seq<Item>)

  // Windows are not nested.
  predicate Flat(body: seq<Item>) {
    forall k | 0 <= k < |body| :: !body[k].ClipPush? && !body[k].ClipPop?
  }

  predicate AllFlat(layers: seq<Layer>) {
    forall k | 0 <= k < |layers| :: Flat(layers[k].body) && ClearsOpaque(layers[k].body)
  }

  function LayerItems(l: Layer): seq<Item> {
    if l.window.Some? then [ClipPush(l.window.value)] + l.body + [ClipPop] else l.body
  }

  function Content(layers: seq<Layer>): seq<Item> {
    if layers == [] then [] else Content(layers[..|layers| - 1]) + LayerItems(layers[|layers| - 1])
  }

  // --- One pixel --------------------------------------------------------------------------------

  // The clip a layer is drawn under.
  function LayerClip(window: Option<Rect>, root: Rect): Clip {
    if window.Some? then IntersectRect(root, window.value) else Some(root)
  }

  function BodyValue(body: seq<Item>, clip: Clip, mode: ClearMode, s: Screen, x: int, y: int, v: Argb): Argb {
    if body == [] then v
    else ValueStep(body[|body| - 1], clip, mode, s, x, y, BodyValue(body[..|body| - 1], clip, mode, s, x, y, v))
  }

  function LayersValue(layers: seq<Layer>, root: Rect, mode: ClearMode, s: Screen, x: int, y: int, v: Argb): Argb {
    if layers == [] then v
    else
      var last := layers[|layers| - 1];
      BodyValue(last.body, LayerClip(last.window, root), mode, s, x, y,
                LayersValue(layers[..|layers| - 1], root, mode, s, x, y, v))
  }

  lemma {:induction false} BodyAfter(items: seq<Item>, body: seq<Item>, root: Rect, mode: ClearMode, s: Screen,
                                     x: int, y: int, v: Argb)
    requires Flat(body)
    ensures StackAfter(items + body, [Some(root)]) == StackAfter(items, [Some(root)])
    ensures ValueAfter(items + body, root, mode, s, x, y, v)
         == BodyValue(body, Top(StackAfter(items, [Some(root)])), mode, s, x, y,
                      ValueAfter(items, root, mode, s, x, y, v))
  {
    hide StackAfter, ValueAfter, ValueStep, Top;
    if body == [] {
      assert items + body == items;
    } else {
      var before, item := body[..|body| - 1], body[|body| - 1];
      BodyAfter(items, before, root, mode, s, x, y, v);
      assert items + body == items + before + [item];
      OneMoreItem(items + before, item, root, mode, s, x, y, v);
    }
  }

  // A layer leaves the clip stack as it was.
  lemma LayerAfter(items: seq<Item>, l: Layer, root: Rect, mode: ClearMode, s: Screen, x: int, y: int, v: Argb)
    requires Flat(l.body) && StackAfter(items, [Some(root)]) == [Some(root)]
    ensures StackAfter(items + LayerItems(l), [Some(root)]) == [Some(root)]
    ensures ValueAfter(items + LayerItems(l), root, mode, s, x, y, v)
         == BodyValue(l.body, LayerClip(l.window, root), mode, s, x, y, ValueAfter(items, root, mode, s, x, y, v))
  {
    hide BodyValue;
    if l.window.Some? {
      var push := ClipPush(l.window.value);
      PushAfter(items, l.window.value, root, mode, s, x, y, v);
      BodyAfter(items + [push], l.body, root, mode, s, x, y, v);
      PopAfter(items + [push] + l.body, root, LayerClip(l.window, root), mode, s, x, y, v);
      hide StackAfter, ValueAfter, IntersectRect;
      assert items + LayerItems(l) == items + [push] + l.body + [ClipPop];
    } else {
      BodyAfter(items, l.body, root, mode, s, x, y, v);
    }
  }

  lemma PushAfter(items: seq<Item>, window: Rect, root: Rect, mode: ClearMode, s: Screen, x: int, y: int, v: Argb)
    requires StackAfter(items, [Some(root)]) == [Some(root)]
    ensures StackAfter(items + [ClipPush(window)], [Some(root)]) == [Some(root), IntersectRect(root, window)]
    ensures ValueAfter(items + [ClipPush(window)], root, mode, s, x, y, v) == ValueAfter(items, root, mode, s, x, y, v)
  {
    hide StackAfter, ValueAfter, IntersectRect;
    OneMoreItem(items, ClipPush(window), root, mode, s, x, y, v);
  }

  lemma PopAfter(items: seq<Item>, root: Rect, clip: Clip, mode: ClearMode, s: Screen, x: int, y: int, v: Argb)
    requires StackAfter(items, [Some(root)]) == [Some(root), clip]
    ensures StackAfter(items + [ClipPop], [Some(root)]) == [Some(root)]
    ensures ValueAfter(items + [ClipPop], root, mode, s, x, y, v) == ValueAfter(items, root, mode, s, x, y, v)
  {
    hide StackAfter, ValueAfter;
    OneMoreItem(items, ClipPop, root, mode, s, x, y, v);
  }

  lemma {:induction false} LayersAfter(layers: seq<Layer>, root: Rect, mode: ClearMode, s: Screen,
                                       x: int, y: int, v: Argb)
    requires AllFlat(layers)
    ensures StackAfter(Frame(Content(layers), None), [Some(root)]) == [Some(root)]
    ensures ValueAfter(Frame(Content(layers), None), root, mode, s, x, y, v)
         == LayersValue(layers, root, mode, s, x, y, ValueStep(Clear(CLEAR_COLOR), Some(root), mode, s, x, y, v))
  {
    hide BodyValue, StackAfter, ValueAfter, ValueStep, LayerClip, LayerItems, Flat, ClearsOpaque, Frame;
    if layers == [] {
      EmptyFrame(root, mode, s, x, y, v);
    } else {
      var before, last := layers[..|layers| - 1], layers[|layers| - 1];
      LayersAfter(before, root, mode, s, x, y, v);
      FrameGrows(Content(before), LayerItems(last));
      LayerAfter(Frame(Content(before), None), last, root, mode, s, x, y, v);
    }
  }

  lemma EmptyFrame(root: Rect, mode: ClearMode, s: Screen, x: int, y: int, v: Argb)
    ensures StackAfter(Frame([], None), [Some(root)]) == [Some(root)]
    ensures ValueAfter(Frame([], None), root, mode, s, x, y, v)
         == ValueStep(Clear(CLEAR_COLOR), Some(root), mode, s, x, y, v)
  {
    assert Frame([], None) == [] + [Clear(CLEAR_COLOR)];
    OneMoreItem([], Clear(CLEAR_COLOR), root, mode, s, x, y, v);
  }

  lemma FrameGrows(content: seq<Item>, more: seq<Item>)
    ensures Frame(content + more, None) == Frame(content, None) + more
  {
  }

  // One pixel of a frame: the cleared screen, the layers and the cursor.
  lemma FrameValue(layers: seq<Layer>, cursor: Option<Item>, root: Rect, mode: ClearMode, s: Screen,
                   x: int, y: int, v: Argb)
    requires AllFlat(layers) && CursorOrNone(cursor)
    ensures ValueAfter(Frame(Content(layers), cursor), root, mode, s, x, y, v)
         == WithCursor(cursor, root, s, x, y,
                       LayersValue(layers, root, mode, s, x, y,
                                   ValueStep(Clear(CLEAR_COLOR), Some(root), mode, s, x, y, v)))
  {
    hide ValueAfter, StackAfter, LayersValue, Content;
    LayersAfter(layers, root, mode, s, x, y, v);
    var frame := Frame(Content(layers), None);
    if cursor.Some? {
      assert Frame(Content(layers), cursor) == frame + [cursor.value];
      OneMoreItem(frame, cursor.value, root, mode, s, x, y, v);
    }
  }

  // What a partial repaint makes of a pixel before the layers are drawn.
  function Cleared(dirty: Rect, s: Screen, x: int, y: int, v: Argb): Argb {
    Drawn(FillRect(dirty, CLEAR_COLOR), Some(dirty), s, x, y, v)
  }

  function PartLayers(layers: seq<Layer>, dirty: Rect, s: Screen, x: int, y: int, v: Argb): Argb {
    LayersValue(layers, dirty, ClipTo(dirty), s, x, y, Cleared(dirty, s, x, y, v))
  }

  function FullLayers(layers: seq<Layer>, s: Screen, x: int, y: int): Argb {
    LayersValue(layers, ScreenRect(s), Full, s, x, y, CLEAR_COLOR)
  }

  lemma FramePixels(layers: seq<Layer>, cursor: Option<Item>, dirty: Rect, s: Screen, x: int, y: int, v: Argb)
    requires AllFlat(layers) && CursorOrNone(cursor)
    ensures FullPixel(Frame(Content(layers), cursor), s, x, y)
         == WithCursor(cursor, ScreenRect(s), s, x, y, FullLayers(layers, s, x, y))
    ensures PartialPixel(Frame(Content(layers), cursor), dirty, s, x, y, v)
         == WithCursor(cursor, dirty, s, x, y, PartLayers(layers, dirty, s, x, y, v))
  {
    FrameValue(layers, cursor, ScreenRect(s), Full, s, x, y, CLEAR_COLOR);
    FrameValue(layers, cursor, dirty, ClipTo(dirty), s, x, y, v);
  }

  // --- Bodies at a dirty and at a clean pixel -----------------------------------------------------

  // Both repaints draw the same items of a body on a pixel.
  ghost predicate SameCover(body: seq<Item>, full: Clip, part: Clip, s: Screen, x: int, y: int) {
    forall k | 0 <= k < |body| :: Covers(body[k], full, s, x, y) <==> Covers(body[k], part, s, x, y)
  }

  lemma {:induction false} SameBody(body: seq<Item>, full: Clip, part: Clip, dirty: Rect, s: Screen,
                                    x: int, y: int, v: Argb)
    requires OnScreen(s, x, y) && Inside(dirty, x, y)
    requires ClearsOpaque(body) && SameCover(body, full, part, s, x, y)
    ensures BodyValue(body, part, ClipTo(dirty), s, x, y, v) == BodyValue(body, full, Full, s, x, y, v)
  {
    if body != [] {
      var before, item := body[..|body| - 1], body[|body| - 1];
      SameBody(before, full, part, dirty, s, x, y, v);
      SpanOfInside(dirty, s, x, y);
      hide BodyValue, Covers, Paint;
      if item.Clear? { ClearPaints(dirty, item.color, s, x, y, BodyValue(before, full, Full, s, x, y, v)); }
    }
  }

  lemma ClearPaints(dirty: Rect, color: Argb, s: Screen, x: int, y: int, v: Argb)
    requires OnScreen(s, x, y) && Inside(dirty, x, y) && color.a == 255
    ensures Drawn(FillRect(dirty, color), Some(dirty), s, x, y, v) == color
  {
    SpanOfInside(dirty, s, x, y);
    assert IntersectRect(dirty, dirty) == Some(dirty);
  }

  // Nothing of a body is drawn on a pixel.
  ghost predicate NoCover(body: seq<Item>, clip: Clip, s: Screen, x: int, y: int) {
    forall k | 0 <= k < |body| :: !Covers(body[k], clip, s, x, y)
  }

  lemma {:induction false} UntouchedBody(body: seq<Item>, part: Clip, dirty: Rect, s: Screen, x: int, y: int, v: Argb)
    requires OnScreen(s, x, y) && !SpanCovers(dirty, None, s, x, y) && NoCover(body, part, s, x, y)
    ensures BodyValue(body, part, ClipTo(dirty), s, x, y, v) == v
  {
    if body != [] {
      var before, item := body[..|body| - 1], body[|body| - 1];
      UntouchedBody(before, part, dirty, s, x, y, v);
      hide Covers, Paint, SpanCovers;
      if item.Clear? { NotDrawnOutsideSpan(FillRect(dirty, item.color), dirty, s, x, y, v); }
    }
  }

  // Outside the span of the dirty rectangle nothing clipped to a part of it is drawn.
  lemma ClippedElsewhere(body: seq<Item>, window: Rect, dirty: Rect, s: Screen, x: int, y: int)
    requires OnScreen(s, x, y) && !SpanCovers(dirty, None, s, x, y) && IntersectRect(dirty, window).Some?
    ensures NoCover(body, IntersectRect(dirty, window), s, x, y)
  {
    var part := IntersectRect(dirty, window);
    SpanOfInside(dirty, s, x, y);
    forall k | 0 <= k < |body| ensures !Covers(body[k], part, s, x, y) {
      var item := body[k];
      if item.FillRect? || item.HatchRect? || item.BlitImage? {
        SpanInSpan(item.rect, part.value, s, x, y);
        PartInSpan(dirty, window, s, x, y);
      }
    }
  }

  lemma PartInSpan(dirty: Rect, window: Rect, s: Screen, x: int, y: int)
    requires OnScreen(s, x, y) && IntersectRect(dirty, window).Some?
    ensures SpanCovers(IntersectRect(dirty, window).value, None, s, x, y) ==> SpanCovers(dirty, None, s, x, y)
  {
  }
}
