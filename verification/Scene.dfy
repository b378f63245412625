// Scenes and what rendering one does to a single pixel (compositor/src/scene.rs,
// compositor/src/framebuffer_backend.rs). Every primitive treats pixels independently, so the
// meaning of a scene is a function from the old value of a pixel to its new value.
module Scene {
  import opened Options
  import opened Arithmetic
  import opened Geometry
  import opened Pixel
  import opened Line

  datatype Grid<T> = Grid(width: nat, height: nat, cells: seq<T>) {
    predicate Sized() { |cells| == width * height }
  }

  lemma CellInRange(width: nat, height: nat, x: nat, y: nat)
    requires x < width && y < height
    ensures 0 <= y * width + x < width * height
  {
    ScaledBound(y + 1, height, width);
    assert (y + 1) * width == y * width + width;
  }

  type Bitmap = g: Grid<Argb> | g.Sized() witness Grid(0, 0, [])
  type Mask = g: Grid<Byte> | g.Sized() witness Grid(0, 0, [])

  function Cell<T>(g: Grid<T>, x: nat, y: nat): T
    requires g.Sized() && x < g.width && y < g.height
  {
    CellInRange(g.width, g.height, x, y);
    g.cells[y * g.width + x]
  }

  datatype Item =
    | Clear(color: Argb)
    | FillRect(rect: Rect, color: Argb)
    | HatchRect(rect: Rect, color: Argb, spacing: int)
    | BlitImage(rect: Rect, image: Bitmap, repeat: bool, dx: int, dy: int)
      // One placed glyph of a text item; `bounds` is the text block's own rectangle, if it has one.
    | DrawGlyph(x: int, y: int, mask: Mask, color: Argb, bounds: Clip)
    | DrawCursor(x: int, y: int, sprite: Bitmap, hotX: int, hotY: int)
    | DrawLine(x0: int, y0: int, x1: int, y1: int, color: Argb)
    | ClipPush(rect: Rect)
    | ClipPop

  datatype ClearMode = Full | ClipTo(rect: Rect)

  datatype Screen = Screen(width: nat, height: nat)

  predicate OnScreen(s: Screen, x: int, y: int) {
    0 <= x < s.width && 0 <= y < s.height
  }

  function ScreenRect(s: Screen): Rect { Rect(0, 0, s.width, s.height) }

  // --- Coverage -----------------------------------------------------------------------------

  // The start and end of the span the fill loops run over on one axis. A rectangle that starts
  // below 0 keeps its full length.
  function SpanFrom(lo: int, bound: nat): nat { Min(Max(lo, 0), bound) }

  function SpanTo(lo: int, length: nat, bound: nat): nat { Min(SpanFrom(lo, bound) + length, bound) }

  predicate InSpan(lo: int, length: nat, bound: nat, v: int) {
    SpanFrom(lo, bound) <= v < SpanTo(lo, length, bound)
  }

  // The pixels the fill, hatch and blit loops visit.
  predicate SpanCovers(rect: Rect, clip: Clip, s: Screen, x: int, y: int) {
    && rect.width != 0 && rect.height != 0 && s.width != 0
    && var r := ApplyClip(rect, clip);
       r.Some? && InSpan(r.value.x, r.value.width, s.width, x)
               && InSpan(r.value.y, r.value.height, s.height, y)
  }

  function CursorRect(c: Item): Rect
    requires c.DrawCursor?
  {
    Rect(c.x - c.hotX, c.y - c.hotY, c.sprite.width, c.sprite.height)
  }

  function StepSign(from: int, to: int): int { if from < to then 1 else -1 }

  function Extent(from: int, to: int): nat { if from < to then to - from else from - to }

  // The offset of a pixel from the start of a line, counted in the direction of travel.
  function Offset(from: int, to: int, v: int): int { if from < to then v - from else from - v }

  predicate LineCovers(l: Item, x: int, y: int)
    requires l.DrawLine?
  {
    OnLine(Extent(l.x0, l.x1), Extent(l.y0, l.y1), Offset(l.x0, l.x1, x), Offset(l.y0, l.y1, y))
  }

  predicate Covers(item: Item, clip: Clip, s: Screen, x: int, y: int)
  {
    match item
    case FillRect(rect, _) => SpanCovers(rect, clip, s, x, y)
    case HatchRect(rect, _, spacing) => 0 < spacing && SpanCovers(rect, clip, s, x, y)
    case BlitImage(rect, _, _, _, _) => SpanCovers(rect, clip, s, x, y)
    case DrawGlyph(gx, gy, mask, _, bounds) =>
      InClip(clip, x, y) && InClip(bounds, x, y) && Inside(Rect(gx, gy, mask.width, mask.height), x, y)
    case DrawCursor(_, _, _, _, _) => InClip(clip, x, y) && Inside(CursorRect(item), x, y)
    case DrawLine(_, _, _, _, _) => InClip(clip, x, y) && LineCovers(item, x, y)
    case Clear(_) => false
    case ClipPush(_) => false
    case ClipPop => false
  }

  // --- Paint --------------------------------------------------------------------------------

  // An i32 cast to a 64-bit usize.
  function AsUsize(i: int): nat {
    if 0 <= i then i else Max(i + 0x1_0000_0000_0000_0000, 0)
  }

  // `Bitmap::sample` (wrapping) and `Bitmap::pixel` (None outside the image).
  function Texel(b: Bitmap, repeat: bool, x: nat, y: nat): Option<Argb> {
    if repeat then
      if b.width == 0 || b.height == 0 then Some(Argb(0, 0, 0, 0))
      else Some(Cell(b, x % b.width, y % b.height))
    else if b.width <= x || b.height <= y then None
    else Some(Cell(b, x, y))
  }

  // What the primitive leaves on a pixel it covers.
  function Paint(item: Item, x: int, y: int, v: Argb): Argb
  {
    match item
    case FillRect(_, color) => Over(color, v)
    case HatchRect(_, color, spacing) => if 0 < spacing && (x + y) % spacing == 0 then color else v
    case BlitImage(rect, image, repeat, dx, dy) =>
      var c := Texel(image, repeat, AsUsize(x - rect.x + dx), AsUsize(y - rect.y + dy));
      if c.None? then v else Blend(c.value, v)
    case DrawGlyph(gx, gy, mask, color, _) =>
      if Inside(Rect(gx, gy, mask.width, mask.height), x, y)
      then Ink(color, Cell(mask, x - gx, y - gy), v) else v
    case DrawCursor(_, _, sprite, _, _) =>
      var r := CursorRect(item);
      if Inside(r, x, y) then Composite(Cell(sprite, x - r.x, y - r.y), v) else v
    case DrawLine(_, _, _, _, color) => Over(color, v)
    case Clear(_) => v
    case ClipPush(_) => v
    case ClipPop => v
  }

  function Drawn(item: Item, clip: Clip, s: Screen, x: int, y: int, v: Argb): Argb {
    if Covers(item, clip, s, x, y) then Paint(item, x, y, v) else v
  }

  // --- Whole scenes -------------------------------------------------------------------------

  function Top(stack: seq<Clip>): Clip {
    if stack == [] then None else stack[|stack| - 1]
  }

  function PushClip(parent: Clip, rect: Rect): Clip {
    if parent.Some? then IntersectRect(parent.value, rect) else None
  }

  function StackStep(item: Item, stack: seq<Clip>): seq<Clip> {
    match item
    case ClipPush(rect) => stack + [PushClip(Top(stack), rect)]
    case ClipPop => if 1 < |stack| then stack[..|stack| - 1] else stack
    case _ => stack
  }

  function ValueStep(item: Item, clip: Clip, mode: ClearMode, s: Screen, x: int, y: int, v: Argb): Argb {
    match item
    case Clear(color) =>
      (match mode
       case Full => color
       case ClipTo(r) => Drawn(FillRect(r, color), Some(r), s, x, y, v))
    case _ => Drawn(item, clip, s, x, y, v)
  }

  // The clip stack after a list of items.
  function StackAfter(items: seq<Item>, stack: seq<Clip>): seq<Clip> {
    if items == [] then stack
    else StackStep(items[|items| - 1], StackAfter(items[..|items| - 1], stack))
  }

  // The value of one pixel after a list of items, from the value v.
  function ValueAfter(items: seq<Item>, root: Rect, mode: ClearMode, s: Screen, x: int, y: int, v: Argb): Argb {
    if items == [] then v
    else
      var before := items[..|items| - 1];
      ValueStep(items[|items| - 1], Top(StackAfter(before, [Some(root)])), mode, s, x, y,
                ValueAfter(before, root, mode, s, x, y, v))
  }

  const CLEAR_COLOR := Argb(0xff, 0, 0, 0)

  // One pixel of a full repaint: independent of what was on the screen before.
  function FullPixel(items: seq<Item>, s: Screen, x: int, y: int): Argb {
    ValueAfter(items, ScreenRect(s), Full, s, x, y, CLEAR_COLOR)
  }

  // One pixel of a partial repaint over a dirty rectangle, from the value v.
  function PartialPixel(items: seq<Item>, dirty: Rect, s: Screen, x: int, y: int, v: Argb): Argb {
    ValueAfter(items, dirty, ClipTo(dirty), s, x, y, v)
  }
}
