// The software renderer: loops over a row-major pixel buffer, proved against the per-pixel meaning
// of a scene (compositor/src/framebuffer_backend.rs, compositor/src/compositor.rs).
module Renderer {
  import opened Options
  import opened Arithmetic
  import opened Geometry
  import opened Pixel
  import opened Line
  import opened Scene
  import opened Repaint
  import opened FastPath
  import opened WindowRepaint

  // Two pixels of a row-major buffer share a cell only if they are the same pixel.
  lemma CellsDistinct(width: nat, x: nat, y: nat, x': nat, y': nat)
    requires x < width && x' < width
    ensures y * width + x == y' * width + x' ==> x == x' && y == y'
  {
    assert y * width - y' * width == (y - y') * width;
    MultipleGrows(width, y - y');
    assert width * (y - y') == (y - y') * width;
  }

  // The step at which a line reaches a pixel's major coordinate.
  ghost function LineStep(item: Item, x: int, y: int): int
    requires item.DrawLine?
  {
    Major(Extent(item.x0, item.x1), Extent(item.y0, item.y1),
          Offset(item.x0, item.x1, x), Offset(item.y0, item.y1, y))
  }

  lemma OnePixelPerStep(item: Item, x: int, y: int, x': int, y': int)
    requires item.DrawLine? && LineCovers(item, x, y) && LineStep(item, x, y) == LineStep(item, x', y')
    ensures LineCovers(item, x', y') ==> x == x' && y == y'
  {
    if LineCovers(item, x', y') {
      OneOffsetPerStep(Extent(item.x0, item.x1), Extent(item.y0, item.y1),
                       Offset(item.x0, item.x1, x), Offset(item.y0, item.y1, y),
                       Offset(item.x0, item.x1, x'), Offset(item.y0, item.y1, y'));
    }
  }

  // A pixel before the first step or after the last one is not on the line.
  lemma NothingDrawn(item: Item, clip: Clip, s: Screen)
    requires item.DrawLine?
    ensures forall x, y, v | LineStep(item, x, y) < 0 :: Drawn(item, clip, s, x, y, v) == v
  {
  }

  lemma BoxEndsAtLastStep(item: Item, clip: Clip, s: Screen)
    requires item.DrawLine?
    ensures forall x, y, v | Steps(Extent(item.x0, item.x1), Extent(item.y0, item.y1)) < LineStep(item, x, y) ::
              Drawn(item, clip, s, x, y, v) == v
  {
  }

  class BitmapRenderer {
    const width: nat
    const height: nat
    const storage: array<Argb>

    ghost predicate Valid()
      reads this
    {
      storage.Length == width * height
    }

    function Size(): Screen { Screen(width, height) }

    predicate On(x: int, y: int) { OnScreen(Size(), x, y) }

    function Pix(x: int, y: int): Argb
      requires Valid() && On(x, y)
      reads this, storage
    {
      CellInRange(width, height, x, y);
      storage[y * width + x]
    }

    constructor (width: nat, height: nat)
      ensures Valid() && this.width == width && this.height == height && fresh(storage)
      ensures forall x, y | On(x, y) :: Pix(x, y) == Argb(0, 0, 0, 0)
    {
      this.width := width;
      this.height := height;
      storage := new Argb[width * height](_ => Argb(0, 0, 0, 0));
      new;
      forall x, y | On(x, y) ensures Pix(x, y) == Argb(0, 0, 0, 0) {
        CellInRange(width, height, x, y);
      }
    }

    method SetPix(x: int, y: int, v: Argb)
      requires Valid() && On(x, y)
      modifies storage
      ensures Pix(x, y) == v
      ensures forall x', y' | On(x', y') && (x' != x || y' != y) :: Pix(x', y') == old(Pix(x', y'))
    {
      CellInRange(width, height, x, y);
      storage[y * width + x] := v;
      forall x', y' | On(x', y') && (x' != x || y' != y)
        ensures Pix(x', y') == old(Pix(x', y'))
      {
        CellsDistinct(width, x, y, x', y');
        CellInRange(width, height, x', y');
      }
    }

    // The double loop shared by the fill, hatch, blit and cursor primitives.
    method PaintSpan(item: Item, x0: nat, y0: nat, x1: nat, y1: nat)
      requires Valid() && x1 <= width && y1 <= height
      modifies storage
      ensures forall x, y | On(x, y) ::
                Pix(x, y) == if x0 <= x < x1 && y0 <= y < y1 then Paint(item, x, y, old(Pix(x, y)))
                             else old(Pix(x, y))
    {
      var yy := y0;
      while yy < y1
        invariant y0 <= yy
        invariant forall x, y | On(x, y) ::
                    Pix(x, y) == if x0 <= x < x1 && y0 <= y < y1 && y < yy then Paint(item, x, y, old(Pix(x, y)))
                                 else old(Pix(x, y))
      {
        var xx := x0;
        while xx < x1
          invariant x0 <= xx
          invariant forall x, y | On(x, y) ::
                      Pix(x, y) == if x0 <= x < x1 && y0 <= y && (y < yy || (y == yy && x < xx))
                                   then Paint(item, x, y, old(Pix(x, y)))
                                   else old(Pix(x, y))
        {
          SetPix(xx, yy, Paint(item, xx, yy, Pix(xx, yy)));
          xx := xx + 1;
        }
        yy := yy + 1;
      }
    }

    // Fill, hatch and blit: clip the rectangle, then run over the clamped span.
    method RasterSpan(item: Item, clip: Clip)
      requires Valid() && (item.FillRect? || item.HatchRect? || item.BlitImage?)
      modifies storage
      ensures forall x, y | On(x, y) :: Pix(x, y) == Drawn(item, clip, Size(), x, y, old(Pix(x, y)))
    {
      if item.rect.width == 0 || item.rect.height == 0 || width == 0 { return; }
      if item.HatchRect? && item.spacing <= 0 { return; }
      var clipped := ApplyClip(item.rect, clip);
      if clipped.None? { return; }
      var r := clipped.value;
      var x0 := Min(Max(r.x, 0), width);
      var y0 := Min(Max(r.y, 0), height);
      var x1 := Min(x0 + r.width, width);
      var y1 := Min(y0 + r.height, height);
      PaintSpan(item, x0, y0, x1, y1);
    }

    static function Clamp(v: int, lo: int, hi: int): int {
      if v < lo then lo else if hi < v then hi else v
    }

    method RasterCursor(item: Item, clip: Clip)
      requires Valid() && item.DrawCursor?
      modifies storage
      ensures forall x, y | On(x, y) :: Pix(x, y) == Drawn(item, clip, Size(), x, y, old(Pix(x, y)))
    {
      if width == 0 || item.sprite.width == 0 || item.sprite.height == 0 { return; }
      var left, top := item.x - item.hotX, item.y - item.hotY;
      var startX, startY := Clamp(left, 0, width), Clamp(top, 0, height);
      var endX, endY := Clamp(left + item.sprite.width, 0, width), Clamp(top + item.sprite.height, 0, height);
      if clip.Some? {
        startX, startY := Max(startX, clip.value.x), Max(startY, clip.value.y);
        endX, endY := Min(endX, clip.value.x + clip.value.width), Min(endY, clip.value.y + clip.value.height);
      }
      if endX <= startX || endY <= startY { return; }
      PaintSpan(item, startX, startY, endX, endY);
    }

    method RasterGlyph(item: Item, clip: Clip)
      requires Valid() && item.DrawGlyph?
      modifies storage
      ensures forall x, y | On(x, y) :: Pix(x, y) == Drawn(item, clip, Size(), x, y, old(Pix(x, y)))
    {
      if width == 0 || height == 0 || item.mask.width == 0 || item.mask.height == 0 { return; }
      var row := 0;
      while row < item.mask.height
        invariant 0 <= row <= item.mask.height
        invariant forall x, y | On(x, y) ::
                    Pix(x, y) == if y < item.y + row then Drawn(item, clip, Size(), x, y, old(Pix(x, y)))
                                 else old(Pix(x, y))
      {
        RasterGlyphRow(item, clip, item.y + row);
        row := row + 1;
      }
    }

    // One row of a glyph: the columns on screen and inside both clips.
    method RasterGlyphRow(item: Item, clip: Clip, y: int)
      requires Valid() && item.DrawGlyph? && item.y <= y < item.y + item.mask.height
      modifies storage
      ensures forall x', y' | On(x', y') ::
                Pix(x', y') == if y' == y then Drawn(item, clip, Size(), x', y', old(Pix(x', y')))
                               else old(Pix(x', y'))
    {
      var col := 0;
      while col < item.mask.width
        invariant 0 <= col <= item.mask.width
        invariant forall x', y' | On(x', y') ::
                    Pix(x', y') == if y' == y && x' < item.x + col
                                   then Drawn(item, clip, Size(), x', y', old(Pix(x', y')))
                                   else old(Pix(x', y'))
      {
        var x := item.x + col;
        if On(x, y) && InClip(clip, x, y) && InClip(item.bounds, x, y) {
          SetPix(x, y, Ink(item.color, Cell(item.mask, col, y - item.y), Pix(x, y)));
        }
        col := col + 1;
      }
    }

    // One pixel of a line, if it is visible.
    method Plot(item: Item, clip: Clip, x: int, y: int)
      requires Valid() && item.DrawLine? && LineCovers(item, x, y)
      modifies storage
      ensures forall x', y' | On(x', y') ::
                Pix(x', y') == if x' == x && y' == y then Drawn(item, clip, Size(), x', y', old(Pix(x', y')))
                               else old(Pix(x', y'))
    {
      if On(x, y) && InClip(clip, x, y) {
        SetPix(x, y, Over(item.color, Pix(x, y)));
      }
    }

    // The line loop has no counter of its own: it stops when it stands on the end point.
    method RasterLine(item: Item, clip: Clip)
      requires Valid() && item.DrawLine?
      modifies storage
      ensures forall x, y | On(x, y) :: Pix(x, y) == Drawn(item, clip, Size(), x, y, old(Pix(x, y)))
    {
      if width == 0 || height == 0 { return; }
      var d, e := Extent(item.x0, item.x1), Extent(item.y0, item.y1);
      var sx, sy := StepSign(item.x0, item.x1), StepSign(item.y0, item.y1);
      var err := d as int - e;
      var x, y := item.x0, item.y0;
      ghost var i, j := 0, 0;
      EndsAreOnLine(d, e);
      assert Err(d, e, 0, 0) == err;
      hide OnLine, Err, Paint, Advance;
      NothingDrawn(item, clip, Size());
      while true
        invariant OnLine(d, e, i, j) && err == Err(d, e, i, j)
        invariant i == Offset(item.x0, item.x1, x) && j == Offset(item.y0, item.y1, y)
        invariant forall x', y' | On(x', y') ::
                    Pix(x', y') == if LineStep(item, x', y') < Major(d, e, i, j)
                                   then Drawn(item, clip, Size(), x', y', old(Pix(x', y')))
                                   else old(Pix(x', y'))
        decreases Steps(d, e) - Major(d, e, i, j)
      {
        Plot(item, clip, x, y);
        forall x', y' | On(x', y') && LineStep(item, x', y') == Major(d, e, i, j) && !(x' == x && y' == y)
          ensures !LineCovers(item, x', y')
        {
          OnePixelPerStep(item, x, y, x', y');
        }
        EndIsLastStep(d, e, i, j);
        if x == item.x1 && y == item.y1 {
          BoxEndsAtLastStep(item, clip, Size());
          return;
        }
        AdvanceStaysOnLine(d, e, i, j);
        AdvanceBranches(d, e, i, j);
        StepMovesErr(d, e, i, j);
        var e2 := 2 * err;
        if 0 <= e2 + e {
          err := err - e;
          x := x + sx;
          i := i + 1;
        }
        if e2 <= d {
          err := err + d;
          y := y + sy;
          j := j + 1;
        }
      }
    }

    method Fill(color: Argb)
      requires Valid()
      modifies storage
      ensures forall x, y | On(x, y) :: Pix(x, y) == color
    {
      for k := 0 to storage.Length
        invariant forall m | 0 <= m < k :: storage[m] == color
      {
        storage[k] := color;
      }
      forall x, y | On(x, y) ensures Pix(x, y) == color {
        CellInRange(width, height, x, y);
      }
    }

    // One item that draws: everything but the clip stack operations.
    method DrawItem(item: Item, clip: Clip, mode: ClearMode)
      requires Valid()
      modifies storage
      ensures forall x, y | On(x, y) :: Pix(x, y) == ValueStep(item, clip, mode, Size(), x, y, old(Pix(x, y)))
    {
      match item
      case Clear(color) =>
        match mode {
          case Full => Fill(color);
          case ClipTo(rect) => RasterSpan(FillRect(rect, color), Some(rect));
        }
      case FillRect(_, _) => RasterSpan(item, clip);
      case HatchRect(_, _, _) => RasterSpan(item, clip);
      case BlitImage(_, _, _, _, _) => RasterSpan(item, clip);
      case DrawGlyph(_, _, _, _, _) => RasterGlyph(item, clip);
      case DrawCursor(_, _, _, _, _) => RasterCursor(item, clip);
      case DrawLine(_, _, _, _, _) => RasterLine(item, clip);
      case ClipPush(_) =>
      case ClipPop =>
    }

    method RenderScene(items: seq<Item>, root: Rect, mode: ClearMode)
      requires Valid()
      modifies storage
      ensures forall x, y | On(x, y) :: Pix(x, y) == ValueAfter(items, root, mode, Size(), x, y, old(Pix(x, y)))
    {
      var clipStack: seq<Clip> := [Some(root)];
      for k := 0 to |items|
        invariant clipStack == StackAfter(items[..k], [Some(root)])
        invariant forall x, y | On(x, y) ::
                    Pix(x, y) == ValueAfter(items[..k], root, mode, Size(), x, y, old(Pix(x, y)))
      {
        assert items[..k + 1][..k] == items[..k];
        var item := items[k];
        var clip := Top(clipStack);
        DrawItem(item, clip, mode);
        if item.ClipPush? {
          clipStack := clipStack + [PushClip(clip, item.rect)];
        } else if item.ClipPop? && 1 < |clipStack| {
          clipStack := clipStack[..|clipStack| - 1];
        }
      }
      assert items[..|items|] == items;
    }

    method Render(items: seq<Item>)
      requires Valid()
      modifies storage
      ensures forall x, y | On(x, y) :: Pix(x, y) == FullPixel(items, Size(), x, y)
    {
      Fill(CLEAR_COLOR);
      RenderScene(items, ScreenRect(Size()), Full);
    }

    method RenderPartial(items: seq<Item>, dirty: Rect)
      requires Valid()
      modifies storage
      ensures forall x, y | On(x, y) :: Pix(x, y) == PartialPixel(items, dirty, Size(), x, y, old(Pix(x, y)))
    {
      RenderScene(items, dirty, ClipTo(dirty));
    }

    // The cursor branch of `tick`: the buffer holds the full frame with the previous cursor and
    // ends as the full frame with the current one, unless the cursor's rectangle did not move.
    method CursorTick(content: seq<Item>, prev: Option<Item>, curr: Option<Item>) returns (moved: bool)
      requires Valid() && CursorOrNone(prev) && CursorOrNone(curr)
      requires forall x, y | On(x, y) :: Pix(x, y) == FullPixel(Frame(content, prev), Size(), x, y)
      modifies storage
      ensures moved <==> CursorPlace(prev) != CursorPlace(curr)
      ensures !moved ==> forall x, y | On(x, y) :: Pix(x, y) == FullPixel(Frame(content, prev), Size(), x, y)
      ensures moved && BufferRight(content, prev, curr, Size()) ==>
                forall x, y | On(x, y) :: Pix(x, y) == FullPixel(Frame(content, curr), Size(), x, y)
    {
      moved := CursorPlace(prev) != CursorPlace(curr);
      if !moved { return; }
      RenderPartial(Frame(content, curr), DirtyRect(prev, curr));
      hide ValueAfter, BufferRight, Frame, DirtyRect;
      BufferRightIsExact(content, prev, curr, Size());
    }
  }
}
