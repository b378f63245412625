// What each drawing primitive puts where, in the coordinates of its own picture
// (compositor/src/framebuffer_backend.rs, compositor/src/bitmap.rs).
module Primitives {
  import opened Options
  import opened Arithmetic
  import opened Geometry
  import opened Pixel
  import opened Line
  import opened Scene
  import opened Repaint

  // --- Remainders ---------------------------------------------------------------------------------

  lemma Remainder(a: int, n: nat, q: int, r: nat)
    requires a == n * q + r && r < n
    ensures a % n == r
  {
    var k := q - a / n;
    assert a == n * (a / n) + a % n;
    assert n * k == a % n - r;
    MultipleGrows(n, k);
  }

  // One turn more leaves the same remainder, and a small number is its own.
  lemma OneTurn(a: int, n: nat)
    requires 0 < n
    ensures (a + n) % n == a % n && (0 <= a < n ==> a % n == a)
  {
    assert a == n * (a / n) + a % n;
    assert n * (a / n + 1) == n * (a / n) + n;
    Remainder(a + n, n, a / n + 1, a % n);
    if 0 <= a < n { Remainder(a, n, 0, a); }
  }

  // --- Cursors and glyphs -------------------------------------------------------------------------

  // Column i and row j of a cursor's sprite appear that far from its hotspot, composited.
  lemma CursorDrawsSprite(c: Item, clip: Clip, s: Screen, i: nat, j: nat, v: Argb)
    requires c.DrawCursor? && i < c.sprite.width && j < c.sprite.height
    requires InClip(clip, c.x + i - c.hotX, c.y + j - c.hotY)
    ensures Drawn(c, clip, s, c.x + i - c.hotX, c.y + j - c.hotY, v) == Composite(Cell(c.sprite, i, j), v)
  {
    hide Composite;
  }

  // Column i and row j of a glyph's mask cover that pixel of it, if both clips admit it.
  lemma GlyphDrawsMask(g: Item, clip: Clip, s: Screen, i: nat, j: nat, v: Argb)
    requires g.DrawGlyph? && i < g.mask.width && j < g.mask.height
    ensures Drawn(g, clip, s, g.x + i, g.y + j, v)
         == if InClip(clip, g.x + i, g.y + j) && InClip(g.bounds, g.x + i, g.y + j)
            then Ink(g.color, Cell(g.mask, i, j), v) else v
  {
    hide Ink;
  }

  // --- Images -------------------------------------------------------------------------------------

  // Column i and row j of an image appear at the rectangle's corner, moved back by the offset.
  lemma BlitDrawsImage(b: Item, clip: Clip, s: Screen, i: nat, j: nat, v: Argb)
    requires b.BlitImage? && i < b.image.width && j < b.image.height
    requires SpanCovers(b.rect, clip, s, b.rect.x + i - b.dx, b.rect.y + j - b.dy)
    ensures Drawn(b, clip, s, b.rect.x + i - b.dx, b.rect.y + j - b.dy, v) == Blend(Cell(b.image, i, j), v)
  {
    hide Blend, SpanCovers, Texel;
    var x, y := b.rect.x + i - b.dx, b.rect.y + j - b.dy;
    assert AsUsize(x - b.rect.x + b.dx) == i && AsUsize(y - b.rect.y + b.dy) == j;
    ImageRepeats(b.image, i, j);
  }

  // A repeated image starts again after its width and its height; otherwise there is nothing beyond
  // its edges.
  lemma ImageRepeats(b: Bitmap, x: nat, y: nat)
    ensures b.width != 0 && b.height != 0 ==>
              && Texel(b, true, x + b.width, y) == Texel(b, true, x, y)
              && Texel(b, true, x, y + b.height) == Texel(b, true, x, y)
    ensures x < b.width && y < b.height ==> Texel(b, true, x, y) == Texel(b, false, x, y) == Some(Cell(b, x, y))
    ensures b.width <= x || b.height <= y ==> Texel(b, false, x, y).None?
  {
    hide Cell;
    if b.width != 0 && b.height != 0 {
      OneTurn(x, b.width);
      OneTurn(y, b.height);
    }
  }

  // --- Hatching -----------------------------------------------------------------------------------

  // Hatch lines run down to the left, `spacing` pixels apart, one of them through the origin; between
  // them nothing is painted.
  lemma HatchLines(h: Item, x: int, y: int, v: Argb)
    requires h.HatchRect? && 0 < h.spacing
    ensures Paint(h, x - 1, y + 1, v) == Paint(h, x, y, v)
    ensures Paint(h, x + h.spacing, y, v) == Paint(h, x, y, v)
    ensures 0 <= x + y < h.spacing ==> Paint(h, x, y, v) == if x + y == 0 then h.color else v
  {
    OneTurn(x + y, h.spacing);
    assert x + h.spacing + y == x + y + h.spacing && x - 1 + (y + 1) == x + y;
  }

  // --- Lines --------------------------------------------------------------------------------------

  // A line is drawn through both of its ends.
  lemma LineDrawsEnds(l: Item, clip: Clip, s: Screen, v: Argb)
    requires l.DrawLine?
    ensures InClip(clip, l.x0, l.y0) ==> Drawn(l, clip, s, l.x0, l.y0, v) == Over(l.color, v)
    ensures InClip(clip, l.x1, l.y1) ==> Drawn(l, clip, s, l.x1, l.y1, v) == Over(l.color, v)
  {
    hide Over, OnLine;
    EndsAreOnLine(Extent(l.x0, l.x1), Extent(l.y0, l.y1));
  }

  // The distance of a pixel from the ideal line, doubled and scaled by the longer side.
  function TwiceOff(l: Item, x: int, y: int): int
    requires l.DrawLine?
  {
    2 * ((l.x1 - l.x0) * (y - l.y0) - (l.y1 - l.y0) * (x - l.x0))
  }

  // Every pixel of a line lies between its ends on both axes and at most half a pixel off the ideal
  // line through them.
  lemma LineIsStraight(l: Item, x: int, y: int)
    requires l.DrawLine? && LineCovers(l, x, y)
    ensures Min(l.x0, l.x1) <= x <= Max(l.x0, l.x1) && Min(l.y0, l.y1) <= y <= Max(l.y0, l.y1)
    ensures var longer := Max(Extent(l.x0, l.x1), Extent(l.y0, l.y1));
            -longer <= TwiceOff(l, x, y) <= longer
  {
    var d, e := Extent(l.x0, l.x1), Extent(l.y0, l.y1);
    var i, j := Offset(l.x0, l.x1, x), Offset(l.y0, l.y1, y);
    WithinHalfPixel(d, e, i, j);
    SameDistance(l, x, y);
  }

  lemma SameDistance(l: Item, x: int, y: int)
    requires l.DrawLine?
    ensures var t := Twice(Extent(l.x0, l.x1), Extent(l.y0, l.y1), Offset(l.x0, l.x1, x), Offset(l.y0, l.y1, y));
            TwiceOff(l, x, y) == t || TwiceOff(l, x, y) == -t
  {
    var dx, dy, i, j := l.x1 - l.x0, l.y1 - l.y0, x - l.x0, y - l.y0;
    Signs(dx, j);
    Signs(dy, i);
  }

  lemma Signs(a: int, b: int)
    ensures (-a) * b == -(a * b) && a * -b == -(a * b) && (-a) * -b == a * b
  {
  }

  // --- Scenes -------------------------------------------------------------------------------------

  // Clearing gives every pixel the colour, whatever was drawn before.
  lemma ClearFills(items: seq<Item>, color: Argb, s: Screen, x: int, y: int)
    ensures FullPixel(items + [Clear(color)], s, x, y) == color
  {
    OneMoreItem(items, Clear(color), ScreenRect(s), Full, s, x, y, CLEAR_COLOR);
  }

  // An opaque rectangle covers what was drawn before it, inside the current clip, and nothing else.
  lemma LaterCoversEarlier(items: seq<Item>, rect: Rect, color: Argb, clip: Rect, s: Screen, x: int, y: int)
    requires OnScreen(s, x, y) && color.a == 255
    requires Top(StackAfter(items, [Some(ScreenRect(s))])) == Some(clip) && 0 <= clip.x && 0 <= clip.y
    ensures FullPixel(items + [FillRect(rect, color)], s, x, y)
         == if Inside(rect, x, y) && Inside(clip, x, y) then color else FullPixel(items, s, x, y)
  {
    SpanHonoursClip(rect, Some(clip), s, x, y);
    OneMoreItem(items, FillRect(rect, color), ScreenRect(s), Full, s, x, y, CLEAR_COLOR);
    hide SpanCovers, StackAfter, ValueAfter;
  }
}
