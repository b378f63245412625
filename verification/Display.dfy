// The framebuffer device and the cursor branch of the compositor's tick, end to end
// (compositor/src/framebuffer_backend.rs, compositor/src/compositor.rs).
module Display {
  import opened Options
  import opened Geometry
  import opened Pixel
  import opened Scene
  import opened Repaint
  import opened FastPath
  import opened WindowRepaint
  import opened Renderer

  // A mapped framebuffer: rows of `stride` pixels, of which the first `width` are shown.
  class FramebufferDevice {
    const width: nat
    const height: nat
    const stride: nat
    const memory: array<Argb>

    ghost predicate Valid()
      reads this
    {
      width <= stride && memory.Length == stride * height
    }

    function Shown(x: int, y: int): Argb
      requires Valid() && OnScreen(Screen(width, height), x, y)
      reads this, memory
    {
      CellInRange(stride, height, x, y);
      memory[y * stride + x]
    }

    constructor (width: nat, height: nat, stride: nat)
      requires width <= stride
      ensures Valid() && fresh(memory)
      ensures this.width == width && this.height == height && this.stride == stride
    {
      this.width := width;
      this.height := height;
      this.stride := stride;
      memory := new Argb[stride * height](_ => Argb(0, 0, 0, 0));
    }

    // Copies w pixels of one row, from column x.
    method CopyRow(frame: BitmapRenderer, x: nat, y: nat, w: nat)
      requires Valid() && frame.Valid() && frame.storage != memory
      requires frame.width == width && frame.height == height && y < height && x + w <= width
      modifies memory
      ensures forall x', y' | OnScreen(Screen(width, height), x', y') ::
                Shown(x', y') == if y' == y && x <= x' < x + w then frame.Pix(x', y') else old(Shown(x', y'))
    {
      for k := 0 to w
        invariant forall x', y' | OnScreen(Screen(width, height), x', y') ::
                    Shown(x', y') == if y' == y && x <= x' < x + k then frame.Pix(x', y') else old(Shown(x', y'))
      {
        label before:
        CellInRange(stride, height, x + k, y);
        memory[y * stride + x + k] := frame.Pix(x + k, y);
        forall x', y' | OnScreen(Screen(width, height), x', y') && (x' != x + k || y' != y)
          ensures Shown(x', y') == old@before(Shown(x', y'))
        {
          CellInRange(stride, height, x', y');
          CellsDistinct(stride, x + k, y, x', y');
        }
      }
    }

    // The pixels of the dirty rectangle that lie on the screen are copied, and no others.
    method PresentPartial(frame: BitmapRenderer, dirty: Rect)
      requires Valid() && frame.Valid() && frame.storage != memory
      requires frame.width == width && frame.height == height
      modifies memory
      ensures forall x, y | OnScreen(Screen(width, height), x, y) ::
                Shown(x, y) == if Inside(dirty, x, y) then frame.Pix(x, y) else old(Shown(x, y))
    {
      var clipped := IntersectRect(dirty, Rect(0, 0, width, height));
      if clipped.None? { return; }
      var r := clipped.value;
      assert Inside(r, r.x + r.width - 1, r.y + r.height - 1);
      for row := 0 to r.height
        invariant forall x, y | OnScreen(Screen(width, height), x, y) ::
                    Shown(x, y) == if Inside(dirty, x, y) && y < r.y + row then frame.Pix(x, y) else old(Shown(x, y))
      {
        assert forall x, y | OnScreen(Screen(width, height), x, y) :: Inside(dirty, x, y) <==> Inside(r, x, y);
        CopyRow(frame, r.x, r.y + row, r.width);
      }
    }

    // What is shown is the full frame with the previous cursor; after a tick in which only the
    // cursor moved it is the full frame with the current cursor. What the renderer's buffer held
    // does not matter, because only repainted pixels are copied.
    method CursorTick(renderer: BitmapRenderer, content: seq<Item>, prev: Option<Item>, curr: Option<Item>)
      returns (moved: bool)
      requires Valid() && renderer.Valid() && renderer.storage != memory
      requires renderer.width == width && renderer.height == height
      requires CursorOrNone(prev) && CursorOrNone(curr)
      requires forall x, y | OnScreen(Screen(width, height), x, y) ::
                 Shown(x, y) == FullPixel(Frame(content, prev), Screen(width, height), x, y)
      modifies renderer.storage, memory
      ensures moved <==> CursorPlace(prev) != CursorPlace(curr)
      ensures !moved ==> forall x, y | OnScreen(Screen(width, height), x, y) ::
                           Shown(x, y) == FullPixel(Frame(content, prev), Screen(width, height), x, y)
      ensures moved && ScreenRight(content, prev, curr, Screen(width, height)) ==>
                forall x, y | OnScreen(Screen(width, height), x, y) ::
                  Shown(x, y) == FullPixel(Frame(content, curr), Screen(width, height), x, y)
    {
      hide ValueAfter, ScreenRight, Frame, DirtyRect;
      moved := CursorPlace(prev) != CursorPlace(curr);
      if !moved { return; }
      renderer.RenderPartial(Frame(content, curr), DirtyRect(prev, curr));
      PresentPartial(renderer, DirtyRect(prev, curr));
      ScreenRightIsShown(content, prev, curr, Screen(width, height));
      forall x, y | OnScreen(Screen(width, height), x, y) && !Inside(DirtyRect(prev, curr), x, y)
        ensures FullPixel(Frame(content, prev), Screen(width, height), x, y)
             == FullPixel(Frame(content, curr), Screen(width, height), x, y)
      {
        CursorsInDirty(prev, curr, x, y);
        CursorOnlyInItsRect(content, prev, Screen(width, height), x, y);
        CursorOnlyInItsRect(content, curr, Screen(width, height), x, y);
      }
    }
  }
}
