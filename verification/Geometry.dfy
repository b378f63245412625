// Rectangles and clipping (compositor/src/types.rs, compositor/src/framebuffer_backend.rs).
// Coordinates are unbounded integers: the 32-bit casts of the source are not modelled.
module Geometry {
  import opened Options
  import opened Arithmetic

  datatype Rect = Rect(x: int, y: int, width: nat, height: nat)

  // A clip entry; `None` means that nothing is clipped away.
  type Clip = Option<Rect>

  // Half-open membership of a pixel in a rectangle.
  predicate Inside(r: Rect, x: int, y: int) {
    r.x <= x < r.x + r.width && r.y <= y < r.y + r.height
  }

  predicate InClip(c: Clip, x: int, y: int) {
    c.Some? ==> Inside(c.value, x, y)
  }

  // Some rectangle exactly when a and b share a pixel, and then exactly the shared pixels.
  function IntersectRect(a: Rect, b: Rect): (r: Option<Rect>)
    ensures r.Some? ==> forall x, y :: Inside(r.value, x, y) <==> Inside(a, x, y) && Inside(b, x, y)
    ensures r.None? ==> forall x, y :: !(Inside(a, x, y) && Inside(b, x, y))
    ensures r.Some? ==> Inside(r.value, r.value.x, r.value.y)
  {
    var x := Max(a.x, b.x);
    var y := Max(a.y, b.y);
    var x2 := Min(a.x + a.width, b.x + b.width);
    var y2 := Min(a.y + a.height, b.y + b.height);
    if x < x2 && y < y2 then Some(Rect(x, y, x2 - x, y2 - y)) else None
  }

  function ApplyClip(r: Rect, c: Clip): Option<Rect> {
    if c.Some? then IntersectRect(r, c.value) else Some(r)
  }

  // The union is the bounding box: it covers both rectangles, and every rectangle covering the
  // corners of both covers the union.
  function Union(a: Rect, b: Rect): (r: Rect)
    ensures forall x, y :: Inside(a, x, y) || Inside(b, x, y) ==> Inside(r, x, y)
    ensures r.x == Min(a.x, b.x) && r.y == Min(a.y, b.y)
    ensures r.x + r.width == Max(a.x + a.width, b.x + b.width)
    ensures r.y + r.height == Max(a.y + a.height, b.y + b.height)
  {
    var x := Min(a.x, b.x);
    var y := Min(a.y, b.y);
    var maxX := Max(a.x + a.width, b.x + b.width);
    var maxY := Max(a.y + a.height, b.y + b.height);
    Rect(x, y, maxX - x, maxY - y)
  }
}
