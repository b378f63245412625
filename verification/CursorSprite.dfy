// Building a cursor sprite from a stencil: a blurred drop shadow under a premultiplied shape
// (compositor/src/cursor.rs).
module CursorSprite {
  import opened Pixel
  import opened Scene
  import Renderer

  type Stencil = g: Grid<bool> | g.Sized() witness Grid(0, 0, [])

  predicate OnGrid(m: Stencil, x: int, y: int) { 0 <= x < m.width && 0 <= y < m.height }

  // Pixels outside the stencil are not filled.
  predicate Filled(m: Stencil, x: int, y: int) {
    OnGrid(m, x, y) && Cell(m, x, y)
  }

  // A pixel of the shape with a neighbour outside it.
  predicate IsEdge(m: Stencil, x: int, y: int) {
    !Filled(m, x - 1, y) || !Filled(m, x + 1, y) || !Filled(m, x, y - 1) || !Filled(m, x, y + 1)
  }

  // --- The shadow -----------------------------------------------------------------------------

  const SHADOW := 0xA0
  const SHIFT := 4

  predicate Inner(m: Stencil, x: int, y: int) { 1 <= x < m.width - 1 && 1 <= y < m.height - 1 }

  // The shadow after k blur passes: the shifted shape, then the mean of each pixel's surroundings
  // except on the border.
  function Shadow(m: Stencil, k: nat, x: int, y: int): (r: nat)
    ensures r <= SHADOW
    decreases k, 0, 0
  {
    if k == 0 then (if Filled(m, x - SHIFT, y - SHIFT) then SHADOW else 0)
    else if Inner(m, x, y) then BoxSum(m, k - 1, x, y, 3) / 9
    else Shadow(m, k - 1, x, y)
  }

  // The first n pixels of the row of three around x.
  function RowSum(m: Stencil, k: nat, x: int, y: int, n: nat): (r: nat)
    ensures r <= n * SHADOW
    decreases k, 1, n
  {
    if n == 0 then 0 else RowSum(m, k, x, y, n - 1) + Shadow(m, k, x + n - 2, y)
  }

  // The first n rows of the box around (x, y).
  function BoxSum(m: Stencil, k: nat, x: int, y: int, n: nat): (r: nat)
    ensures r <= n * (3 * SHADOW)
    decreases k, 2, n
  {
    if n == 0 then 0 else BoxSum(m, k, x, y, n - 1) + RowSum(m, k, x, y + n - 2, 3)
  }

  predicate Near(k: nat, x: int, y: int, x': int, y': int) {
    x - k <= x' + SHIFT <= x + k && y - k <= y' + SHIFT <= y + k
  }

  ghost predicate NoneNear(m: Stencil, k: nat, x: int, y: int) {
    forall x', y' | Near(k, x, y, x', y') :: !Filled(m, x', y')
  }

  ghost predicate AllNear(m: Stencil, k: nat, x: int, y: int) {
    forall x', y' | Near(k, x, y, x', y') :: Filled(m, x', y')
  }

  lemma NearNeighbour(m: Stencil, k: nat, x: int, y: int, a: int, b: int)
    requires 1 <= k && x - 1 <= a <= x + 1 && y - 1 <= b <= y + 1
    ensures NoneNear(m, k, x, y) ==> NoneNear(m, k - 1, a, b)
    ensures AllNear(m, k, x, y) ==> AllNear(m, k - 1, a, b)
  {
    assert forall x', y' :: Near(k - 1, a, b, x', y') ==> Near(k, x, y, x', y');
  }

  // Each blur pass spreads the shadow by one pixel at most: further away from the shape there is
  // none, and deeper inside it the shadow keeps its full strength.
  lemma {:induction false} ShadowSpreads(m: Stencil, k: nat, x: int, y: int)
    ensures NoneNear(m, k, x, y) ==> Shadow(m, k, x, y) == 0
    ensures AllNear(m, k, x, y) ==> Shadow(m, k, x, y) == SHADOW
    decreases k
  {
    if k == 0 {
      assert Near(0, x, y, x - SHIFT, y - SHIFT);
    } else if NoneNear(m, k, x, y) || AllNear(m, k, x, y) {
      var v := if NoneNear(m, k, x, y) then 0 else SHADOW;
      var j := k - 1;
      forall a, b | x - 1 <= a <= x + 1 && y - 1 <= b <= y + 1 ensures Shadow(m, j, a, b) == v {
        NearNeighbour(m, k, x, y, a, b);
        ShadowSpreads(m, j, a, b);
        SomewhereNear(m, j, a, b);
      }
      EvenBox(m, j, x, y, v);
      SomewhereNear(m, k, x, y);
    }
  }

  // The shape cannot be both absent and present.
  lemma SomewhereNear(m: Stencil, k: nat, x: int, y: int)
    ensures !(NoneNear(m, k, x, y) && AllNear(m, k, x, y))
  {
    assert Near(k, x, y, x - SHIFT, y - SHIFT);
  }

  // The mean of equal values is that value.
  lemma EvenBox(m: Stencil, k: nat, x: int, y: int, v: nat)
    requires forall a, b | x - 1 <= a <= x + 1 && y - 1 <= b <= y + 1 :: Shadow(m, k, a, b) == v
    ensures BoxSum(m, k, x, y, 3) == 9 * v && Shadow(m, k, x, y) == v
  {
    hide Shadow;
    EvenRow(m, k, x, y - 1, v);
    EvenRow(m, k, x, y, v);
    EvenRow(m, k, x, y + 1, v);
    assert BoxSum(m, k, x, y, 1) == RowSum(m, k, x, y - 1, 3);
    assert BoxSum(m, k, x, y, 2) == BoxSum(m, k, x, y, 1) + RowSum(m, k, x, y, 3);
  }

  lemma EvenRow(m: Stencil, k: nat, x: int, y: int, v: nat)
    requires forall a | x - 1 <= a <= x + 1 :: Shadow(m, k, a, y) == v
    ensures RowSum(m, k, x, y, 3) == 3 * v
  {
    hide Shadow;
    assert RowSum(m, k, x, y, 1) == Shadow(m, k, x - 1, y);
    assert RowSum(m, k, x, y, 2) == RowSum(m, k, x, y, 1) + Shadow(m, k, x, y);
  }

  // --- The sprite -----------------------------------------------------------------------------

  function Premultiply(c: Argb): (r: Argb)
    ensures Premultiplied(r) && r.a == c.a
    ensures c.a == 255 ==> r == c
  {
    ScaledBound(c.r, 255, c.a);
    ScaledBound(c.g, 255, c.a);
    ScaledBound(c.b, 255, c.a);
    Argb(c.a, c.r * c.a / 255, c.g * c.a / 255, c.b * c.a / 255)
  }

  const PASSES := 3

  // One pixel of the sprite.
  function Icon(m: Stencil, fill: Argb, outline: Argb, x: int, y: int): Argb {
    if Filled(m, x, y) then Premultiply(if IsEdge(m, x, y) then outline else fill)
    else Argb(Shadow(m, PASSES, x, y), 0, 0, 0)
  }

  // Every pixel of a sprite is premultiplied, so drawing the cursor is plain compositing: no
  // channel ever carries into its neighbour.
  lemma IconComposites(m: Stencil, fill: Argb, outline: Argb, x: int, y: int, dst: Argb)
    ensures var px := Icon(m, fill, outline, x, y);
            && Premultiplied(px)
            && (px.a == 0 ==> Composite(px, dst) == dst)
            && (0 < px.a < 255 ==>
                  Composite(px, dst)
                    == Argb(255, Lay(px.r, dst.r, px.a), Lay(px.g, dst.g, px.a), Lay(px.b, dst.b, px.a)))
  {
    var px := Icon(m, fill, outline, x, y);
    if 0 < px.a < 255 {
      PremultipliedNeverCarries(px, dst);
    }
  }

  // Away from the shape and its shadow the cursor leaves the screen alone.
  lemma IconIsTransparentFarAway(m: Stencil, fill: Argb, outline: Argb, x: int, y: int, dst: Argb)
    requires !Filled(m, x, y) && NoneNear(m, PASSES, x, y)
    ensures Composite(Icon(m, fill, outline, x, y), dst) == dst
  {
    ShadowSpreads(m, PASSES, x, y);
  }

  // --- What a sprite shows ------------------------------------------------------------------------

  // Premultiplying scales every channel by its colour's own alpha, rounded down.
  lemma PremultiplyIsScaled(c: Argb)
    ensures var p := Premultiply(c);
            && 255 * p.r <= c.r * c.a < 255 * p.r + 255
            && 255 * p.g <= c.g * c.a < 255 * p.g + 255
            && 255 * p.b <= c.b * c.a < 255 * p.b + 255
  {
  }

  // With opaque colours, a pixel of the shape is the outline if and only if one of its four neighbours
  // is not in the shape or off the sprite, and else the fill; any other pixel is black, as strong as
  // the shadow there.
  lemma IconShows(m: Stencil, fill: Argb, outline: Argb, x: nat, y: nat)
    requires x < m.width && y < m.height && fill.a == 255 && outline.a == 255
    ensures Cell(m, x, y) ==>
              var inside := && 0 < x < m.width - 1 && 0 < y < m.height - 1
                            && Cell(m, x - 1, y) && Cell(m, x + 1, y) && Cell(m, x, y - 1) && Cell(m, x, y + 1);
              Icon(m, fill, outline, x, y) == if inside then fill else outline
    ensures !Cell(m, x, y) ==> Icon(m, fill, outline, x, y) == Argb(Shadow(m, 3, x, y), 0, 0, 0)
  {
    hide Shadow;
  }

  // The shadow starts as the shape moved four pixels right and down, at strength 160.
  lemma ShadowStarts(m: Stencil, x: nat, y: nat)
    requires x < m.width && y < m.height
    ensures Shadow(m, 0, x + 4, y + 4) == if Cell(m, x, y) then 160 else 0
    ensures Shadow(m, 0, x, y) != 0 ==> 4 <= x && 4 <= y && Cell(m, x - 4, y - 4)
  {
  }

  // A blur pass gives each inner pixel the mean of the nine around it, rounded down, and leaves the
  // border alone.
  lemma BlurIsMean(m: Stencil, k: nat, x: nat, y: nat)
    requires x < m.width && y < m.height
    ensures 0 < x < m.width - 1 && 0 < y < m.height - 1 ==>
              var sum := Shadow(m, k, x - 1, y - 1) + Shadow(m, k, x, y - 1) + Shadow(m, k, x + 1, y - 1)
                         + Shadow(m, k, x - 1, y) + Shadow(m, k, x, y) + Shadow(m, k, x + 1, y)
                         + Shadow(m, k, x - 1, y + 1) + Shadow(m, k, x, y + 1) + Shadow(m, k, x + 1, y + 1);
              9 * Shadow(m, k + 1, x, y) <= sum < 9 * Shadow(m, k + 1, x, y) + 9
    ensures !(0 < x < m.width - 1 && 0 < y < m.height - 1) ==> Shadow(m, k + 1, x, y) == Shadow(m, k, x, y)
  {
    if 0 < x < m.width - 1 && 0 < y < m.height - 1 {
      assert Shadow(m, k + 1, x, y) == BoxSum(m, k, x, y, 3) / 9;
      hide Shadow;
      BoxIsNine(m, k, x, y);
    }
  }

  lemma BoxIsNine(m: Stencil, k: nat, x: int, y: int)
    ensures BoxSum(m, k, x, y, 3)
         == Shadow(m, k, x - 1, y - 1) + Shadow(m, k, x, y - 1) + Shadow(m, k, x + 1, y - 1)
            + Shadow(m, k, x - 1, y) + Shadow(m, k, x, y) + Shadow(m, k, x + 1, y)
            + Shadow(m, k, x - 1, y + 1) + Shadow(m, k, x, y + 1) + Shadow(m, k, x + 1, y + 1)
  {
    hide Shadow;
    RowIsThree(m, k, x, y - 1);
    RowIsThree(m, k, x, y);
    RowIsThree(m, k, x, y + 1);
    assert BoxSum(m, k, x, y, 1) == RowSum(m, k, x, y - 1, 3);
    assert BoxSum(m, k, x, y, 2) == BoxSum(m, k, x, y, 1) + RowSum(m, k, x, y, 3);
  }

  lemma RowIsThree(m: Stencil, k: nat, x: int, y: int)
    ensures RowSum(m, k, x, y, 3) == Shadow(m, k, x - 1, y) + Shadow(m, k, x, y) + Shadow(m, k, x + 1, y)
  {
    hide Shadow;
    assert RowSum(m, k, x, y, 1) == Shadow(m, k, x - 1, y);
    assert RowSum(m, k, x, y, 2) == RowSum(m, k, x, y, 1) + Shadow(m, k, x, y);
  }

  // --- The loops ------------------------------------------------------------------------------

  function At<T>(buf: array<T>, m: Stencil, x: int, y: int): T
    requires buf.Length == m.width * m.height && OnGrid(m, x, y)
    reads buf
  {
    CellInRange(m.width, m.height, x, y);
    buf[y * m.width + x]
  }

  method Put<T>(buf: array<T>, m: Stencil, x: int, y: int, v: T)
    requires buf.Length == m.width * m.height && OnGrid(m, x, y)
    modifies buf
    ensures At(buf, m, x, y) == v
    ensures forall x', y' | OnGrid(m, x', y') && (x' != x || y' != y) :: At(buf, m, x', y') == old(At(buf, m, x', y'))
  {
    CellInRange(m.width, m.height, x, y);
    buf[y * m.width + x] := v;
    forall x', y' | OnGrid(m, x', y') && (x' != x || y' != y)
      ensures At(buf, m, x', y') == old(At(buf, m, x', y'))
    {
      Renderer.CellsDistinct(m.width, x, y, x', y');
      CellInRange(m.width, m.height, x', y');
    }
  }

  ghost predicate HoldsShadow(buf: array<Byte>, m: Stencil, k: nat)
    reads buf
  {
    && buf.Length == m.width * m.height
    && forall x, y | OnGrid(m, x, y) :: At(buf, m, x, y) == Shadow(m, k, x, y)
  }

  // The shape, moved down and right, as far as it stays on the sprite.
  method CastShadow(m: Stencil) returns (shadow: array<Byte>)
    ensures fresh(shadow) && HoldsShadow(shadow, m, 0)
  {
    shadow := new Byte[m.width * m.height](_ => 0);
    forall x, y | OnGrid(m, x, y) ensures At(shadow, m, x, y) == 0 { CellInRange(m.width, m.height, x, y); }
    for yy := 0 to m.height
      invariant forall x, y | OnGrid(m, x, y) ::
                  At(shadow, m, x, y) == if y - SHIFT < yy && Filled(m, x - SHIFT, y - SHIFT) then SHADOW else 0
    {
      for xx := 0 to m.width
        invariant forall x, y | OnGrid(m, x, y) ::
                    At(shadow, m, x, y) == if (y - SHIFT < yy || (y - SHIFT == yy && x - SHIFT < xx))
                                              && Filled(m, x - SHIFT, y - SHIFT) then SHADOW else 0
      {
        if Filled(m, xx, yy) && OnGrid(m, xx + SHIFT, yy + SHIFT) {
          Put(shadow, m, xx + SHIFT, yy + SHIFT, SHADOW);
        }
      }
    }
  }

  // The sum over the box around an inner pixel.
  method SumBox(src: array<Byte>, m: Stencil, ghost k: nat, x: int, y: int) returns (sum: nat)
    requires HoldsShadow(src, m, k) && Inner(m, x, y)
    ensures sum == BoxSum(m, k, x, y, 3)
  {
    hide Shadow;
    sum := 0;
    for row := 0 to 3
      invariant sum == BoxSum(m, k, x, y, row)
    {
      for col := 0 to 3
        invariant sum == BoxSum(m, k, x, y, row) + RowSum(m, k, x, y + row - 1, col)
      {
        sum := sum + At(src, m, x + col - 1, y + row - 1);
      }
    }
  }

  // One blur pass over the inner pixels, reading from a copy.
  method BlurPass(shadow: array<Byte>, m: Stencil, ghost k: nat)
    requires HoldsShadow(shadow, m, k)
    modifies shadow
    ensures HoldsShadow(shadow, m, k + 1)
  {
    hide BoxSum;
    var src := new Byte[shadow.Length](i requires 0 <= i < shadow.Length reads shadow => shadow[i]);
    assert HoldsShadow(src, m, k) by { Copied(shadow, src, m, k); }
    for yy := 1 to if 1 <= m.height - 1 then m.height - 1 else 1
      invariant HoldsShadow(src, m, k)
      invariant forall x, y | OnGrid(m, x, y) :: At(shadow, m, x, y) == Shadow(m, if y < yy then k + 1 else k, x, y)
    {
      for xx := 1 to if 1 <= m.width - 1 then m.width - 1 else 1
        invariant HoldsShadow(src, m, k)
        invariant forall x, y | OnGrid(m, x, y) ::
                    At(shadow, m, x, y) == Shadow(m, if y < yy || (y == yy && x < xx) then k + 1 else k, x, y)
      {
        var sum := SumBox(src, m, k, xx, yy);
        Put(shadow, m, xx, yy, sum / 9);
      }
    }
  }

  lemma Copied(a: array<Byte>, b: array<Byte>, m: Stencil, k: nat)
    requires HoldsShadow(a, m, k) && a.Length == b.Length && forall i | 0 <= i < a.Length :: a[i] == b[i]
    ensures HoldsShadow(b, m, k)
  {
    forall x, y | OnGrid(m, x, y) ensures At(b, m, x, y) == Shadow(m, k, x, y) {
      CellInRange(m.width, m.height, x, y);
      assert At(a, m, x, y) == Shadow(m, k, x, y);
    }
  }

  // The sprite of a stencil. (The loop bounds of the source need a stencil with a pixel.)
  method IconFromMask(m: Stencil, fill: Argb, outline: Argb) returns (sprite: Bitmap)
    requires 1 <= m.width && 1 <= m.height
    ensures sprite.width == m.width && sprite.height == m.height
    ensures forall x, y | OnGrid(m, x, y) :: Cell(sprite, x, y) == Icon(m, fill, outline, x, y)
  {
    var shadow := CastShadow(m);
    for k := 0 to PASSES
      invariant HoldsShadow(shadow, m, k)
    {
      BlurPass(shadow, m, k);
    }
    var pixels := LayShadow(shadow, m);
    DrawShape(pixels, m, fill, outline);
    sprite := Grid(m.width, m.height, pixels[..]);
    hide Icon;
    forall x, y | OnGrid(m, x, y) ensures Cell(sprite, x, y) == Icon(m, fill, outline, x, y) {
      CellInRange(m.width, m.height, x, y);
      assert At(pixels, m, x, y) == Icon(m, fill, outline, x, y);
    }
  }

  // The shape over its shadow.
  method DrawShape(pixels: array<Argb>, m: Stencil, fill: Argb, outline: Argb)
    requires pixels.Length == m.width * m.height
    requires forall x, y | OnGrid(m, x, y) :: At(pixels, m, x, y) == Argb(Shadow(m, PASSES, x, y), 0, 0, 0)
    modifies pixels
    ensures forall x, y | OnGrid(m, x, y) :: At(pixels, m, x, y) == Icon(m, fill, outline, x, y)
  {
    hide Shadow, Premultiply, IsEdge;
    for yy := 0 to m.height
      invariant forall x, y | OnGrid(m, x, y) ::
                  At(pixels, m, x, y) == if y < yy then Icon(m, fill, outline, x, y)
                                         else Argb(Shadow(m, PASSES, x, y), 0, 0, 0)
    {
      for xx := 0 to m.width
        invariant forall x, y | OnGrid(m, x, y) ::
                    At(pixels, m, x, y) == if y < yy || (y == yy && x < xx) then Icon(m, fill, outline, x, y)
                                           else Argb(Shadow(m, PASSES, x, y), 0, 0, 0)
      {
        if Filled(m, xx, yy) {
          Put(pixels, m, xx, yy, Premultiply(if IsEdge(m, xx, yy) then outline else fill));
        }
      }
    }
  }

  // A black pixel of the shadow's strength wherever there is any.
  method LayShadow(shadow: array<Byte>, m: Stencil) returns (pixels: array<Argb>)
    requires HoldsShadow(shadow, m, PASSES)
    ensures fresh(pixels) && pixels.Length == m.width * m.height
    ensures forall x, y | OnGrid(m, x, y) :: At(pixels, m, x, y) == Argb(Shadow(m, PASSES, x, y), 0, 0, 0)
  {
    hide Shadow;
    pixels := new Argb[m.width * m.height](_ => Argb(0, 0, 0, 0));
    for i := 0 to pixels.Length
      invariant forall j | 0 <= j < pixels.Length ::
                pixels[j] == if j < i then Argb(shadow[j], 0, 0, 0) else Argb(0, 0, 0, 0)
    {
      if 0 < shadow[i] {
        pixels[i] := Argb(shadow[i], 0, 0, 0);
      }
    }
    forall x, y | OnGrid(m, x, y) ensures At(pixels, m, x, y) == Argb(Shadow(m, PASSES, x, y), 0, 0, 0) {
      CellInRange(m.width, m.height, x, y);
      assert At(shadow, m, x, y) == Shadow(m, PASSES, x, y);
    }
  }
}
