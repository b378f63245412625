// Colours and pixel arithmetic (compositor/src/types.rs, userland/src/graphics.rs, and the
// blending steps of compositor/src/framebuffer_backend.rs). A pixel is the four bytes that the
// source packs into one 32-bit word; `ToU32` and `FromU32` are that packing.
module Pixel {

  type Byte = n: nat | n < 256

  datatype Argb = Argb(a: Byte, r: Byte, g: Byte, b: Byte)

  function ToU32(c: Argb): nat {
    ((c.a * 256 + c.r) * 256 + c.g) * 256 + c.b
  }

  // Each channel is reached by shifting one byte further.
  function FromU32(w: nat): Argb {
    var w1 := w / 256;
    var w2 := w1 / 256;
    var w3 := w2 / 256;
    Argb(w3 % 256, w2 % 256, w1 % 256, w % 256)
  }

  lemma LastByte(high: nat, low: Byte)
    ensures (high * 256 + low) / 256 == high && (high * 256 + low) % 256 == low
  {
  }

  // Packing loses nothing, in both directions: alpha, red, green and blue from the highest byte down.
  lemma PackingRoundTrip(c: Argb, w: nat)
    requires w < 0x1_0000_0000
    ensures ToU32(c) < 0x1_0000_0000 && FromU32(ToU32(c)) == c
    ensures ToU32(FromU32(w)) == w
    ensures ToU32(c) == 0x100_0000 * c.a + 0x1_0000 * c.r + 0x100 * c.g + c.b
  {
    LastByte((c.a * 256 + c.r) * 256 + c.g, c.b);
    LastByte(c.a * 256 + c.r, c.g);
    LastByte(c.a, c.r);
    FourBytes(w);
  }

  lemma FourBytes(w: nat)
    requires w < 0x1_0000_0000
    ensures ToU32(FromU32(w)) == w
  {
  }

  lemma ScaledBound(x: nat, y: nat, k: nat)
    requires x <= y
    ensures x * k <= y * k
  {
    assert (y - x) * k == y * k - x * k;
  }

  // A weighted mean of two channels lies between them.
  function Mix(fg: Byte, bg: Byte, alpha: Byte): (r: Byte)
    ensures fg <= bg ==> fg <= r <= bg
    ensures bg <= fg ==> bg <= r <= fg
  {
    var lo := if fg <= bg then fg else bg;
    var hi := if fg <= bg then bg else fg;
    ScaledBound(fg, hi, alpha);
    ScaledBound(bg, hi, 255 - alpha);
    ScaledBound(lo, fg, alpha);
    ScaledBound(lo, bg, 255 - alpha);
    assert hi * alpha + hi * (255 - alpha) == 255 * hi;
    assert lo * alpha + lo * (255 - alpha) == 255 * lo;
    (fg * alpha + bg * (255 - alpha)) / 255
  }

  // What the weight means: 0 keeps the background, 255 gives the foreground, and in between the
  // channel moves from the background by the weight's share of the way, rounded down by less than one.
  lemma MixIsWeighted(fg: Byte, bg: Byte, alpha: Byte)
    ensures Mix(fg, bg, 0) == bg && Mix(fg, bg, 255) == fg
    ensures 255 * (Mix(fg, bg, alpha) - bg) <= alpha * (fg - bg) < 255 * (Mix(fg, bg, alpha) - bg) + 255
  {
    var n := fg * alpha + bg * (255 - alpha);
    assert n == 255 * bg + alpha * (fg - bg);
    assert fg * 0 + bg * 255 == 255 * bg && fg * 255 + bg * 0 == 255 * fg;
  }

  // A heavier weight moves the channel further towards the foreground.
  lemma MixIsMonotone(fg: Byte, bg: Byte, alpha: Byte, beta: Byte)
    requires alpha <= beta
    ensures bg <= fg ==> Mix(fg, bg, alpha) <= Mix(fg, bg, beta)
    ensures fg <= bg ==> Mix(fg, bg, beta) <= Mix(fg, bg, alpha)
  {
    MixIsWeighted(fg, bg, alpha);
    MixIsWeighted(fg, bg, beta);
    if bg <= fg {
      ScaledBound(alpha, beta, fg - bg);
    } else {
      ScaledBound(alpha, beta, bg - fg);
      assert alpha * (fg - bg) == -(alpha * (bg - fg)) && beta * (fg - bg) == -(beta * (bg - fg));
    }
    hide Mix;
  }

  function Blend(fg: Argb, bg: Argb): (r: Argb)
    ensures fg.a == 0 ==> r == bg
    ensures fg.a == 255 ==> r == fg
    ensures 0 < fg.a ==> r.a == 255
  {
    if fg.a == 0 then bg
    else if fg.a == 255 then fg
    else Argb(255, Mix(fg.r, bg.r, fg.a), Mix(fg.g, bg.g, fg.a), Mix(fg.b, bg.b, fg.a))
  }

  predicate Between(v: Byte, a: Byte, b: Byte) { a <= v <= b || b <= v <= a }

  // Within one of the share of the way from bg to fg that the weight gives.
  predicate SharedOut(v: Byte, fg: Byte, bg: Byte, alpha: Byte) {
    255 * (v - bg) <= alpha * (fg - bg) < 255 * (v - bg) + 255
  }

  // Every channel is mixed from the two sources' own, by the foreground's alpha.
  lemma BlendByChannel(fg: Argb, bg: Argb, fg': Argb, bg': Argb)
    ensures var c := Blend(fg, bg);
            && Between(c.r, fg.r, bg.r) && Between(c.g, fg.g, bg.g) && Between(c.b, fg.b, bg.b)
            && SharedOut(c.r, fg.r, bg.r, fg.a) && SharedOut(c.g, fg.g, bg.g, fg.a) && SharedOut(c.b, fg.b, bg.b, fg.a)
    ensures fg.a == fg'.a && fg.r == fg'.r && bg.r == bg'.r ==> Blend(fg, bg).r == Blend(fg', bg').r
    ensures fg.a == fg'.a && fg.g == fg'.g && bg.g == bg'.g ==> Blend(fg, bg).g == Blend(fg', bg').g
    ensures fg.a == fg'.a && fg.b == fg'.b && bg.b == bg'.b ==> Blend(fg, bg).b == Blend(fg', bg').b
  {
    MixIsWeighted(fg.r, bg.r, fg.a);
    MixIsWeighted(fg.g, bg.g, fg.a);
    MixIsWeighted(fg.b, bg.b, fg.a);
    hide Mix;
  }

  // What a solid colour leaves on a pixel.
  function Over(color: Argb, bg: Argb): Argb {
    if color.a == 255 then color else Blend(color, bg)
  }

  // What a glyph pixel of the given coverage leaves on a pixel.
  function Ink(color: Argb, coverage: Byte, bg: Argb): Argb {
    if coverage == 0 then bg
    else if coverage == 255 then color
    else
      ScaledBound(color.a, 255, coverage);
      Blend(color.(a := color.a * coverage / 255), bg)
  }

  // A solid colour is blended like any other.
  lemma OverIsBlend(color: Argb, bg: Argb)
    ensures Over(color, bg) == Blend(color, bg)
  {
  }

  // A glyph pixel blends its colour with an alpha cut down by the coverage: none of it at 0, all of
  // its colour at 255, and in between the coverage's share of its alpha, rounded down.
  lemma InkIsCovered(color: Argb, coverage: Byte, bg: Argb)
    ensures Ink(color, 0, bg) == bg && Ink(color, 255, bg) == color
    ensures 0 < coverage < 255 ==>
              exists a: Byte :: 255 * a <= color.a * coverage < 255 * a + 255
                                && Ink(color, coverage, bg) == Blend(Argb(a, color.r, color.g, color.b), bg)
  {
    if 0 < coverage < 255 {
      ScaledBound(color.a, 255, coverage);
      var a: Byte := color.a * coverage / 255;
      assert Ink(color, coverage, bg) == Blend(Argb(a, color.r, color.g, color.b), bg);
    }
  }

  // One channel of premultiplied compositing, before it is shifted into place.
  function Lay(src: Byte, dst: Byte, alpha: Byte): (r: nat)
    ensures r <= 510
    ensures src <= alpha ==> r <= 255
  {
    ScaledBound(dst, 255, 255 - alpha);
    src + dst * (255 - alpha) / 255
  }

  // The background shines through by what the alpha leaves of it.
  lemma LayIsWeighted(src: Byte, dst: Byte, alpha: Byte)
    ensures Lay(src, dst, 255) == src && Lay(src, dst, 0) == src + dst
    ensures 255 * (Lay(src, dst, alpha) - src) <= dst * (255 - alpha) < 255 * (Lay(src, dst, alpha) - src) + 255
  {
    assert dst * 0 == 0 && dst * 255 / 255 == dst;
  }

  // The low bit of a channel absorbs the carry of the channel below it: the source combines the
  // shifted channels with a bitwise or.
  function OrCarry(channel: nat, below: nat): Byte
    requires below <= 510
  {
    var low := channel % 256;
    if 256 <= below && low % 2 == 0 then low + 1 else low
  }

  // What a cursor sprite pixel leaves on a pixel.
  function Composite(px: Argb, dst: Argb): (out: Argb)
  {
    if px.a == 0 then dst
    else if px.a == 255 then px
    else
      var r, g, b := Lay(px.r, dst.r, px.a), Lay(px.g, dst.g, px.a), Lay(px.b, dst.b, px.a);
      Argb(255, OrCarry(r, g), OrCarry(g, b), b % 256)
  }

  // A premultiplied colour has no channel above its alpha.
  predicate Premultiplied(c: Argb) {
    c.r <= c.a && c.g <= c.a && c.b <= c.a
  }

  // Premultiplied sprites never carry from one channel into the next.
  lemma PremultipliedNeverCarries(px: Argb, dst: Argb)
    requires Premultiplied(px) && 0 < px.a < 255
    ensures Lay(px.r, dst.r, px.a) <= 255 && Lay(px.g, dst.g, px.a) <= 255
    ensures Lay(px.b, dst.b, px.a) <= 255
    ensures Composite(px, dst)
         == Argb(255, Lay(px.r, dst.r, px.a), Lay(px.g, dst.g, px.a), Lay(px.b, dst.b, px.a))
  {
  }
}
