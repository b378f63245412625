// Partial repaints under any clip stack: when pushes and pops leave the two repaints in agreement
// (compositor/src/framebuffer_backend.rs).
module ClipStacks {
  import opened Options
  import opened Geometry
  import opened Pixel
  import opened Scene
  import opened Repaint

  predicate ClipOps(items: seq<Item>) {
    forall k | 0 <= k < |items| :: items[k].ClipPush? || items[k].ClipPop?
  }

  // A cleared screen, some pushes and pops, and what is drawn under them.
  function Under(clips: seq<Item>, body: seq<Item>): seq<Item> { Start(clips) + body }

  function Start(clips: seq<Item>): seq<Item> { [Clear(CLEAR_COLOR)] + clips }

  function FullStack(clips: seq<Item>, s: Screen): seq<Clip> { StackAfter(clips, [Some(ScreenRect(s))]) }

  function PartStack(clips: seq<Item>, dirty: Rect): seq<Clip> { StackAfter(clips, [Some(dirty)]) }

  predicate CoversScreen(r: Rect, s: Screen) {
    r.x <= 0 && r.y <= 0 && s.width <= r.x + r.width && s.height <= r.y + r.height
  }

  // Both entries clip, or neither does and everything is dirty anyway.
  predicate Matched(full: Clip, part: Clip, dirty: Rect, s: Screen) {
    (full.Some? && part.Some?) || (full.None? && part.None? && CoversScreen(dirty, s))
  }

  predicate StacksMatch(clips: seq<Item>, dirty: Rect, s: Screen) {
    var full, part := FullStack(clips, s), PartStack(clips, dirty);
    |full| == |part| && forall k | 0 <= k < |full| :: Matched(full[k], part[k], dirty, s)
  }

  // --- What always holds of the two stacks ------------------------------------------------------

  predicate NonNegative(c: Clip) { c.Some? ==> 0 <= c.value.x && 0 <= c.value.y }

  // Where both entries clip they agree, and one that clips alone clips everything away.
  ghost predicate Tied(full: Clip, part: Clip, dirty: Rect, s: Screen) {
    && NonNegative(full) && NonNegative(part)
    && (full.Some? && part.Some? ==> forall x, y | OnScreen(s, x, y) :: ClipsAgree(full, part, dirty, x, y))
    && (full.None? && part.Some? ==> forall x, y | OnScreen(s, x, y) :: !Inside(part.value, x, y))
  }

  lemma PushTied(full: Clip, part: Clip, rect: Rect, dirty: Rect, s: Screen)
    requires Tied(full, part, dirty, s)
    ensures Tied(PushClip(full, rect), PushClip(part, rect), dirty, s)
  {
    var full', part' := PushClip(full, rect), PushClip(part, rect);
    if full'.Some? && part'.Some? {
      forall x, y | OnScreen(s, x, y) ensures ClipsAgree(full', part', dirty, x, y) {
        PushAgrees(full, part, rect, dirty, x, y);
      }
    } else if full'.None? && part'.Some? {
      forall x, y | OnScreen(s, x, y) ensures !Inside(part'.value, x, y) {
        if full.Some? {
          assert ClipsAgree(full, part, dirty, x, y);
        }
      }
    }
  }

  ghost predicate AllTied(full: seq<Clip>, part: seq<Clip>, dirty: Rect, s: Screen) {
    && |full| == |part| && 1 <= |full|
    && forall k | 0 <= k < |full| :: Tied(full[k], part[k], dirty, s)
  }

  lemma {:induction false} StacksTied(clips: seq<Item>, dirty: Rect, s: Screen)
    requires 0 <= dirty.x && 0 <= dirty.y
    ensures AllTied(FullStack(clips, s), PartStack(clips, dirty), dirty, s)
  {
    if clips != [] {
      var before, item := clips[..|clips| - 1], clips[|clips| - 1];
      StacksTied(before, dirty, s);
      hide Tied;
      var full, part := FullStack(before, s), PartStack(before, dirty);
      if item.ClipPush? {
        PushTied(Top(full), Top(part), item.rect, dirty, s);
        assert FullStack(clips, s) == full + [PushClip(Top(full), item.rect)];
        assert PartStack(clips, dirty) == part + [PushClip(Top(part), item.rect)];
      }
    }
  }

  // --- The start of the scene -------------------------------------------------------------------

  lemma {:induction false} StartStack(clips: seq<Item>, root: Rect)
    ensures StackAfter(Start(clips), [Some(root)]) == StackAfter(clips, [Some(root)])
  {
    if clips == [] {
      assert Start(clips) == [Clear(CLEAR_COLOR)] && Start(clips)[..0] == [];
    } else {
      var before := clips[..|clips| - 1];
      StartStack(before, root);
      assert Start(clips)[..|clips|] == Start(before);
    }
  }

  // A pixel is repainted exactly: as in a full repaint if it is dirty, and else not at all.
  ghost predicate PixelExact(items: seq<Item>, dirty: Rect, s: Screen, x: int, y: int, v: Argb) {
    PartialPixel(items, dirty, s, x, y, v) == if Inside(dirty, x, y) then FullPixel(items, s, x, y) else v
  }

  lemma {:induction false} StartValue(clips: seq<Item>, dirty: Rect, s: Screen, x: int, y: int, v: Argb)
    requires ClipOps(clips) && OnScreen(s, x, y) && 0 <= dirty.x && 0 <= dirty.y
    ensures FullPixel(Start(clips), s, x, y) == CLEAR_COLOR
    ensures PartialPixel(Start(clips), dirty, s, x, y, v) == if Inside(dirty, x, y) then CLEAR_COLOR else v
  {
    if clips == [] {
      assert [] + Start(clips) == Start(clips) == [] + [Clear(CLEAR_COLOR)];
      OneMoreItem([], Clear(CLEAR_COLOR), dirty, ClipTo(dirty), s, x, y, v);
      OneMoreItem([], Clear(CLEAR_COLOR), ScreenRect(s), Full, s, x, y, CLEAR_COLOR);
      SpanHonoursClip(dirty, Some(dirty), s, x, y);
    } else {
      var before, item := clips[..|clips| - 1], clips[|clips| - 1];
      StartValue(before, dirty, s, x, y, v);
      assert Start(clips) == Start(before) + [item];
      OneMoreItem(Start(before), item, dirty, ClipTo(dirty), s, x, y, v);
      OneMoreItem(Start(before), item, ScreenRect(s), Full, s, x, y, CLEAR_COLOR);
    }
  }

  // --- Matching stacks repaint exactly ----------------------------------------------------------

  // At a pixel the two entries agree, or neither clips and the pixel is dirty.
  ghost predicate GoodEntry(full: Clip, part: Clip, dirty: Rect, x: int, y: int) {
    ClipsAgree(full, part, dirty, x, y) || (full.None? && part.None? && Inside(dirty, x, y))
  }

  ghost predicate GoodStacks(items: seq<Item>, dirty: Rect, s: Screen, x: int, y: int) {
    var full, part := FullStack(items, s), PartStack(items, dirty);
    && |full| == |part| && 1 <= |full|
    && forall k | 0 <= k < |full| :: GoodEntry(full[k], part[k], dirty, x, y)
  }

  lemma MatchedIsGood(clips: seq<Item>, dirty: Rect, s: Screen, x: int, y: int)
    requires 0 <= dirty.x && 0 <= dirty.y && OnScreen(s, x, y) && StacksMatch(clips, dirty, s)
    ensures GoodStacks(Start(clips), dirty, s, x, y)
  {
    StacksTied(clips, dirty, s);
    StartStack(clips, dirty);
    StartStack(clips, ScreenRect(s));
    hide StackAfter, Start, ClipsAgree;
    var full, part := FullStack(clips, s), PartStack(clips, dirty);
    forall k | 0 <= k < |full| ensures GoodEntry(full[k], part[k], dirty, x, y) {
      assert Matched(full[k], part[k], dirty, s) && Tied(full[k], part[k], dirty, s);
    }
  }

  lemma GoodStep(items: seq<Item>, item: Item, dirty: Rect, s: Screen, x: int, y: int, v: Argb)
    requires OnScreen(s, x, y) && 0 <= dirty.x && 0 <= dirty.y
    requires GoodStacks(items, dirty, s, x, y) && PixelExact(items, dirty, s, x, y, v)
    requires !item.ClipPush? && (item.Clear? ==> item.color.a == 255)
    ensures GoodStacks(items + [item], dirty, s, x, y) && PixelExact(items + [item], dirty, s, x, y, v)
  {
    OneMoreItem(items, item, dirty, ClipTo(dirty), s, x, y, v);
    OneMoreItem(items, item, ScreenRect(s), Full, s, x, y, CLEAR_COLOR);
    var full, part := Top(FullStack(items, s)), Top(PartStack(items, dirty));
    assert GoodEntry(full, part, dirty, x, y);
    hide StackAfter, ValueAfter, Paint;
    SpanHonoursClip(dirty, Some(dirty), s, x, y);
    if item.Clear? {
      ClearedExactly(item, dirty, s, x, y, PartialPixel(items, dirty, s, x, y, v));
    } else if full.Some? {
      DrawnAgrees(item, full, part, dirty, s, x, y, PartialPixel(items, dirty, s, x, y, v));
    }
  }

  lemma ClearedExactly(item: Item, dirty: Rect, s: Screen, x: int, y: int, v: Argb)
    requires OnScreen(s, x, y) && 0 <= dirty.x && 0 <= dirty.y && item.Clear? && item.color.a == 255
    ensures Drawn(FillRect(dirty, item.color), Some(dirty), s, x, y, v) == if Inside(dirty, x, y) then item.color else v
  {
    SpanHonoursClip(dirty, Some(dirty), s, x, y);
  }

  lemma {:induction false} GoodBody(items: seq<Item>, body: seq<Item>, dirty: Rect, s: Screen, x: int, y: int, v: Argb)
    requires OnScreen(s, x, y) && 0 <= dirty.x && 0 <= dirty.y
    requires GoodStacks(items, dirty, s, x, y) && PixelExact(items, dirty, s, x, y, v)
    requires PushFree(body) && ClearsOpaque(body)
    ensures GoodStacks(items + body, dirty, s, x, y) && PixelExact(items + body, dirty, s, x, y, v)
  {
    hide GoodStacks, PixelExact;
    if body == [] {
      assert items + body == items;
    } else {
      var before, item := body[..|body| - 1], body[|body| - 1];
      GoodBody(items, before, dirty, s, x, y, v);
      GoodStep(items + before, item, dirty, s, x, y, v);
      assert items + body == items + before + [item];
    }
  }

  lemma MatchedIsExact(clips: seq<Item>, body: seq<Item>, dirty: Rect, s: Screen)
    requires ClipOps(clips) && 0 <= dirty.x && 0 <= dirty.y && StacksMatch(clips, dirty, s)
    requires PushFree(body) && ClearsOpaque(body)
    ensures RepaintsExactly(Under(clips, body), dirty, s)
  {
    hide PushFree, ClearsOpaque, StacksMatch, ClipOps, GoodStacks, StackAfter, ValueAfter;
    forall x, y, v | OnScreen(s, x, y)
      ensures PartialPixel(Under(clips, body), dirty, s, x, y, v)
           == if Inside(dirty, x, y) then FullPixel(Under(clips, body), s, x, y) else v
    {
      MatchedIsGood(clips, dirty, s, x, y);
      StartValue(clips, dirty, s, x, y, v);
      assert PixelExact(Start(clips), dirty, s, x, y, v);
      GoodBody(Start(clips), body, dirty, s, x, y, v);
      assert PixelExact(Under(clips, body), dirty, s, x, y, v);
    }
  }

  // --- Other stacks do not ----------------------------------------------------------------------

  function Pops(n: nat): seq<Item> { seq(n, _ => ClipPop) }

  lemma {:induction false} PopsReach(items: seq<Item>, n: nat, root: Rect, mode: ClearMode, s: Screen, x: int, y: int,
                                     v: Argb)
    requires n < |StackAfter(items, [Some(root)])|
    ensures var stack := StackAfter(items, [Some(root)]);
            StackAfter(items + Pops(n), [Some(root)]) == stack[..|stack| - n]
    ensures ValueAfter(items + Pops(n), root, mode, s, x, y, v) == ValueAfter(items, root, mode, s, x, y, v)
  {
    hide StackAfter, ValueAfter;
    if n == 0 {
      assert items + Pops(0) == items;
    } else {
      PopsReach(items, n - 1, root, mode, s, x, y, v);
      assert items + Pops(n) == items + Pops(n - 1) + [ClipPop];
      OnePop(items + Pops(n - 1), root, mode, s, x, y, v);
    }
  }

  lemma OnePop(items: seq<Item>, root: Rect, mode: ClearMode, s: Screen, x: int, y: int, v: Argb)
    requires 1 < |StackAfter(items, [Some(root)])|
    ensures var stack := StackAfter(items, [Some(root)]);
            StackAfter(items + [ClipPop], [Some(root)]) == stack[..|stack| - 1]
    ensures ValueAfter(items + [ClipPop], root, mode, s, x, y, v) == ValueAfter(items, root, mode, s, x, y, v)
  {
    OneMoreItem(items, ClipPop, root, mode, s, x, y, v);
    hide StackAfter, ValueAfter;
  }

  // A fill under the entry n below the top.
  lemma FillUnder(items: seq<Item>, n: nat, fill: Item, root: Rect, mode: ClearMode, s: Screen, x: int, y: int, v: Argb)
    requires n < |StackAfter(items, [Some(root)])| && fill.FillRect?
    ensures var stack := StackAfter(items, [Some(root)]);
            ValueAfter(items + (Pops(n) + [fill]), root, mode, s, x, y, v)
            == Drawn(fill, stack[|stack| - 1 - n], s, x, y, ValueAfter(items, root, mode, s, x, y, v))
  {
    hide StackAfter, ValueAfter, Drawn, Pops;
    PopsReach(items, n, root, mode, s, x, y, v);
    assert items + (Pops(n) + [fill]) == items + Pops(n) + [fill];
    OneMoreItem(items + Pops(n), fill, root, mode, s, x, y, v);
  }

  lemma WhiteFill(rect: Rect, clip: Clip, s: Screen, x: int, y: int)
    ensures Drawn(FillRect(rect, WHITE), clip, s, x, y, CLEAR_COLOR)
         == if SpanCovers(rect, clip, s, x, y) then WHITE else CLEAR_COLOR
  {
    hide SpanCovers;
  }

  function LeakBody(n: nat, rect: Rect): seq<Item> { Pops(n) + [FillRect(rect, WHITE)] }

  // A white fill under one entry that the two repaints treat differently at a pixel.
  lemma Leaks(clips: seq<Item>, k: nat, rect: Rect, dirty: Rect, s: Screen, x: int, y: int)
    requires ClipOps(clips) && 0 <= dirty.x && 0 <= dirty.y && OnScreen(s, x, y)
    requires k < |FullStack(clips, s)| == |PartStack(clips, dirty)|
    requires SpanCovers(rect, PartStack(clips, dirty)[k], s, x, y)
        != (Inside(dirty, x, y) && SpanCovers(rect, FullStack(clips, s)[k], s, x, y))
    ensures !RepaintsExactly(Under(clips, LeakBody(|FullStack(clips, s)| - 1 - k, rect)), dirty, s)
  {
    hide StackAfter, ValueAfter, SpanCovers, Start, Pops, Drawn, ClipOps, RepaintsExactly;
    var fill, n := FillRect(rect, WHITE), |FullStack(clips, s)| - 1 - k;
    StartStack(clips, dirty);
    StartStack(clips, ScreenRect(s));
    StartValue(clips, dirty, s, x, y, CLEAR_COLOR);
    FillUnder(Start(clips), n, fill, dirty, ClipTo(dirty), s, x, y, CLEAR_COLOR);
    FillUnder(Start(clips), n, fill, ScreenRect(s), Full, s, x, y, CLEAR_COLOR);
    WhiteFill(rect, PartStack(clips, dirty)[k], s, x, y);
    WhiteFill(rect, FullStack(clips, s)[k], s, x, y);
    ExactAtPixel(Under(clips, LeakBody(n, rect)), dirty, s, x, y, CLEAR_COLOR);
  }

  lemma ExactAtPixel(items: seq<Item>, dirty: Rect, s: Screen, x: int, y: int, v: Argb)
    requires OnScreen(s, x, y)
    ensures RepaintsExactly(items, dirty, s) ==> PixelExact(items, dirty, s, x, y, v)
  {
  }

  // Which pixel and fill tell two unmatched entries apart.
  lemma Unmatched(full: Clip, part: Clip, dirty: Rect, s: Screen) returns (rect: Rect, x: int, y: int)
    requires Tied(full, part, dirty, s) && !Matched(full, part, dirty, s)
    requires 0 <= dirty.x && 0 <= dirty.y && IntersectRect(dirty, ScreenRect(s)).Some?
    ensures OnScreen(s, x, y)
    ensures SpanCovers(rect, part, s, x, y) != (Inside(dirty, x, y) && SpanCovers(rect, full, s, x, y))
  {
    var p := IntersectRect(dirty, ScreenRect(s)).value;
    assert Inside(dirty, p.x, p.y) && OnScreen(s, p.x, p.y);
    if part.None? && full.Some? {
      // Unclipped, a rectangle left of the screen is painted on its first column.
      rect, x, y := Rect(-1, 0, 1, 1), 0, 0;
      SpanHonoursClip(rect, full, s, x, y);
    } else if full.None? && part.Some? {
      rect, x, y := ScreenRect(s), p.x, p.y;
      SpanHonoursClip(rect, part, s, x, y);
    } else {
      rect := ScreenRect(s);
      if dirty.x <= 0 && s.width <= dirty.x + dirty.width {
        x, y := p.x, if 0 < dirty.y then 0 else s.height - 1;
      } else {
        x, y := if 0 < dirty.x then 0 else s.width - 1, p.y;
      }
      assert OnScreen(s, x, y) && !Inside(dirty, x, y);
    }
  }

  lemma UnmatchedLeaks(clips: seq<Item>, dirty: Rect, s: Screen)
    requires ClipOps(clips) && 0 <= dirty.x && 0 <= dirty.y && IntersectRect(dirty, ScreenRect(s)).Some?
    requires !StacksMatch(clips, dirty, s)
    ensures exists body :: ClearsOpaque(body) && PushFree(body) && !RepaintsExactly(Under(clips, body), dirty, s)
  {
    StacksTied(clips, dirty, s);
    var full, part := FullStack(clips, s), PartStack(clips, dirty);
    var k :| 0 <= k < |full| && !Matched(full[k], part[k], dirty, s);
    var rect, x, y := Unmatched(full[k], part[k], dirty, s);
    hide StackAfter, SpanCovers, RepaintsExactly, Under;
    Leaks(clips, k, rect, dirty, s, x, y);
    var body := LeakBody(|full| - 1 - k, rect);
    assert ClearsOpaque(body) && PushFree(body);
  }

  // For any pushes and pops, everything drawn under them is repainted exactly if and only if the
  // two clip stacks match: a clip that is empty in one repaint is empty in the other, and then
  // everything is dirty.
  lemma ClipStackIff(clips: seq<Item>, dirty: Rect, s: Screen)
    requires ClipOps(clips) && 0 <= dirty.x && 0 <= dirty.y && IntersectRect(dirty, ScreenRect(s)).Some?
    ensures StacksMatch(clips, dirty, s)
       <==> (forall body | ClearsOpaque(body) && PushFree(body) :: RepaintsExactly(Under(clips, body), dirty, s))
  {
    hide StacksMatch, ClearsOpaque, PushFree, RepaintsExactly, Under, ClipOps, IntersectRect;
    if StacksMatch(clips, dirty, s) {
      forall body | ClearsOpaque(body) && PushFree(body) ensures RepaintsExactly(Under(clips, body), dirty, s) {
        MatchedIsExact(clips, body, dirty, s);
      }
    } else {
      UnmatchedLeaks(clips, dirty, s);
    }
  }

  // Under one push that meets the screen, everything is repainted exactly if and only if the push
  // overlaps the dirty rectangle.
  lemma OverlappingPushIff(rect: Rect, dirty: Rect, s: Screen)
    requires 0 <= dirty.x && 0 <= dirty.y && IntersectRect(dirty, ScreenRect(s)).Some?
    requires IntersectRect(ScreenRect(s), rect).Some?
    ensures IntersectRect(dirty, rect).Some?
       <==> (forall body | ClearsOpaque(body) && PushFree(body) ::
               RepaintsExactly(Under([ClipPush(rect)], body), dirty, s))
  {
    var clips := [ClipPush(rect)];
    ClipStackIff(clips, dirty, s);
    OnePush(rect, ScreenRect(s));
    OnePush(rect, dirty);
    hide ClearsOpaque, PushFree, RepaintsExactly, Under, IntersectRect, StackAfter;
    assert FullStack(clips, s)[1].Some? && PartStack(clips, dirty)[1] == IntersectRect(dirty, rect);
  }

  lemma OnePush(rect: Rect, root: Rect)
    ensures StackAfter([ClipPush(rect)], [Some(root)]) == [Some(root), IntersectRect(root, rect)]
  {
    hide IntersectRect;
    var clips := [ClipPush(rect)];
    assert clips[..0] == [] && StackAfter(clips[..0], [Some(root)]) == [Some(root)];
  }
}
