// The boot frame allocator: carving usable memory around holes into at most 32 ranges, and
// handing out their frames one by one (kernel/src/mm/allocator.rs).
module BootAllocator {
  import opened Options
  import opened Arithmetic
  import opened Frames

  const SLOTS := 32

  // The low window no frame may come from, and the reserved range around the early stacks.
  const FORBIDDEN := Range(0x0010_0000, 0x0100_0000)
  const COLLISION := Range(0x37a_5000, 0x500_0000)

  // The boot stack, from 128 KiB below the stack pointer to a page above it, page aligned.
  function StackHole(rsp: nat): (h: Range)
    ensures h.start <= rsp < h.end
    ensures h.start % FRAME == 0 && h.start <= Max(rsp - 0x2_0000, 0) < h.start + FRAME
    ensures h.end % FRAME == 0 && rsp + 0x1000 <= h.end < rsp + 0x1000 + FRAME
  {
    Range((if rsp < 0x2_0000 then 0 else rsp - 0x2_0000) / FRAME * FRAME, (rsp + 0x1000 + 0xFFF) / FRAME * FRAME)
  }

  // The two holes ordered by start.
  function Holes(rsp: nat): (hs: seq<Range>)
    ensures HolesOrdered(hs)
    ensures forall h :: h in hs <==> h == StackHole(rsp) || h == COLLISION
  {
    var stack := StackHole(rsp);
    if stack.start <= COLLISION.start then [stack, COLLISION] else [COLLISION, stack]
  }

  ghost predicate HolesOrdered(hs: seq<Range>) {
    && (forall k | 0 <= k < |hs| :: hs[k].start <= hs[k].end)
    && (forall i, j | 0 <= i < j < |hs| :: hs[i].start <= hs[j].start)
  }

  // --- Carving --------------------------------------------------------------------------------

  function Segment(start: nat, end: nat): seq<Range> {
    if start < end then [Range(start, end)] else []
  }

  // [current, end) without the holes: a segment before each hole, and one after the last.
  function CarveFrom(current: nat, end: nat, holes: seq<Range>): seq<Range>
    decreases holes
  {
    if holes == [] then Segment(current, end)
    else Segment(current, Min(end, holes[0].start)) + CarveFrom(Max(current, holes[0].end), end, holes[1..])
  }

  // A region, from the end of the forbidden window on.
  function CarveRegion(r: Region, holes: seq<Range>): seq<Range> {
    if !r.usable then [] else CarveFrom(Max(r.base, FORBIDDEN.end), r.base + r.len, holes)
  }

  function CarveAll(regions: seq<Region>, holes: seq<Range>): seq<Range> {
    if regions == [] then []
    else CarveAll(regions[..|regions| - 1], holes) + CarveRegion(regions[|regions| - 1], holes)
  }

  predicate InHole(holes: seq<Range>, a: nat) { exists h | h in holes :: Holds(h, a) }

  lemma CoveredConcat(a: seq<Range>, b: seq<Range>, x: nat)
    ensures Covered(a + b, x) <==> Covered(a, x) || Covered(b, x)
  {
    assert forall r :: r in a + b <==> r in a || r in b;
  }

  lemma NothingCovered(x: nat)
    ensures !Covered([], x)
  {
  }

  lemma SegmentCovers(start: nat, end: nat, x: nat)
    ensures Covered(Segment(start, end), x) <==> start <= x < end
  {
    if start < end {
      assert Range(start, end) in Segment(start, end);
    }
  }

  // Carving keeps exactly the addresses of the interval outside the holes.
  lemma {:induction false} CarveFromExact(current: nat, end: nat, holes: seq<Range>, x: nat)
    requires HolesOrdered(holes)
    ensures Covered(CarveFrom(current, end, holes), x) <==> current <= x < end && !InHole(holes, x)
    decreases holes
  {
    if holes == [] {
      SegmentCovers(current, end, x);
    } else {
      var h, rest := holes[0], holes[1..];
      CarveFromExact(Max(current, h.end), end, rest, x);
      SegmentCovers(current, Min(end, h.start), x);
      CoveredConcat(Segment(current, Min(end, h.start)), CarveFrom(Max(current, h.end), end, rest), x);
      FirstHole(holes, x);
    }
  }

  lemma FirstHole(holes: seq<Range>, x: nat)
    requires holes != [] && HolesOrdered(holes)
    ensures InHole(holes, x) <==> Holds(holes[0], x) || InHole(holes[1..], x)
    ensures x < holes[0].start ==> !InHole(holes[1..], x)
  {
    assert Holds(holes[0], x) ==> holes[0] in holes;
    assert forall g | g in holes[1..] :: g in holes && holes[0].start <= g.start;
    if InHole(holes, x) && !Holds(holes[0], x) {
      var g :| g in holes && Holds(g, x);
      assert g in holes[1..];
    }
  }

  // Whether carving should keep an address.
  ghost predicate Keeps(regions: seq<Region>, holes: seq<Range>, x: nat) {
    && FORBIDDEN.end <= x && !InHole(holes, x)
    && exists r | r in regions :: r.usable && r.base <= x < r.base + r.len
  }

  // For any memory map and any holes, the ranges cover exactly the usable addresses at or above
  // the forbidden window's end and outside the holes.
  lemma {:induction false} CarveAllExact(regions: seq<Region>, holes: seq<Range>, x: nat)
    requires HolesOrdered(holes)
    ensures Covered(CarveAll(regions, holes), x) <==> Keeps(regions, holes, x)
  {
    hide Covered, CarveFrom, InHole;
    if regions == [] {
      NothingCovered(x);
    } else {
      var before, r := regions[..|regions| - 1], regions[|regions| - 1];
      if !r.usable { NothingCovered(x); }
      CarveAllExact(before, holes, x);
      CoveredConcat(CarveAll(before, holes), CarveRegion(r, holes), x);
      CarveFromExact(Max(r.base, FORBIDDEN.end), r.base + r.len, holes, x);
      assert forall s :: s in regions <==> s in before || s == r;
    }
  }

  // --- Disjointness ---------------------------------------------------------------------------

  ghost predicate Within(rs: seq<Range>, lo: nat, hi: nat) {
    forall r | r in rs :: lo <= r.start < r.end <= hi
  }

  lemma DisjointConcat(a: seq<Range>, b: seq<Range>)
    requires PairwiseDisjoint(a) && PairwiseDisjoint(b) && forall r, s | r in a && s in b :: Disjoint(r, s)
    ensures PairwiseDisjoint(a + b)
  {
    forall i, j | 0 <= i < j < |a + b| ensures Disjoint((a + b)[i], (a + b)[j]) {
      if i < |a| && |a| <= j {
        assert a[i] in a && b[j - |a|] in b;
      }
    }
  }

  lemma {:induction false} CarveFromDisjoint(current: nat, end: nat, holes: seq<Range>)
    requires HolesOrdered(holes)
    ensures PairwiseDisjoint(CarveFrom(current, end, holes)) && Within(CarveFrom(current, end, holes), current, end)
    decreases holes
  {
    if holes != [] {
      var h := holes[0];
      CarveFromDisjoint(Max(current, h.end), end, holes[1..]);
      DisjointConcat(Segment(current, Min(end, h.start)), CarveFrom(Max(current, h.end), end, holes[1..]));
    }
  }

  ghost predicate RegionsDisjoint(regions: seq<Region>) {
    forall i, j | 0 <= i < j < |regions| && regions[i].usable && regions[j].usable ::
      regions[i].base + regions[i].len <= regions[j].base || regions[j].base + regions[j].len <= regions[i].base
  }

  ghost predicate WithinSome(rs: seq<Range>, regions: seq<Region>) {
    forall r | r in rs :: exists k | 0 <= k < |regions| :: RangeIn(r, regions[k])
  }

  predicate RangeIn(r: Range, g: Region) { g.usable && g.base <= r.start < r.end <= g.base + g.len }

  lemma {:induction false} CarveAllDisjoint(regions: seq<Region>, holes: seq<Range>)
    requires HolesOrdered(holes) && RegionsDisjoint(regions)
    ensures PairwiseDisjoint(CarveAll(regions, holes)) && WithinSome(CarveAll(regions, holes), regions)
  {
    if regions != [] {
      var n := |regions| - 1;
      var before, r := regions[..n], regions[n];
      CarveAllDisjoint(before, holes);
      CarveFromDisjoint(Max(r.base, FORBIDDEN.end), r.base + r.len, holes);
      forall a, b | a in CarveAll(before, holes) && b in CarveRegion(r, holes) ensures Disjoint(a, b) {
        var k :| 0 <= k < n && RangeIn(a, before[k]);
        assert before[k] == regions[k];
      }
      DisjointConcat(CarveAll(before, holes), CarveRegion(r, holes));
      forall a | a in CarveAll(regions, holes) ensures exists k | 0 <= k < |regions| :: RangeIn(a, regions[k]) {
        if a in CarveAll(before, holes) {
          var k :| 0 <= k < n && RangeIn(a, before[k]);
          assert RangeIn(a, regions[k]);
        } else {
          assert RangeIn(a, regions[n]);
        }
      }
    }
  }

  // --- Filling the slots ----------------------------------------------------------------------

  // What fits in the slots.
  function Fit(rs: seq<Range>): seq<Range> { FirstN(rs, SLOTS) }

  lemma FitWhole(a: seq<Range>)
    requires |a| <= SLOTS
    ensures Fit(a) == a
  {
  }

  lemma FitGrows(a: seq<Range>, b: seq<Range>, c: seq<Range>)
    ensures Fit(Fit(a + b) + c) == Fit(a + (b + c))
  {
    FirstNConcat(a + b, c, SLOTS);
    assert a + b + c == a + (b + c);
  }

  // Records a range in the next slot, if it is not empty and there is one.
  method AddRange(slots: array<Range>, count: nat, start: nat, end: nat) returns (n: nat)
    requires slots.Length == SLOTS && count <= SLOTS
    modifies slots
    ensures n <= SLOTS && slots[..n] == Fit(old(slots[..count]) + Segment(start, end))
  {
    n := count;
    if start < end {
      if n < slots.Length {
        slots[n] := Range(start, end);
        n := n + 1;
      }
    }
  }

  // A region, unless it ends below the forbidden window's end.
  method CarveInto(slots: array<Range>, count: nat, r: Region, holes: seq<Range>) returns (n: nat)
    requires slots.Length == SLOTS && count <= SLOTS
    modifies slots
    ensures n <= SLOTS && slots[..n] == Fit(old(slots[..count]) + CarveRegion(r, holes))
  {
    hide CarveFrom;
    n := count;
    var start: nat, end := Max(r.base, FORBIDDEN.end), r.base + r.len;
    if !r.usable { return; }
    if end <= start {
      EmptyRegion(start, end, holes);
    } else {
      n := CarveHoles(slots, count, start, end, holes);
    }
  }

  // The segments between the holes.
  method CarveHoles(slots: array<Range>, count: nat, start: nat, end: nat, holes: seq<Range>) returns (n: nat)
    requires slots.Length == SLOTS && count <= SLOTS
    modifies slots
    ensures n <= SLOTS && slots[..n] == Fit(old(slots[..count]) + CarveFrom(start, end, holes))
  {
    hide Fit, Segment, CarveFrom;
    n := count;
    ghost var before := slots[..count];
    var current: nat := start;
    ghost var done: seq<Range> := [];
    FitWhole(before);
    assert holes[0..] == holes && before + done == before;
    for k := 0 to |holes|
      invariant n <= SLOTS && slots[..n] == Fit(before + done)
      invariant done + CarveFrom(current, end, holes[k..]) == CarveFrom(start, end, holes)
    {
      ghost var segment := Segment(current, Min(end, holes[k].start));
      n := AddRange(slots, n, current, Min(end, holes[k].start));
      FitGrows(before, done, segment);
      CarveUnfold(current, end, holes, k, done);
      done := done + segment;
      current := Max(current, holes[k].end);
    }
    assert holes[|holes|..] == [];
    CarveLast(current, end);
    n := AddRange(slots, n, current, end);
    FitGrows(before, done, Segment(current, end));
  }

  lemma CarveLast(current: nat, end: nat)
    ensures CarveFrom(current, end, []) == Segment(current, end)
  {
  }

  lemma CarveUnfold(current: nat, end: nat, holes: seq<Range>, k: nat, done: seq<Range>)
    requires k < |holes|
    ensures done + CarveFrom(current, end, holes[k..])
         == done + Segment(current, Min(end, holes[k].start))
            + CarveFrom(Max(current, holes[k].end), end, holes[k + 1..])
  {
    assert holes[k..][0] == holes[k] && holes[k..][1..] == holes[k + 1..];
    assert CarveFrom(current, end, holes[k..])
        == Segment(current, Min(end, holes[k].start)) + CarveFrom(Max(current, holes[k].end), end, holes[k + 1..]);
  }

  // A region below the forbidden window's end yields nothing.
  lemma {:induction false} EmptyRegion(current: nat, end: nat, holes: seq<Range>)
    requires end <= current
    ensures CarveFrom(current, end, holes) == []
    decreases holes
  {
    if holes != [] {
      EmptyRegion(Max(current, holes[0].end), end, holes[1..]);
    }
  }

  method CollectRanges(regions: seq<Region>, rsp: nat, slots: array<Range>) returns (count: nat)
    requires slots.Length == SLOTS
    modifies slots
    ensures count <= SLOTS && slots[..count] == Fit(CarveAll(regions, Holes(rsp)))
  {
    count := 0;
    var holes := Holes(rsp);
    for k := 0 to |regions|
      invariant count <= SLOTS && slots[..count] == Fit(CarveAll(regions[..k], holes))
    {
      assert regions[..k + 1][..k] == regions[..k];
      count := CarveInto(slots, count, regions[k], holes);
      FirstNConcat(CarveAll(regions[..k], holes), CarveRegion(regions[k], holes), SLOTS);
    }
    assert regions[..|regions|] == regions;
  }

  // --- What the recorded ranges mean ----------------------------------------------------------

  // The recorded ranges cover only kept addresses, and all of them unless the slots overflow.
  lemma RecordedExact(regions: seq<Region>, rsp: nat, x: nat)
    ensures var all := CarveAll(regions, Holes(rsp));
            && (Covered(Fit(all), x) ==> Keeps(regions, Holes(rsp), x))
            && (|all| <= SLOTS && Keeps(regions, Holes(rsp), x) ==> Covered(Fit(all), x))
  {
    CarveAllExact(regions, Holes(rsp), x);
  }

  // The two panics of `allocate_frame`.
  predicate GuardFires(f: nat) {
    0x37a_5000 <= f < 0x400_0000 || Holds(FORBIDDEN, f)
  }

  // Every byte of every frame of the recorded ranges is usable memory outside the holes, so
  // neither panic can fire.
  lemma GuardsNeverFire(regions: seq<Region>, rsp: nat, f: nat, x: nat)
    requires f in Pages(Fit(CarveAll(regions, Holes(rsp)))) && f <= x < f + FRAME
    ensures Keeps(regions, Holes(rsp), x) && !GuardFires(f)
  {
    var rs := Fit(CarveAll(regions, Holes(rsp)));
    PagesExact(rs, f);
    var r :| r in rs && FrameIn(f, r.start, r.end);
    assert Holds(r, f) && Holds(r, x);
    RecordedExact(regions, rsp, f);
    RecordedExact(regions, rsp, x);
    assert COLLISION in Holes(rsp);
  }

  // With disjoint usable regions the recorded ranges are disjoint, so no frame is listed twice.
  lemma RecordedDistinct(regions: seq<Region>, rsp: nat)
    requires RegionsDisjoint(regions)
    ensures Distinct(Pages(Fit(CarveAll(regions, Holes(rsp)))))
  {
    CarveAllDisjoint(regions, Holes(rsp));
    PagesDistinct(Fit(CarveAll(regions, Holes(rsp))));
  }

  // --- Handing out ----------------------------------------------------------------------------

  // The frames still to come when the cursor stands at `next` in range number `current`.
  function Rest(rs: seq<Range>, current: nat, next: nat): seq<nat> {
    if current < |rs| then PagesFrom(next, rs[current].end) + Pages(rs[current + 1..]) else []
  }

  lemma NothingRests(rs: seq<Range>, current: nat, next: nat)
    requires |rs| <= current
    ensures forall ps: seq<nat> :: ps + Rest(rs, current, next) == ps
  {
  }

  lemma TakeFrame(rs: seq<Range>, current: nat, next: nat, handed: seq<nat>)
    requires current < |rs| && AlignUp(next) + FRAME <= rs[current].end
    ensures handed + Rest(rs, current, next) == handed + [AlignUp(next)] + Rest(rs, current, AlignUp(next) + FRAME)
  {
    hide Pages, AlignUp;
    var p, end := AlignUp(next), rs[current].end;
    assert PagesFrom(next, end) == [p] + PagesFrom(p + FRAME, end);
    hide PagesFrom;
    Regroup(handed, p, PagesFrom(p + FRAME, end), Pages(rs[current + 1..]));
  }

  lemma Regroup(handed: seq<nat>, p: nat, more: seq<nat>, rest: seq<nat>)
    ensures handed + ([p] + more + rest) == handed + [p] + (more + rest)
  {
  }

  lemma SkipRange(rs: seq<Range>, current: nat, next: nat)
    requires current < |rs| && rs[current].end < AlignUp(next) + FRAME
    ensures Rest(rs, current, next) == Rest(rs, current + 1, if current + 1 < |rs| then rs[current + 1].start else next)
  {
    assert PagesFrom(next, rs[current].end) == [];
    if current + 1 < |rs| {
      assert rs[current + 1..][1..] == rs[current + 2..];
    }
  }

  class BootFrameAllocator {
    const usableRanges: array<Range>
    const rangeCount: nat
    var currentRange: nat
    var next: nat
    ghost var handed: seq<nat>

    ghost function Ranges(): seq<Range>
      requires rangeCount <= usableRanges.Length
      reads usableRanges
    {
      usableRanges[..rangeCount]
    }

    // The frames handed out so far are the first ones of the list, and the rest follow.
    ghost predicate Valid()
      reads this, usableRanges
    {
      rangeCount <= usableRanges.Length && handed + Rest(Ranges(), currentRange, next) == Pages(Ranges())
    }

    constructor (ranges: array<Range>, count: nat)
      requires 0 < count <= ranges.Length
      ensures Valid() && handed == [] && usableRanges == ranges && rangeCount == count
    {
      usableRanges := ranges;
      rangeCount := count;
      currentRange := 0;
      next := ranges[0].start;
      handed := [];
    }

    // The next frame of the list, or None exactly when all have been handed out.
    method AllocateFrame() returns (r: Option<nat>)
      requires Valid()
      modifies this
      ensures Valid()
      ensures r.Some? ==> handed == old(handed) + [r.value]
      ensures r.None? ==> handed == old(handed) == Pages(Ranges())
    {
      hide Rest, Pages;
      ghost var rs := Ranges();
      while true
        invariant handed == old(handed) && handed + Rest(rs, currentRange, next) == Pages(rs)
        decreases if currentRange < rangeCount then rangeCount - currentRange else 0
      {
        if rangeCount <= currentRange {
          NothingRests(rs, currentRange, next);
          return None;
        }
        var end := usableRanges[currentRange].end;
        var aligned := AlignUp(next);
        if aligned + FRAME <= end {
          TakeFrame(rs, currentRange, next, handed);
          next := aligned + FRAME;
          handed := handed + [aligned];
          return Some(aligned);
        }
        SkipRange(rs, currentRange, next);
        currentRange := currentRange + 1;
        if currentRange < rangeCount {
          next := usableRanges[currentRange].start;
        }
      }
    }
  }

  // The simple variant of `new`: null stands for its panic when there is no usable range.
  method NewSimple(regions: seq<Region>, rsp: nat) returns (a: BootFrameAllocator?)
    ensures a == null <==> CarveAll(regions, Holes(rsp)) == []
    ensures a != null ==> fresh(a) && a.Valid() && a.handed == [] && a.Ranges() == Fit(CarveAll(regions, Holes(rsp)))
  {
    var slots := new Range[SLOTS](_ => Range(0, 0));
    var count := CollectRanges(regions, rsp, slots);
    if count == 0 {
      assert slots[..count] == [];
      return null;
    }
    a := new BootFrameAllocator(slots, count);
  }
}
