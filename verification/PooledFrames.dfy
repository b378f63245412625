// The pooled variant of the boot allocator beside the page-table allocator: whatever the
// interleaving, no frame is handed out twice (kernel/src/mm/allocator.rs, kernel/src/mm/pools.rs).
module PooledFrames {
  import opened Options
  import opened Arithmetic
  import opened Frames
  import opened Pools
  import Boot = BootAllocator

  // The general-frame pools as ranges, in pool order.
  function GeneralRanges(ps: seq<Pool>): seq<Range> {
    if ps == [] then []
    else
      var p, rest := ps[|ps| - 1], GeneralRanges(ps[..|ps| - 1]);
      if p.role == GeneralFrames then rest + [p.Range()] else rest
  }

  function Size(r: Range): int { r.end - r.start }

  // Inserts a range behind all that are at least as large.
  function Insert(r: Range, rs: seq<Range>): seq<Range> {
    if rs == [] || Size(r) <= Size(rs[|rs| - 1]) then rs + [r]
    else Insert(r, rs[..|rs| - 1]) + [rs[|rs| - 1]]
  }

  // A stable sort by decreasing size.
  function SortBySize(rs: seq<Range>): seq<Range> {
    if rs == [] then [] else Insert(rs[|rs| - 1], SortBySize(rs[..|rs| - 1]))
  }

  // The ranges of the pooled allocator.
  function PooledRanges(ps: seq<Pool>): seq<Range> { SortBySize(Boot.Fit(GeneralRanges(ps))) }

  // --- Sorting keeps the ranges ---------------------------------------------------------------

  lemma {:induction false} InsertKeeps(r: Range, rs: seq<Range>)
    ensures |Insert(r, rs)| == |rs| + 1
    ensures forall s :: s in Insert(r, rs) <==> s == r || s in rs
    ensures PairwiseDisjoint(rs) && (forall s | s in rs :: Disjoint(s, r)) ==> PairwiseDisjoint(Insert(r, rs))
  {
    if rs != [] && Size(rs[|rs| - 1]) < Size(r) {
      var rest, last := rs[..|rs| - 1], rs[|rs| - 1];
      InsertKeeps(r, rest);
      assert rs == rest + [last];
      if PairwiseDisjoint(rs) && forall s | s in rs :: Disjoint(s, r) {
        forall s | s in Insert(r, rest) ensures Disjoint(s, last) {
          assert s == r || s in rest;
          assert last in rs;
        }
        Boot.DisjointConcat(Insert(r, rest), [last]);
      }
    } else if PairwiseDisjoint(rs) && forall s | s in rs :: Disjoint(s, r) {
      Boot.DisjointConcat(rs, [r]);
    }
  }

  lemma {:induction false} SortKeeps(rs: seq<Range>)
    ensures |SortBySize(rs)| == |rs|
    ensures forall s :: s in SortBySize(rs) <==> s in rs
    ensures PairwiseDisjoint(rs) ==> PairwiseDisjoint(SortBySize(rs))
  {
    if rs != [] {
      var rest, last := rs[..|rs| - 1], rs[|rs| - 1];
      SortKeeps(rest);
      InsertKeeps(last, SortBySize(rest));
      assert rs == rest + [last];
    }
  }

  // --- Sorting sorts --------------------------------------------------------------------------

  ghost predicate Decreasing(rs: seq<Range>) {
    forall i, j | 0 <= i < j < |rs| :: Size(rs[j]) <= Size(rs[i])
  }

  // The ranges of one size, in order.
  function OfSize(rs: seq<Range>, size: int): seq<Range> {
    if rs == [] then []
    else
      var rest, last := OfSize(rs[..|rs| - 1], size), rs[|rs| - 1];
      if Size(last) == size then rest + [last] else rest
  }

  lemma OfSizeOneMore(rs: seq<Range>, r: Range, size: int)
    ensures OfSize(rs + [r], size) == OfSize(rs, size) + if Size(r) == size then [r] else []
  {
    assert (rs + [r])[..|rs|] == rs;
  }

  lemma {:induction false} InsertKeepsOrder(r: Range, rs: seq<Range>)
    requires Decreasing(rs)
    ensures Decreasing(Insert(r, rs))
  {
    if rs != [] && Size(rs[|rs| - 1]) < Size(r) {
      var rest, last := rs[..|rs| - 1], rs[|rs| - 1];
      InsertKeepsOrder(r, rest);
      InsertKeeps(r, rest);
      assert rs == rest + [last];
      var inserted := Insert(r, rest);
      forall i | 0 <= i < |inserted| ensures Size(last) <= Size(inserted[i]) {
        assert inserted[i] in inserted;
      }
    }
  }

  // A range is put behind those of its own size.
  lemma {:induction false} InsertIsStable(r: Range, rs: seq<Range>, size: int)
    ensures OfSize(Insert(r, rs), size) == OfSize(rs, size) + if Size(r) == size then [r] else []
  {
    hide OfSize;
    if rs == [] || Size(r) <= Size(rs[|rs| - 1]) {
      OfSizeOneMore(rs, r, size);
    } else {
      var rest, last := rs[..|rs| - 1], rs[|rs| - 1];
      assert rs == rest + [last];
      InsertIsStable(r, rest, size);
      OfSizeOneMore(Insert(r, rest), last, size);
      OfSizeOneMore(rest, last, size);
    }
  }

  // Sorting is by decreasing size and stable: ranges of one size keep their order, and none is
  // lost or added.
  lemma {:induction false} SortSorts(rs: seq<Range>, size: int)
    ensures Decreasing(SortBySize(rs))
    ensures OfSize(SortBySize(rs), size) == OfSize(rs, size)
  {
    if rs != [] {
      var rest, last := rs[..|rs| - 1], rs[|rs| - 1];
      SortSorts(rest, size);
      assert SortBySize(rs) == Insert(last, SortBySize(rest));
      hide SortBySize, Insert, OfSize, Decreasing;
      InsertKeepsOrder(last, SortBySize(rest));
      InsertIsStable(last, SortBySize(rest), size);
      assert rs == rest + [last];
      OfSizeOneMore(rest, last, size);
    }
  }

  // --- General frames and page-table frames ---------------------------------------------------

  ghost predicate IsGeneral(ps: seq<Pool>, r: Range) {
    exists p | p in ps :: p.role == GeneralFrames && p.Range() == r
  }

  lemma {:induction false} GeneralMembers(ps: seq<Pool>, r: Range)
    ensures r in GeneralRanges(ps) <==> IsGeneral(ps, r)
  {
    if ps != [] {
      var before, p := ps[..|ps| - 1], ps[|ps| - 1];
      GeneralMembers(before, r);
      assert forall q :: q in ps <==> q in before || q == p;
    }
  }

  lemma {:induction false} GeneralDisjoint(ps: seq<Pool>)
    requires PoolsDisjoint(ps)
    ensures PairwiseDisjoint(GeneralRanges(ps))
  {
    if ps != [] {
      var n := |ps| - 1;
      var before, p := ps[..n], ps[n];
      GeneralDisjoint(before);
      forall r | r in GeneralRanges(before) ensures Disjoint(r, p.Range()) {
        GeneralMembers(before, r);
        var q :| q in before && q.role == GeneralFrames && q.Range() == r;
        var i :| 0 <= i < n && before[i] == q;
        assert Disjoint(ps[i].Range(), ps[n].Range());
      }
      Boot.DisjointConcat(GeneralRanges(before), [p.Range()]);
    }
  }

  // A general frame lies in a general pool.
  lemma GeneralFrameInPool(ps: seq<Pool>, f: nat) returns (p: Pool)
    requires f in Pages(PooledRanges(ps))
    ensures p in ps && p.role == GeneralFrames && FrameIn(f, p.start, p.end)
  {
    var rs := PooledRanges(ps);
    hide Pages, SortBySize, GeneralRanges;
    PagesExact(rs, f);
    var r :| r in rs && FrameIn(f, r.start, r.end);
    SortKeeps(Boot.Fit(GeneralRanges(ps)));
    GeneralMembers(ps, r);
    p :| p in ps && p.role == GeneralFrames && p.Range() == r;
  }

  // A page-table frame lies in the page-table pool.
  lemma TableFrameInPool(ps: seq<Pool>, g: nat) returns (p: Pool)
    requires AtMostOneTablePool(ps) && g in TableFrames(ps)
    ensures p in ps && p.role == PageTables && FrameIn(g, p.start, p.end)
  {
    TablePoolFound(ps);
    p := TablePool(ps).value;
    PagesFromExact(p.start, p.end);
  }

  // Frames of the two allocators are different.
  lemma FramesApart(ps: seq<Pool>, f: nat, g: nat)
    requires PoolsDisjoint(ps) && AtMostOneTablePool(ps)
    requires f in Pages(PooledRanges(ps)) && g in TableFrames(ps)
    ensures f != g
  {
    hide Pages, PooledRanges, TableFrames;
    var p := GeneralFrameInPool(ps, f);
    var q := TableFrameInPool(ps, g);
    DistinctPoolsDisjoint(ps, p, q);
  }

  lemma DistinctPoolsDisjoint(ps: seq<Pool>, p: Pool, q: Pool)
    requires PoolsDisjoint(ps) && p in ps && q in ps && p != q
    ensures Disjoint(p.Range(), q.Range())
  {
    var i :| 0 <= i < |ps| && ps[i] == p;
    var j :| 0 <= j < |ps| && ps[j] == q;
  }

  // Neither allocator's list repeats a frame.
  lemma ListsDistinct(ps: seq<Pool>)
    requires PoolsDisjoint(ps)
    ensures Distinct(Pages(PooledRanges(ps))) && Distinct(TableFrames(ps))
  {
    hide GeneralRanges, SortBySize;
    GeneralDisjoint(ps);
    SortKeeps(Boot.Fit(GeneralRanges(ps)));
    PagesDistinct(PooledRanges(ps));
    if TablePool(ps).Some? {
      PagesFromExact(TablePool(ps).value.start, TablePool(ps).value.end);
    }
  }

  // The pools of any memory map with disjoint, frame-aligned usable regions.
  lemma RecordedPoolsGood(regions: seq<Region>)
    requires Boot.RegionsDisjoint(regions) && RegionsAligned(regions)
    ensures PoolsDisjoint(Fit(PoolsOf(regions))) && GoodPools(Fit(PoolsOf(regions)))
  {
    AllPoolsDisjoint(regions, Largest(regions).0);
    OneTablePool(regions, Largest(regions).0);
  }

  // --- Running both allocators ----------------------------------------------------------------

  // The pooled variant of `new`: null stands for its panic when no pool has general frames.
  method NewPooled(ps: seq<Pool>) returns (a: Boot.BootFrameAllocator?)
    ensures a == null <==> GeneralRanges(ps) == []
    ensures a != null ==> fresh(a) && a.Valid() && a.handed == [] && a.Ranges() == PooledRanges(ps)
    ensures a != null ==> Decreasing(a.Ranges())
  {
    var slots := new Range[Boot.SLOTS](_ => Range(0, 0));
    var count := CollectGeneral(ps, slots);
    assert count == 0 ==> slots[..count] == [];
    if count == 0 { return null; }
    hide GeneralRanges, SortBySize, Boot.Fit, Pages, Decreasing, OfSize;
    SortSlots(slots, count);
    a := new Boot.BootFrameAllocator(slots, count);
  }

  // Sorts the first slots in place: largest range first, and ranges of one size in their old order.
  method SortSlots(slots: array<Range>, count: nat)
    requires count <= slots.Length
    modifies slots
    ensures slots[..count] == SortBySize(old(slots[..count])) && slots[count..] == old(slots[count..])
    ensures Decreasing(slots[..count])
    ensures forall size :: OfSize(slots[..count], size) == OfSize(old(slots[..count]), size)
  {
    ghost var before := slots[..];
    hide SortBySize, Insert, OfSize, Decreasing;
    SortNone();
    for k := 0 to count
      invariant slots[..k] == SortBySize(before[..k]) && slots[k..] == before[k..]
    {
      assert slots[k..][0] == before[k..][0] && slots[k..][1..] == before[k..][1..];
      assert before[..k + 1] == before[..k] + [before[k]];
      SortOneMore(before[..k], before[k]);
      InsertSlot(slots, k);
    }
    assert before[..count] == old(slots[..count]);
    SortSorts(before[..count], 0);
    forall size ensures OfSize(slots[..count], size) == OfSize(before[..count], size) {
      SortSorts(before[..count], size);
    }
  }

  lemma SortNone()
    ensures SortBySize([]) == []
  {
  }

  lemma SortOneMore(rs: seq<Range>, r: Range)
    ensures SortBySize(rs + [r]) == Insert(r, SortBySize(rs))
  {
    assert (rs + [r])[..|rs|] == rs;
  }

  // Where a range is inserted: before all smaller ones at the end.
  lemma {:induction false} InsertAt(r: Range, rs: seq<Range>, j: nat)
    requires j <= |rs| && (j == 0 || Size(r) <= Size(rs[j - 1]))
    requires forall m | j <= m < |rs| :: Size(rs[m]) < Size(r)
    ensures Insert(r, rs) == rs[..j] + [r] + rs[j..]
  {
    if j < |rs| {
      var rest, last := rs[..|rs| - 1], rs[|rs| - 1];
      InsertAt(r, rest, j);
      assert rs[..j] == rest[..j] && rs[j..] == rest[j..] + [last];
    }
  }

  // Moves the range in slot k up, past all smaller ones before it.
  method InsertSlot(slots: array<Range>, k: nat)
    requires k < slots.Length
    modifies slots
    ensures slots[..k + 1] == Insert(old(slots[k]), old(slots[..k])) && slots[k + 1..] == old(slots[k + 1..])
  {
    hide Insert;
    var r, j := slots[k], k;
    ghost var front := slots[..k];
    while 0 < j && Size(slots[j - 1]) < Size(r)
      invariant 0 <= j <= k
      invariant forall m | 0 <= m < j :: slots[m] == front[m]
      invariant forall m | j < m <= k :: slots[m] == front[m - 1]
      invariant forall m | j <= m < k :: Size(front[m]) < Size(r)
      invariant forall m | k < m < slots.Length :: slots[m] == old(slots[m])
    {
      slots[j] := slots[j - 1];
      j := j - 1;
    }
    slots[j] := r;
    InsertAt(r, front, j);
  }

  // The first 32 general pools, in pool order.
  method CollectGeneral(ps: seq<Pool>, slots: array<Range>) returns (count: nat)
    requires slots.Length == Boot.SLOTS
    modifies slots
    ensures count <= Boot.SLOTS && slots[..count] == Boot.Fit(GeneralRanges(ps))
  {
    count := 0;
    for k := 0 to |ps|
      invariant count <= Boot.SLOTS && slots[..count] == Boot.Fit(GeneralRanges(ps[..k]))
    {
      assert ps[..k + 1][..k] == ps[..k];
      if ps[k].role == GeneralFrames {
        if Boot.SLOTS <= count {
          FullStaysFull(ps, k);
          return;
        }
        slots[count] := ps[k].Range();
        count := count + 1;
      }
    }
    assert ps[..|ps|] == ps;
  }

  lemma {:induction false} FullStaysFull(ps: seq<Pool>, k: nat)
    requires k <= |ps| && Boot.SLOTS <= |GeneralRanges(ps[..k])|
    ensures Boot.Fit(GeneralRanges(ps)) == Boot.Fit(GeneralRanges(ps[..k]))
    decreases |ps|
  {
    if k == |ps| {
      assert ps[..k] == ps;
    } else {
      var before := ps[..|ps| - 1];
      assert before[..k] == ps[..k];
      FullStaysFull(before, k);
    }
  }

  // A frame of usable memory above low memory.
  ghost predicate FrameUsable(regions: seq<Region>, f: nat) {
    && f % FRAME == 0 && RESERVED_LOW <= f
    && exists k | 0 <= k < |regions| ::
         regions[k].usable && regions[k].base <= f && f + FRAME <= regions[k].base + regions[k].len
  }

  lemma ListedFramesUsable(regions: seq<Region>, f: nat)
    requires Boot.RegionsDisjoint(regions) && RegionsAligned(regions)
    requires f in Pages(PooledRanges(Fit(PoolsOf(regions)))) || f in TableFrames(Fit(PoolsOf(regions)))
    ensures FrameUsable(regions, f)
  {
    var ps := Fit(PoolsOf(regions));
    RecordedPoolsGood(regions);
    AllPoolsDisjoint(regions, Largest(regions).0);
    hide Pages, PooledRanges, TableFrames, AllPools;
    var p: Pool;
    if f in Pages(PooledRanges(ps)) {
      p := GeneralFrameInPool(ps, f);
    } else {
      p := TableFrameInPool(ps, f);
    }
    assert p in PoolsOf(regions);
    var k :| 0 <= k < |regions| && PoolIn(p, regions[k]);
  }

  // How many requests of a schedule ask for one kind of frame.
  function Asked(schedule: seq<bool>, kind: bool): nat {
    if schedule == [] then 0
    else Asked(schedule[..|schedule| - 1], kind) + if schedule[|schedule| - 1] == kind then 1 else 0
  }

  // The first frames of a list, one for each request.
  function Handed(list: seq<nat>, schedule: seq<bool>, kind: bool): seq<nat> {
    FirstN(list, Asked(schedule, kind))
  }

  // Boots a memory map and runs both allocators in the order of the schedule: true asks for a
  // general frame, false for a page-table frame. All frames handed out are different, and they are the
  // first of each list, one for each request while there are any.
  method Interleave(regions: seq<Region>, schedule: seq<bool>) returns (frames: seq<nat>)
    requires Boot.RegionsDisjoint(regions) && RegionsAligned(regions)
    ensures Distinct(frames) && forall f | f in frames :: FrameUsable(regions, f)
    ensures var ps := Fit(PoolsOf(regions));
            GeneralRanges(ps) != [] ==>
              forall f :: f in frames <==> (f in Handed(Pages(PooledRanges(ps)), schedule, true)
                                            || f in Handed(TableFrames(ps), schedule, false))
  {
    var manager := new PoolManager();
    manager.Init(regions);
    var ps := manager.Recorded();
    RecordedPoolsGood(regions);
    var general := NewPooled(ps);
    frames := [];
    if general == null { return; }
    var tables := new PageTableAllocator();
    frames := RunBoth(ps, general, tables, schedule);
    forall f | f in frames ensures FrameUsable(regions, f) {
      ListedFramesUsable(regions, f);
    }
  }

  method RunBoth(ps: seq<Pool>, general: Boot.BootFrameAllocator, tables: PageTableAllocator, schedule: seq<bool>)
    returns (frames: seq<nat>)
    requires PoolsDisjoint(ps) && GoodPools(ps)
    requires general.Valid() && general.Ranges() == PooledRanges(ps) && general.handed == []
    requires tables.Valid(ps) && tables.handed == []
    modifies general, tables
    ensures Merged(ps, frames, general.handed, tables.handed) && general.Valid() && tables.Valid(ps)
    ensures forall f | f in frames :: f in Pages(PooledRanges(ps)) || f in TableFrames(ps)
    ensures general.handed == Handed(Pages(PooledRanges(ps)), schedule, true)
    ensures tables.handed == Handed(TableFrames(ps), schedule, false)
  {
    hide Pages, PooledRanges, TableFrames, PoolsDisjoint, GoodPools;
    frames := [];
    for k := 0 to |schedule|
      invariant general.Valid() && general.Ranges() == PooledRanges(ps) && tables.Valid(ps)
      invariant Merged(ps, frames, general.handed, tables.handed)
      invariant general.handed == Handed(Pages(PooledRanges(ps)), schedule[..k], true)
      invariant tables.handed == Handed(TableFrames(ps), schedule[..k], false)
    {
      ghost var given, tabled := general.handed, tables.handed;
      OneMoreAsked(Pages(PooledRanges(ps)), schedule, k, true);
      OneMoreAsked(TableFrames(ps), schedule, k, false);
      if schedule[k] {
        var r := general.AllocateFrame();
        if r.Some? {
          GeneralIsNew(ps, frames, given, tabled, r.value);
          frames := frames + [r.value];
        }
      } else {
        var r := tables.AllocPtFrame(ps);
        if r.Some? {
          TableIsNew(ps, frames, given, tabled, r.value);
          frames := frames + [r.value];
        }
      }
    }
    assert schedule[..|schedule|] == schedule;
  }

  // One more request takes the next frame of its list, if there is one, and leaves the other list alone.
  lemma OneMoreAsked(list: seq<nat>, schedule: seq<bool>, k: nat, kind: bool)
    requires k < |schedule|
    ensures var given, later := Handed(list, schedule[..k], kind), Handed(list, schedule[..k + 1], kind);
            && (schedule[k] != kind ==> later == given)
            && (schedule[k] == kind && given == list ==> later == list)
            && (schedule[k] == kind ==> forall f | given + [f] <= list :: later == given + [f])
  {
    assert schedule[..k + 1][..k] == schedule[..k];
  }

  // The frames handed out so far by both: distinct, and each list a prefix of its own.
  ghost predicate Merged(ps: seq<Pool>, frames: seq<nat>, given: seq<nat>, tabled: seq<nat>) {
    && Distinct(frames)
    && (forall f :: f in frames <==> f in given || f in tabled)
    && given <= Pages(PooledRanges(ps)) && tabled <= TableFrames(ps)
  }

  lemma PrefixNext(all: seq<nat>, prefix: seq<nat>, f: nat)
    requires Distinct(all) && prefix + [f] <= all
    ensures f !in prefix && f in all && forall g | g in prefix :: g in all
  {
    assert all[|prefix|] == f;
    forall g | g in prefix ensures g in all && g != f {
      var i :| 0 <= i < |prefix| && prefix[i] == g;
      assert all[i] == g;
    }
  }

  lemma GeneralIsNew(ps: seq<Pool>, frames: seq<nat>, given: seq<nat>, tabled: seq<nat>, f: nat)
    requires PoolsDisjoint(ps) && GoodPools(ps) && Merged(ps, frames, given, tabled)
    requires given + [f] <= Pages(PooledRanges(ps))
    ensures Merged(ps, frames + [f], given + [f], tabled)
  {
    hide Pages, PooledRanges, TableFrames;
    ListsDistinct(ps);
    PrefixNext(Pages(PooledRanges(ps)), given, f);
    forall g | g in tabled ensures g != f {
      assert g in TableFrames(ps);
      FramesApart(ps, f, g);
    }
    DistinctConcat(frames, [f]);
  }

  lemma TableIsNew(ps: seq<Pool>, frames: seq<nat>, given: seq<nat>, tabled: seq<nat>, g: nat)
    requires PoolsDisjoint(ps) && GoodPools(ps) && Merged(ps, frames, given, tabled)
    requires tabled + [g] <= TableFrames(ps)
    ensures Merged(ps, frames + [g], given, tabled + [g])
  {
    hide Pages, PooledRanges, TableFrames;
    ListsDistinct(ps);
    PrefixNext(TableFrames(ps), tabled, g);
    forall f | f in given ensures f != g {
      assert f in Pages(PooledRanges(ps));
      FramesApart(ps, f, g);
    }
    DistinctConcat(frames, [g]);
  }

  // --- The guards of `allocate_frame` under the pooled variant --------------------------------

  // Whether a range holds a frame that starts in a window.
  predicate Touches(r: Range, w: Range) {
    var p := AlignUp(if r.start <= w.start then w.start else r.start);
    p < w.end && p + FRAME <= r.end
  }

  lemma TouchesIff(r: Range, w: Range)
    ensures Touches(r, w) <==> exists f :: FrameIn(f, r.start, r.end) && Holds(w, f)
  {
    var lo := if r.start <= w.start then w.start else r.start;
    AlignUpBounds(lo);
    if Touches(r, w) {
      assert FrameIn(AlignUp(lo), r.start, r.end) && Holds(w, AlignUp(lo));
    }
    forall f | FrameIn(f, r.start, r.end) && Holds(w, f) ensures Touches(r, w) {
      NoFrameBelow(lo, f);
    }
  }

  const STACK_WINDOW := Range(0x37a_5000, 0x400_0000)

  // The pools are not carved around the guarded windows: some frame of the list makes
  // `allocate_frame` panic if and only if a range touches a guarded window.
  lemma PooledGuardsFireIff(ps: seq<Pool>)
    ensures (exists f :: f in Pages(PooledRanges(ps)) && Boot.GuardFires(f))
       <==> (exists r :: r in PooledRanges(ps) && (Touches(r, STACK_WINDOW) || Touches(r, Boot.FORBIDDEN)))
  {
    var rs := PooledRanges(ps);
    hide Pages, PooledRanges, Touches;
    if exists f :: f in Pages(rs) && Boot.GuardFires(f) {
      var f :| f in Pages(rs) && Boot.GuardFires(f);
      PagesExact(rs, f);
      var r :| r in rs && FrameIn(f, r.start, r.end);
      TouchesIff(r, STACK_WINDOW);
      TouchesIff(r, Boot.FORBIDDEN);
    }
    if exists r :: r in rs && (Touches(r, STACK_WINDOW) || Touches(r, Boot.FORBIDDEN)) {
      var r :| r in rs && (Touches(r, STACK_WINDOW) || Touches(r, Boot.FORBIDDEN));
      TouchesIff(r, STACK_WINDOW);
      TouchesIff(r, Boot.FORBIDDEN);
      var f :| FrameIn(f, r.start, r.end) && (Holds(STACK_WINDOW, f) || Holds(Boot.FORBIDDEN, f));
      PagesExact(rs, f);
    }
  }

  // A 64 MiB region at 1 MiB: its general frames start at 9 MiB, inside the forbidden window.
  lemma PooledGuardExample()
    ensures var r := Region(0x10_0000, 0x400_0000, true);
            PooledRanges(PoolsOf([r])) == [Range(0x90_0000, 0x410_0000)]
              && Touches(Range(0x90_0000, 0x410_0000), Boot.FORBIDDEN)
  {
    var r := Region(0x10_0000, 0x400_0000, true);
    assert [r][..0] == [];
    assert Largest([r][..0]) == (0, 0);
    assert Largest([r]) == (0, 0x400_0000);
    assert AllPools([r][..0], 0) == [];
    var ps := PoolsOf([r]);
    assert ps == RegionPools(r, true);
    assert ps[..2][..1] == ps[..1] && ps[..1][..0] == [];
    assert GeneralRanges(ps[..1]) == [] && GeneralRanges(ps[..2]) == [];
    assert GeneralRanges(ps) == [Range(0x90_0000, 0x410_0000)];
    assert SortBySize(GeneralRanges(ps)[..0]) == [];
  }
}
