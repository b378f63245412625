// Role pools: the largest region gives the page-table and stack pools, everything else is general
// frames; page tables and general frames have their own allocators (kernel/src/mm/pools.rs,
// kernel/src/mm/allocator.rs).
module Pools {
  import opened Options
  import opened Arithmetic
  import opened Frames
  import Boot = BootAllocator

  datatype Role = PageTables | KernelStacks | GeneralFrames | Dma | Reserved | Unknown

  datatype Pool = Pool(start: nat, end: nat, role: Role)
  {
    function Range(): Range { Frames.Range.Range(start, end) }
  }

  const MAX_POOLS := 64
  const PT_SIZE := 4 * 1024 * 1024
  const STACK_SIZE := 4 * 1024 * 1024
  const RESERVED_LOW := 0x10_0000

  // --- Which pools a memory map gives ---------------------------------------------------------

  // The pools of [start, end); the largest region is carved if it is big enough.
  function CarvePools(start: nat, end: nat, largest: bool): seq<Pool> {
    if largest && start + PT_SIZE + STACK_SIZE + 4096 <= end then
      [Pool(start, start + PT_SIZE, PageTables),
       Pool(start + PT_SIZE, start + PT_SIZE + STACK_SIZE, KernelStacks),
       Pool(start + PT_SIZE + STACK_SIZE, end, GeneralFrames)]
    else [Pool(start, end, GeneralFrames)]
  }

  function RegionPools(r: Region, largest: bool): seq<Pool> {
    var end := r.base + r.len;
    if !r.usable then []
    else if r.base < RESERVED_LOW then
      if end <= RESERVED_LOW then [] else CarvePools(RESERVED_LOW, end, largest)
    else CarvePools(r.base, end, largest)
  }

  function AllPools(regions: seq<Region>, largest: nat): seq<Pool> {
    if regions == [] then []
    else
      var n := |regions| - 1;
      AllPools(regions[..n], largest) + RegionPools(regions[n], n == largest)
  }

  // The first usable region of greatest length, and that length.
  function Largest(regions: seq<Region>): (nat, nat) {
    if regions == [] then (0, 0)
    else
      var n := |regions| - 1;
      var (i, len) := Largest(regions[..n]);
      if regions[n].usable && len < regions[n].len then (n, regions[n].len) else (i, len)
  }

  lemma {:induction false} LargestIsLargest(regions: seq<Region>)
    ensures var (i, len) := Largest(regions);
            && (forall k | 0 <= k < |regions| && regions[k].usable :: regions[k].len <= len)
            && (0 < len ==> i < |regions| && regions[i].usable && regions[i].len == len
                            && forall k | 0 <= k < i && regions[k].usable :: regions[k].len < len)
  {
    if regions != [] {
      LargestIsLargest(regions[..|regions| - 1]);
    }
  }

  function PoolsOf(regions: seq<Region>): seq<Pool> { AllPools(regions, Largest(regions).0) }

  function Fit(ps: seq<Pool>): seq<Pool> { FirstN(ps, MAX_POOLS) }

  // --- Disjointness ---------------------------------------------------------------------------

  ghost predicate PoolsDisjoint(ps: seq<Pool>) {
    forall i, j | 0 <= i < j < |ps| :: Disjoint(ps[i].Range(), ps[j].Range())
  }

  // The pool lies in the region, above low memory.
  predicate PoolIn(p: Pool, r: Region) {
    r.usable && r.base <= p.start <= p.end <= r.base + r.len && RESERVED_LOW <= p.start
  }

  lemma RegionPoolsFit(r: Region, largest: bool)
    ensures PoolsDisjoint(RegionPools(r, largest))
    ensures forall p | p in RegionPools(r, largest) :: PoolIn(p, r)
  {
  }

  ghost predicate PoolsWithin(ps: seq<Pool>, regions: seq<Region>) {
    forall p | p in ps :: exists k | 0 <= k < |regions| :: PoolIn(p, regions[k])
  }

  lemma PoolsConcat(a: seq<Pool>, b: seq<Pool>)
    requires PoolsDisjoint(a) && PoolsDisjoint(b) && forall p, q | p in a && q in b :: Disjoint(p.Range(), q.Range())
    ensures PoolsDisjoint(a + b)
  {
    forall i, j | 0 <= i < j < |a + b| ensures Disjoint((a + b)[i].Range(), (a + b)[j].Range()) {
      if i < |a| && |a| <= j {
        assert a[i] in a && b[j - |a|] in b;
      }
    }
  }

  // With disjoint usable regions, pools of all roles are pairwise disjoint, each inside a usable
  // region and above low memory.
  lemma {:induction false} AllPoolsDisjoint(regions: seq<Region>, largest: nat)
    requires Boot.RegionsDisjoint(regions)
    ensures PoolsDisjoint(AllPools(regions, largest)) && PoolsWithin(AllPools(regions, largest), regions)
  {
    hide RegionPools;
    if regions != [] {
      var n := |regions| - 1;
      var before, r := regions[..n], regions[n];
      var a, b := AllPools(before, largest), RegionPools(r, n == largest);
      AllPoolsDisjoint(before, largest);
      RegionPoolsFit(r, n == largest);
      forall p, q | p in a && q in b ensures Disjoint(p.Range(), q.Range()) {
        var k :| 0 <= k < n && PoolIn(p, before[k]);
        assert before[k] == regions[k];
      }
      PoolsConcat(a, b);
      forall p | p in a + b ensures exists k | 0 <= k < |regions| :: PoolIn(p, regions[k]) {
        if p in a {
          var k :| 0 <= k < n && PoolIn(p, before[k]);
          assert PoolIn(p, regions[k]);
        } else {
          assert PoolIn(p, regions[n]);
        }
      }
    }
  }

  // --- The page-table pool --------------------------------------------------------------------

  ghost predicate RegionsAligned(regions: seq<Region>) {
    forall r | r in regions && r.usable :: r.base % FRAME == 0 && r.len % FRAME == 0
  }

  // A page-table pool is 4 MiB, frame aligned and above low memory.
  predicate GoodTablePool(p: Pool) {
    p.start % FRAME == 0 && p.end == p.start + PT_SIZE && RESERVED_LOW <= p.start
  }

  lemma RegionTablePool(r: Region, largest: bool)
    requires r.usable ==> r.base % FRAME == 0 && r.len % FRAME == 0
    ensures forall p | p in RegionPools(r, largest) && p.role == PageTables :: largest && GoodTablePool(p)
    ensures forall i, j | 0 <= i < j < |RegionPools(r, largest)| ::
              !(RegionPools(r, largest)[i].role == RegionPools(r, largest)[j].role == PageTables)
  {
  }

  ghost predicate AtMostOneTablePool(ps: seq<Pool>) {
    forall i, j | 0 <= i < j < |ps| :: !(ps[i].role == ps[j].role == PageTables)
  }

  lemma {:induction false} OneTablePool(regions: seq<Region>, largest: nat)
    requires RegionsAligned(regions)
    ensures AtMostOneTablePool(AllPools(regions, largest))
    ensures forall p | p in AllPools(regions, largest) && p.role == PageTables ::
              largest < |regions| && GoodTablePool(p)
  {
    hide RegionPools;
    if regions != [] {
      var n := |regions| - 1;
      OneTablePool(regions[..n], largest);
      assert regions[n] in regions;
      RegionTablePool(regions[n], n == largest);
    }
  }

  // Whether a region has room for the page-table pool, the stack pool and a frame above low memory.
  predicate Roomy(r: Region) {
    r.usable && Max(r.base, RESERVED_LOW) + PT_SIZE + STACK_SIZE + 4096 <= r.base + r.len
  }

  // The table pool is the start of the region above low memory, and the stack pool follows it.
  predicate TableFirst(p: Pool, r: Region, ps: seq<Pool>) {
    && p.start == Max(r.base, RESERVED_LOW) && p.end == p.start + PT_SIZE
    && Pool(p.end, p.end + STACK_SIZE, KernelStacks) in ps
  }

  lemma RegionTableIff(r: Region, largest: bool)
    ensures (exists p | p in RegionPools(r, largest) :: p.role == PageTables) <==> largest && Roomy(r)
    ensures forall p | p in RegionPools(r, largest) && p.role == PageTables :: TableFirst(p, r, RegionPools(r, largest))
  {
    var ps := RegionPools(r, largest);
    if largest && Roomy(r) {
      assert ps[0] in ps && ps[0].role == PageTables && ps[1] in ps;
    }
  }

  // The page-table pool exists if and only if the largest region has room, and then it is its start
  // above low memory, followed by the stack pool.
  lemma {:induction false} TablePoolIff(regions: seq<Region>, largest: nat)
    ensures (exists p | p in AllPools(regions, largest) :: p.role == PageTables)
       <==> (largest < |regions| && Roomy(regions[largest]))
    ensures forall p | p in AllPools(regions, largest) && p.role == PageTables ::
              largest < |regions| && TableFirst(p, regions[largest], AllPools(regions, largest))
  {
    if regions != [] {
      var n := |regions| - 1;
      var a, b := AllPools(regions[..n], largest), RegionPools(regions[n], n == largest);
      TablePoolIff(regions[..n], largest);
      RegionTableIff(regions[n], n == largest);
      LastRegionPools(regions, largest);
      hide RegionPools, AllPools, Roomy;
      if n == largest && Roomy(regions[n]) {
        var p :| p in b && p.role == PageTables;
        assert p in a + b;
      }
      if exists p | p in a :: p.role == PageTables {
        var p :| p in a && p.role == PageTables;
        assert p in a + b;
      }
    }
  }

  // The pools of all roles together are exactly the usable memory above low memory.
  lemma {:induction false} PoolsCover(regions: seq<Region>, largest: nat, x: nat)
    ensures (exists p | p in AllPools(regions, largest) :: Holds(p.Range(), x))
       <==> (RESERVED_LOW <= x && exists r | r in regions :: r.usable && r.base <= x < r.base + r.len)
  {
    if regions != [] {
      var n := |regions| - 1;
      var before, r := regions[..n], regions[n];
      var a, b := AllPools(before, largest), RegionPools(r, n == largest);
      PoolsCover(before, largest, x);
      RegionPoolsCover(r, n == largest, x);
      hide RegionPools, AllPools;
      assert AllPools(regions, largest) == a + b by { LastRegionPools(regions, largest); }
      assert regions == before + [r];
      assert (exists p: Pool | p in a + b :: Holds(p.Range(), x))
        <==> ((exists p | p in a :: Holds(p.Range(), x)) || exists p | p in b :: Holds(p.Range(), x)) by {
        assert forall p: Pool :: p in a + b <==> p in a || p in b;
      }
    }
  }

  lemma LastRegionPools(regions: seq<Region>, largest: nat)
    requires regions != []
    ensures var n := |regions| - 1;
            AllPools(regions, largest) == AllPools(regions[..n], largest) + RegionPools(regions[n], n == largest)
  {
  }

  lemma RegionPoolsCover(r: Region, largest: bool, x: nat)
    ensures (exists p | p in RegionPools(r, largest) :: Holds(p.Range(), x))
       <==> (RESERVED_LOW <= x && r.usable && r.base <= x < r.base + r.len)
  {
    var ps, start := RegionPools(r, largest), Max(r.base, RESERVED_LOW);
    if r.usable && start <= x < r.base + r.len {
      if largest && Roomy(r) {
        assert ps[0] in ps && ps[1] in ps && ps[2] in ps;
        assert Holds(ps[0].Range(), x) || Holds(ps[1].Range(), x) || Holds(ps[2].Range(), x);
      } else {
        assert ps[0] in ps && Holds(ps[0].Range(), x);
      }
    }
  }

  lemma NoPools(largest: nat)
    ensures Fit(AllPools([], largest)) == []
  {
  }

  // Recording the pools of one more region.
  lemma OneMoreRegion(regions: seq<Region>, k: nat, largest: nat)
    requires k < |regions|
    ensures Fit(Fit(AllPools(regions[..k], largest)) + RegionPools(regions[k], k == largest))
         == Fit(AllPools(regions[..k + 1], largest))
  {
    LastRegionPools(regions[..k + 1], largest);
    assert regions[..k + 1][..k] == regions[..k];
    hide RegionPools, AllPools;
    FirstNConcat(AllPools(regions[..k], largest), RegionPools(regions[k], k == largest), MAX_POOLS);
  }

  lemma FitThree(a: seq<Pool>, p: Pool, q: Pool, r: Pool)
    ensures Fit(Fit(Fit(a + [p]) + [q]) + [r]) == Fit(a + [p, q, r])
  {
    FirstNConcat(a + [p], [q], MAX_POOLS);
    FirstNConcat(a + [p] + [q], [r], MAX_POOLS);
    assert a + [p] + [q] + [r] == a + [p, q, r];
  }

  class PoolManager {
    const pools: array<Pool>
    var count: nat
    var initialized: bool

    ghost predicate Valid()
      reads this
    {
      pools.Length == MAX_POOLS && count <= MAX_POOLS && (!initialized ==> count == 0)
    }

    function Recorded(): seq<Pool>
      requires Valid()
      reads this, pools
    {
      pools[..count]
    }

    constructor ()
      ensures Valid() && !initialized && fresh(pools)
    {
      pools := new Pool[MAX_POOLS](_ => Pool(0, 0, Unknown));
      count := 0;
      initialized := false;
    }

    method AddPool(p: Pool)
      requires Valid() && initialized
      modifies `count, pools
      ensures Valid() && Recorded() == Fit(old(Recorded()) + [p])
    {
      if count < MAX_POOLS {
        pools[count] := p;
        count := count + 1;
      }
    }

    method PickLargest(regions: seq<Region>) returns (index: nat)
      ensures index == Largest(regions).0
    {
      index := 0;
      var len := 0;
      for k := 0 to |regions|
        invariant (index, len) == Largest(regions[..k])
      {
        assert regions[..k + 1][..k] == regions[..k];
        if regions[k].usable && len < regions[k].len {
          len := regions[k].len;
          index := k;
        }
      }
      assert regions[..|regions|] == regions;
    }

    // The pools of one region: nothing below 1 MiB, and the largest region carved if it is big
    // enough.
    method AddRegion(r: Region, largest: bool)
      requires Valid() && initialized
      modifies `count, pools
      ensures Valid() && Recorded() == Fit(old(Recorded()) + RegionPools(r, largest))
    {
      ghost var before := Recorded();
      assert before + [] == before;
      if !r.usable { return; }
      var start, end := r.base, r.base + r.len;
      if start < RESERVED_LOW {
        start := RESERVED_LOW;
        if end <= start { return; }
      }
      if largest {
        if end - start < PT_SIZE + STACK_SIZE + 4096 {
          AddPool(Pool(start, end, GeneralFrames));
          return;
        }
        var ptEnd := start + PT_SIZE;
        var stackEnd := ptEnd + STACK_SIZE;
        FitThree(before, Pool(start, ptEnd, PageTables), Pool(ptEnd, stackEnd, KernelStacks),
                 Pool(stackEnd, end, GeneralFrames));
        hide Fit;
        AddPool(Pool(start, ptEnd, PageTables));
        AddPool(Pool(ptEnd, stackEnd, KernelStacks));
        AddPool(Pool(stackEnd, end, GeneralFrames));
      } else {
        AddPool(Pool(start, end, GeneralFrames));
      }
    }

    // Records the pools of a memory map, once.
    method Init(regions: seq<Region>)
      requires Valid()
      modifies this, pools
      ensures Valid() && initialized
      ensures old(initialized) ==> Recorded() == old(Recorded())
      ensures !old(initialized) ==> Recorded() == Fit(PoolsOf(regions))
    {
      if initialized { return; }
      initialized := true;
      assert Recorded() == [];
      var largest := PickLargest(regions);
      AddRegions(regions, largest);
    }

    method AddRegions(regions: seq<Region>, largest: nat)
      requires Valid() && initialized && Recorded() == []
      modifies `count, pools
      ensures Valid() && Recorded() == Fit(AllPools(regions, largest))
    {
      hide RegionPools, Fit, AllPools;
      NoPools(largest);
      assert regions[..0] == [];
      for k := 0 to |regions|
        invariant Valid() && initialized && Recorded() == Fit(AllPools(regions[..k], largest))
      {
        OneMoreRegion(regions, k, largest);
        AddRegion(regions[k], k == largest);
      }
      assert regions[..|regions|] == regions;
    }
  }

  // --- Page-table frames ----------------------------------------------------------------------

  function TablePool(ps: seq<Pool>): Option<Pool> {
    if ps == [] then None
    else if ps[0].role == PageTables then Some(ps[0])
    else TablePool(ps[1..])
  }

  // All frames of the page-table pool.
  function TableFrames(ps: seq<Pool>): seq<nat> {
    var p := TablePool(ps);
    if p.None? then [] else PagesFrom(p.value.start, p.value.end)
  }

  // The pools a page-table allocator can work with.
  ghost predicate GoodPools(ps: seq<Pool>) {
    AtMostOneTablePool(ps) && forall p | p in ps && p.role == PageTables :: GoodTablePool(p)
  }

  lemma {:induction false} TablePoolFound(ps: seq<Pool>)
    requires AtMostOneTablePool(ps)
    ensures forall p | p in ps && p.role == PageTables :: TablePool(ps) == Some(p)
    ensures TablePool(ps).Some? ==> TablePool(ps).value in ps && TablePool(ps).value.role == PageTables
  {
    if ps != [] {
      TablePoolFound(ps[1..]);
    }
  }

  class PageTableAllocator {
    var next: nat
    ghost var handed: seq<nat>

    // What was handed out is the start of the pool's frames, and `next` leads to the rest.
    ghost predicate Valid(ps: seq<Pool>)
      reads this
    {
      || (next == 0 && handed == [])
      || (&& TablePool(ps).Some? && next % FRAME == 0
          && TablePool(ps).value.start <= next <= TablePool(ps).value.end
          && handed + PagesFrom(next, TablePool(ps).value.end) == TableFrames(ps))
    }

    constructor ()
      ensures next == 0 && handed == [] && forall ps :: Valid(ps)
    {
      next := 0;
      handed := [];
    }

    // The start of the page-table pool, or 0 if there is none.
    static method FirstTableStart(ps: seq<Pool>) returns (start: nat)
      ensures start == if TablePool(ps).Some? then TablePool(ps).value.start else 0
    {
      for k := 0 to |ps|
        invariant TablePool(ps) == TablePool(ps[k..])
      {
        if ps[k].role == PageTables { return ps[k].start; }
        assert ps[k..][1..] == ps[k + 1..];
      }
      start := 0;
    }

    // Whether an address lies in a page-table pool.
    static method InTablePool(ps: seq<Pool>, a: nat) returns (found: bool)
      ensures found <==> exists p | p in ps :: p.role == PageTables && Holds(p.Range(), a)
    {
      for k := 0 to |ps|
        invariant forall m | 0 <= m < k :: !(ps[m].role == PageTables && Holds(ps[m].Range(), a))
      {
        if ps[k].role == PageTables && ps[k].start <= a < ps[k].end { return true; }
      }
      found := false;
    }

    // The next frame of the page-table pool, or None exactly when there is none left.
    method AllocPtFrame(ps: seq<Pool>) returns (r: Option<nat>)
      requires GoodPools(ps) && Valid(ps)
      modifies this
      ensures Valid(ps)
      ensures r.Some? ==> handed == old(handed) + [r.value]
      ensures r.None? ==> handed == old(handed) == TableFrames(ps)
    {
      hide TablePool, PagesFrom, AtMostOneTablePool;
      TablePoolFound(ps);
      if next == 0 {
        next := FirstTableStart(ps);
        if next == 0 { return None; }
      }
      ghost var pool := TablePool(ps).value;
      var found := InTablePool(ps, next);
      if !found {
        NoFrameLeft(next, pool.end, handed);
        return None;
      }
      WholeFrameLeft(pool, next, handed);
      r := Some(next);
      handed := handed + [next];
      next := next + FRAME;
    }
  }

  // An aligned address inside an aligned pool has a whole frame left.
  lemma WholeFrameLeft(p: Pool, next: nat, handed: seq<nat>)
    requires GoodTablePool(p) && next % FRAME == 0 && p.start <= next < p.end
    ensures next + FRAME <= p.end && handed + PagesFrom(next, p.end) == handed + [next] + PagesFrom(next + FRAME, p.end)
  {
    AlignUpBounds(next);
    assert PagesFrom(next, p.end) == [next] + PagesFrom(next + FRAME, p.end);
  }

  lemma NoFrameLeft(next: nat, end: nat, handed: seq<nat>)
    requires end <= next
    ensures handed + PagesFrom(next, end) == handed
  {
    AlignUpBounds(next);
  }
}
