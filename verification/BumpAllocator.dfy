// The lock-free bump allocator under any interleaving of any number of threads
// (kernel/src/mm/bump_allocator.rs). A thread's steps are the load of `next` and the
// compare-exchange; everything between them is local.
module BumpAllocator {
  import opened Arithmetic

  const WORD := 8
  const USIZE := 0x1_0000_0000_0000_0000

  datatype Block = Block(addr: nat, size: nat, align: nat)

  // A thread inside `alloc` knows its layout and the value of `next` it last saw.
  datatype Thread = Idle | Trying(align: nat, size: nat, current: nat)

  datatype State = State(start: nat, size: nat, next: nat, threads: map<nat, Thread>, blocks: seq<Block>)

  datatype Step = Load(thread: nat, align: nat, size: nat) | CompareExchange(thread: nat)

  // The saturating end of the heap window.
  function HeapEnd(s: State): nat { if s.start + s.size < USIZE then s.start + s.size else USIZE - 1 }

  // Clearing the low bits of x below a power of two m: the largest multiple of m up to x.
  function RoundDown(x: nat, m: nat): (r: nat)
    requires 1 <= m
    ensures r <= x < r + m && Multiple(r, m)
  {
    if x < m then 0 else m + RoundDown(x - m, m)
  }

  predicate Multiple(r: nat, m: nat) {
    r == 0 || (1 <= m <= r && Multiple(r - m, m))
  }

  // `(current + align - 1) & !(align - 1)` on 64-bit words.
  function Aligned(current: nat, align: nat): nat
    requires 1 <= align
  {
    RoundDown((current + align - 1) % USIZE, align)
  }

  function ThreadOf(s: State, t: nat): Thread { if t in s.threads then s.threads[t] else Idle }

  // A compare-exchange by a thread that saw `current`: null on overflow, a panic when the block
  // does not fit, a block when `next` is still `current`, and otherwise another turn.
  function Exchange(s: State, t: nat, align: nat, size: nat, current: nat): State
    requires 1 <= align
  {
    var aligned := Aligned(current, align);
    var newNext := aligned + size;
    if USIZE <= newNext || HeapEnd(s) < newNext then s.(threads := s.threads[t := Idle])
    else if s.next == current then
      s.(next := newNext, threads := s.threads[t := Idle], blocks := s.blocks + [Block(aligned, size, align)])
    else s.(threads := s.threads[t := Trying(align, size, s.next)])
  }

  predicate Enabled(s: State, step: Step) {
    match step
    case Load(t, align, _) => ThreadOf(s, t).Idle? && 1 <= align < USIZE
    case CompareExchange(t) => ThreadOf(s, t).Trying? && 1 <= ThreadOf(s, t).align
  }

  function Next(s: State, step: Step): State
    requires Enabled(s, step)
  {
    match step
    case Load(t, align, size) =>
      s.(threads := s.threads[t := Trying(Max(align, WORD), Max(size, WORD), s.next)])
    case CompareExchange(t) =>
      Exchange(s, t, s.threads[t].align, s.threads[t].size, s.threads[t].current)
  }

  function Init(start: nat, size: nat): State { State(start, size, start, map[], []) }

  // --- Invariant ------------------------------------------------------------------------------

  // A block is aligned and lies between the start of the heap and `next`.
  ghost predicate BlockSound(s: State, b: Block) {
    && Multiple(b.addr, b.align)
    && s.start <= b.addr && b.addr + b.size <= s.next
  }

  predicate Apart(a: Block, b: Block) { a.addr + a.size <= b.addr || b.addr + b.size <= a.addr }

  predicate TryingSound(th: Thread)
    requires th.Trying?
  {
    1 <= th.align < USIZE && 1 <= th.size && th.current < USIZE
  }

  ghost predicate Sound(s: State) {
    && s.start <= s.next <= HeapEnd(s)
    && (forall t | t in s.threads && s.threads[t].Trying? :: TryingSound(s.threads[t]))
    && (forall b | b in s.blocks :: BlockSound(s, b))
    && (forall i, j | 0 <= i < j < |s.blocks| :: Apart(s.blocks[i], s.blocks[j]))
  }

  // The alignment arithmetic does not wrap around.
  predicate NoWrap(current: nat, align: nat) { current + align <= USIZE }

  lemma AlignedBounds(current: nat, align: nat)
    requires 1 <= align && NoWrap(current, align)
    ensures current <= Aligned(current, align) && Multiple(Aligned(current, align), align)
  {
  }

  // When the arithmetic wraps, the block would start at address 0.
  lemma WrapsToZero(current: nat, align: nat)
    requires 1 <= align <= USIZE && current < USIZE && !NoWrap(current, align)
    ensures Aligned(current, align) == 0
  {
    assert (current + align - 1) % USIZE == current + align - 1 - USIZE;
  }

  // --- Steps ----------------------------------------------------------------------------------

  // A successful exchange keeps every block inside the heap if and only if the alignment
  // arithmetic did not wrap around. (The heap does not start at address 0.)
  lemma ExchangeSoundIff(s: State, t: nat, align: nat, size: nat)
    requires Sound(s) && 1 <= align <= USIZE && 0 < s.start && s.next < USIZE && 1 <= size
    requires var n := Aligned(s.next, align) + size; n < USIZE && n <= HeapEnd(s)
    ensures Sound(Exchange(s, t, align, size, s.next)) <==> NoWrap(s.next, align)
  {
    var s', b := Exchange(s, t, align, size, s.next), Block(Aligned(s.next, align), size, align);
    assert s'.blocks == s.blocks + [b] && b in s'.blocks;
    if NoWrap(s.next, align) {
      AlignedBounds(s.next, align);
      forall c | c in s.blocks ensures BlockSound(s', c) && Apart(c, b) {
        assert BlockSound(s, c);
      }
    } else {
      WrapsToZero(s.next, align);
      assert !BlockSound(s', b);
    }
  }

  // The step is an exchange that hands out a block.
  predicate HandsOut(s: State, step: Step)
    requires Enabled(s, step)
  {
    step.CompareExchange? &&
    var th := s.threads[step.thread];
    s.next == th.current && Aligned(th.current, th.align) + th.size <= HeapEnd(s)
  }

  // The step does not hand out a block whose alignment arithmetic wrapped.
  predicate Safe(s: State, step: Step)
    requires Enabled(s, step)
  {
    HandsOut(s, step) ==> NoWrap(s.next, s.threads[step.thread].align)
  }

  // A step that hands out nothing keeps the heap as it is.
  lemma OtherStepSound(s: State, step: Step)
    requires Sound(s) && Enabled(s, step) && !HandsOut(s, step)
    ensures Sound(Next(s, step)) && Next(s, step).next == s.next && Next(s, step).blocks == s.blocks
  {
    var s' := Next(s, step);
    forall b | b in s'.blocks ensures BlockSound(s', b) {
      assert BlockSound(s, b);
    }
  }

  // A step of any thread keeps the invariant if and only if it is safe.
  lemma StepSoundIff(s: State, step: Step)
    requires Sound(s) && Enabled(s, step) && 0 < s.start
    ensures Sound(Next(s, step)) <==> Safe(s, step)
    ensures s.blocks <= Next(s, step).blocks && (Safe(s, step) ==> s.next <= Next(s, step).next)
    ensures Next(s, step).start == s.start && Next(s, step).size == s.size
  {
    if HandsOut(s, step) {
      var th := s.threads[step.thread];
      hide Sound, Aligned;
      assert TryingSound(th) && s.next <= HeapEnd(s) by { ThreadSound(s, step.thread); }
      ExchangeSoundIff(s, step.thread, th.align, th.size);
      if NoWrap(s.next, th.align) { AlignedBounds(s.next, th.align); }
    } else {
      OtherStepSound(s, step);
    }
  }

  lemma ThreadSound(s: State, t: nat)
    requires Sound(s) && t in s.threads && s.threads[t].Trying?
    ensures TryingSound(s.threads[t]) && s.start <= s.next <= HeapEnd(s)
  {
  }

  // --- Runs -----------------------------------------------------------------------------------

  // A run is a sequence of enabled steps of any threads.
  ghost predicate IsRun(s: State, steps: seq<Step>)
    decreases |steps|
  {
    steps == [] || (Enabled(s, steps[0]) && IsRun(Next(s, steps[0]), steps[1..]))
  }

  function After(s: State, steps: seq<Step>): State
    requires IsRun(s, steps)
    decreases |steps|
  {
    if steps == [] then s else After(Next(s, steps[0]), steps[1..])
  }

  // Every step of the run is safe.
  ghost predicate SafeRun(s: State, steps: seq<Step>)
    requires IsRun(s, steps)
    decreases |steps|
  {
    steps == [] || (Safe(s, steps[0]) && SafeRun(Next(s, steps[0]), steps[1..]))
  }

  // The invariant holds after every step of the run.
  ghost predicate AlwaysSound(s: State, steps: seq<Step>)
    requires IsRun(s, steps)
    decreases |steps|
  {
    Sound(s) && (steps == [] || AlwaysSound(Next(s, steps[0]), steps[1..]))
  }

  // A run of any threads keeps the invariant throughout if and only if no block it hands out came
  // from wrapped arithmetic.
  lemma {:induction false} RunSoundIff(s: State, steps: seq<Step>)
    requires Sound(s) && 0 < s.start && IsRun(s, steps)
    ensures AlwaysSound(s, steps) <==> SafeRun(s, steps)
    decreases |steps|
  {
    if steps != [] {
      hide Sound, Safe;
      StepSoundIff(s, steps[0]);
      if Safe(s, steps[0]) {
        RunSoundIff(Next(s, steps[0]), steps[1..]);
      } else {
        NeverSound(Next(s, steps[0]), steps[1..]);
      }
    }
  }

  lemma NeverSound(s: State, steps: seq<Step>)
    requires IsRun(s, steps) && !Sound(s)
    ensures !AlwaysSound(s, steps)
  {
  }

  lemma {:induction false} RunSound(s: State, steps: seq<Step>)
    requires Sound(s) && 0 < s.start && IsRun(s, steps) && SafeRun(s, steps)
    ensures Sound(After(s, steps)) && s.next <= After(s, steps).next && s.blocks <= After(s, steps).blocks
    ensures After(s, steps).start == s.start && After(s, steps).size == s.size
    decreases |steps|
  {
    hide Sound, Safe, HeapEnd;
    if steps != [] {
      StepSoundIff(s, steps[0]);
      RunSound(Next(s, steps[0]), steps[1..]);
    }
  }

  // Whatever the interleaving, the blocks handed out since `init` are aligned, inside the heap
  // window and pairwise disjoint.
  lemma BlocksDisjoint(start: nat, size: nat, steps: seq<Step>)
    requires 0 < start < USIZE && IsRun(Init(start, size), steps) && SafeRun(Init(start, size), steps)
    ensures var s := After(Init(start, size), steps);
            && (forall b | b in s.blocks ::
                  Multiple(b.addr, b.align) && start <= b.addr && b.addr + b.size <= HeapEnd(s))
            && (forall i, j | 0 <= i < j < |s.blocks| :: Apart(s.blocks[i], s.blocks[j]))
  {
    RunSound(Init(start, size), steps);
    var s := After(Init(start, size), steps);
    assert forall b | b in s.blocks :: BlockSound(s, b);
  }

  // --- When runs are safe -----------------------------------------------------------------------

  // A request whose alignment cannot wrap anywhere in the heap window.
  predicate RequestFits(start: nat, size: nat, step: Step) {
    step.Load? ==> HeapEnd(Init(start, size)) + Max(step.align, WORD) <= USIZE
  }

  ghost predicate AlignsFit(s: State) {
    forall t | t in s.threads && s.threads[t].Trying? :: HeapEnd(s) + s.threads[t].align <= USIZE
  }

  // If every request of a run fits, the run is safe, whatever the interleaving.
  lemma {:induction false} FittingRequestsAreSafe(s: State, steps: seq<Step>)
    requires Sound(s) && 0 < s.start && AlignsFit(s) && IsRun(s, steps)
    requires forall k | 0 <= k < |steps| :: RequestFits(s.start, s.size, steps[k])
    ensures SafeRun(s, steps)
    decreases |steps|
  {
    if steps != [] {
      StepSoundIff(s, steps[0]);
      var s' := Next(s, steps[0]);
      assert RequestFits(s.start, s.size, steps[0]);
      hide Sound;
      assert s.next <= HeapEnd(s) by { NextInHeap(s); }
      assert AlignsFit(s');
      FittingRequestsAreSafe(s', steps[1..]);
    }
  }

  lemma NextInHeap(s: State)
    requires Sound(s)
    ensures s.next <= HeapEnd(s)
  {
  }

  const HEAP_START := 0xFFFF_A000_0000_0000
  const HEAP_SIZE := 32 * 1024 * 1024

  // The kernel's heap window admits every alignment up to 64 TiB.
  lemma KernelHeapFits(t: nat, align: nat, size: nat)
    requires align <= 0x4000_0000_0000
    ensures RequestFits(HEAP_START, HEAP_SIZE, Load(t, align, size))
  {
  }

  // On the kernel's heap a request aligned to 128 TiB gets address 0, and `next` falls to 8.
  lemma WrappedRun(steps: seq<Step>)
    requires steps == [Load(0, 0x8000_0000_0000, 8), CompareExchange(0)]
    ensures var s := Init(HEAP_START, HEAP_SIZE);
            IsRun(s, steps) && !SafeRun(s, steps)
            && After(s, steps).blocks == [Block(0, 8, 0x8000_0000_0000)] && After(s, steps).next == 8
  {
    var s0 := Init(HEAP_START, HEAP_SIZE);
    var s1 := Next(s0, steps[0]);
    WrapsToZero(HEAP_START, 0x8000_0000_0000);
    var s2 := Next(s1, steps[1]);
    assert steps[1..] == [CompareExchange(0)] && steps[1..][1..] == [];
    assert IsRun(s2, []) && IsRun(s1, steps[1..]);
    assert !Safe(s1, steps[1]);
    assert After(s1, steps[1..]) == After(s2, []) == s2;
  }

  // --- One request alone ----------------------------------------------------------------------

  lemma {:induction false} MultiplesApart(a: nat, r: nat, m: nat)
    requires Multiple(a, m) && Multiple(r, m) && a < r
    ensures a + m <= r
  {
    if a != 0 { MultiplesApart(a - m, r - m, m); }
  }

  // Some aligned address from `next` on has room for a block.
  ghost predicate HasRoom(s: State, m: nat, n: nat) {
    exists a: nat | s.next <= a && Multiple(a, m) :: a + n <= HeapEnd(s)
  }

  lemma FirstFit(s: State, m: nat, n: nat)
    requires 1 <= m && NoWrap(s.next, m)
    ensures var first := Aligned(s.next, m);
            && s.next <= first && Multiple(first, m)
            && (forall a: nat | s.next <= a && Multiple(a, m) :: first <= a)
            && (HasRoom(s, m, n) <==> first + n <= HeapEnd(s))
  {
    var first := Aligned(s.next, m);
    AlignedBounds(s.next, m);
    assert first < s.next + m;
    forall a: nat | s.next <= a && Multiple(a, m) ensures first <= a {
      if a < first { MultiplesApart(a, first, m); }
    }
  }

  // A request no other thread interrupts is given the first aligned address from `next` on, with at least
  // a word of space, if that fits in the heap; otherwise nothing changes.
  lemma AloneIsFirstFit(s: State, t: nat, align: nat, size: nat)
    requires Sound(s) && ThreadOf(s, t).Idle? && 1 <= align < USIZE && NoWrap(s.next, Max(align, WORD))
    ensures Enabled(s, Load(t, align, size)) &&
            var s' := Next(s, Load(t, align, size));
            Enabled(s', CompareExchange(t)) &&
            var s'' := Next(s', CompareExchange(t));
            && ThreadOf(s'', t).Idle?
            && (s''.blocks != s.blocks <==> HasRoom(s, Max(align, WORD), Max(size, WORD)))
            && (s''.blocks == s.blocks ==> s''.next == s.next)
            && (s''.blocks != s.blocks ==>
                  && |s''.blocks| == |s.blocks| + 1
                  && var b := s''.blocks[|s.blocks|];
                  && s''.blocks == s.blocks + [b]
                  && b.size == Max(size, WORD) && s.next <= b.addr && Multiple(b.addr, Max(align, WORD))
                  && s''.next == b.addr + b.size
                  && forall a: nat | s.next <= a && Multiple(a, Max(align, WORD)) :: b.addr <= a)
  {
    var m, n := Max(align, WORD), Max(size, WORD);
    var first := Aligned(s.next, m);
    FirstFit(s, m, n);
    hide Multiple, Aligned, Sound, HasRoom;
    var s' := Next(s, Load(t, align, size));
    assert s'.threads[t] == Trying(m, n, s.next);
    var s'' := Next(s', CompareExchange(t));
    if first + n <= HeapEnd(s) {
      assert s''.blocks == s.blocks + [Block(first, n, m)];
      assert s''.blocks[|s.blocks|] == Block(first, n, m);
    }
  }
}
