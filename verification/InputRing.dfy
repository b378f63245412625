// The interrupt ring buffer with one producer and one consumer, interleaved at every load, lock
// and store (kernel/src/drivers/input.rs). Memory is sequentially consistent; `clear` is not
// called while either side is inside an operation.
module InputRing {
  import opened Options

  // Where the producer stands in `push`, and what it has loaded.
  datatype Producer<T> =
    | PIdle
    | LoadedHead(value: T, head: nat)
    | SawRoom(value: T, head: nat)
    | PLocked(value: T, head: nat)
    | Wrote(value: T, head: nat)
    | Stored

  // Where the consumer stands in `pop`.
  datatype Consumer<T> =
    | CIdle
    | CLocked
    | CHead(head: nat)
    | CTail(tail: nat)
    | Read(value: T, tail: nat)
    | Finished

  datatype Holder = ByProducer | ByConsumer

  // The buffer, and the values accepted and popped so far.
  datatype Ring<T> = Ring(buf: seq<T>, head: nat, tail: nat, lock: Option<Holder>,
                          producer: Producer<T>, consumer: Consumer<T>, accepted: seq<T>, popped: seq<T>)
  {
    function N(): nat { |buf| }
  }

  datatype Step<T> =
    | PushStart(value: T) | PushLoadTail | PushTryLock | PushWrite | PushStoreHead | PushUnlock
    | PopLock | PopLoadHead | PopLoadTail | PopRead | PopStoreTail | PopUnlock

  function Init<T>(buf: seq<T>): Ring<T> { Ring(buf, 0, 0, None, PIdle, CIdle, [], []) }

  // A consumer spins while the lock is taken; the producer gives up instead.
  predicate Enabled<T>(r: Ring<T>, step: Step<T>) {
    match step
    case PushStart(_) => r.producer.PIdle?
    case PushLoadTail => r.producer.LoadedHead?
    case PushTryLock => r.producer.SawRoom?
    case PushWrite => r.producer.PLocked? && r.producer.head < r.N()
    case PushStoreHead => r.producer.Wrote?
    case PushUnlock => r.producer.Stored?
    case PopLock => r.consumer.CIdle? && r.lock.None?
    case PopLoadHead => r.consumer.CLocked?
    case PopLoadTail => r.consumer.CHead?
    case PopRead => r.consumer.CTail? && r.consumer.tail < r.N()
    case PopStoreTail => r.consumer.Read?
    case PopUnlock => r.consumer.Finished?
  }

  function Next<T>(r: Ring<T>, step: Step<T>): Ring<T>
    requires Enabled(r, step) && 1 <= r.N()
  {
    match step
    case PushStart(v) => r.(producer := LoadedHead(v, r.head))
    case PushLoadTail =>
      if (r.producer.head + 1) % r.N() == r.tail then r.(producer := PIdle)
      else r.(producer := SawRoom(r.producer.value, r.producer.head))
    case PushTryLock =>
      if r.lock.Some? then r.(producer := PIdle)
      else r.(lock := Some(ByProducer), producer := PLocked(r.producer.value, r.producer.head))
    case PushWrite =>
      r.(buf := r.buf[r.producer.head := r.producer.value], producer := Wrote(r.producer.value, r.producer.head))
    case PushStoreHead =>
      r.(head := (r.producer.head + 1) % r.N(), accepted := r.accepted + [r.producer.value], producer := Stored)
    case PushUnlock => r.(lock := None, producer := PIdle)
    case PopLock => r.(lock := Some(ByConsumer), consumer := CLocked)
    case PopLoadHead => r.(consumer := CHead(r.head))
    case PopLoadTail =>
      if r.consumer.head == r.tail then r.(consumer := Finished) else r.(consumer := CTail(r.tail))
    case PopRead => r.(consumer := Read(r.buf[r.consumer.tail], r.consumer.tail))
    case PopStoreTail =>
      r.(tail := (r.consumer.tail + 1) % r.N(), popped := r.popped + [r.consumer.value], consumer := Finished)
    case PopUnlock => r.(lock := None, consumer := CIdle)
  }

  // --- Arithmetic on positions ----------------------------------------------------------------

  // The slot of the k-th value ever accepted.
  function Slot(k: nat, n: nat): nat
    requires 1 <= n
  {
    if k < n then k else Slot(k - n, n)
  }

  lemma {:induction false} SlotInRange(k: nat, n: nat)
    requires 1 <= n
    ensures Slot(k, n) < n
  {
    if n <= k { SlotInRange(k - n, n); }
  }

  lemma {:induction false} SlotNext(k: nat, n: nat)
    requires 1 <= n
    ensures Slot(k + 1, n) == if Slot(k, n) + 1 == n then 0 else Slot(k, n) + 1
  {
    if n <= k { SlotNext(k - n, n); }
  }

  // The source's increment of a position.
  lemma SlotStep(k: nat, n: nat)
    requires 1 <= n
    ensures Slot(k, n) < n && (Slot(k, n) + 1) % n == Slot(k + 1, n)
  {
    SlotInRange(k, n);
    SlotNext(k, n);
  }

  // The distance between two slots less than n apart.
  lemma {:induction false} SlotDistance(a: nat, b: nat, n: nat)
    requires 1 <= n && a <= b < a + n
    ensures Slot(a, n) < n && Slot(b, n) < n
    ensures b - a == if Slot(a, n) <= Slot(b, n) then Slot(b, n) - Slot(a, n) else n - Slot(a, n) + Slot(b, n)
  {
    if n <= a {
      SlotDistance(a - n, b - n, n);
    } else if n <= b {
      SlotInRange(b - n, n);
    }
  }

  // --- Invariant ------------------------------------------------------------------------------

  ghost predicate QueueSound<T>(r: Ring<T>) {
    && 1 <= r.N()
    && |r.popped| <= |r.accepted| < |r.popped| + r.N()
    && r.head == Slot(|r.accepted|, r.N()) && r.tail == Slot(|r.popped|, r.N())
    && r.popped == r.accepted[..|r.popped|]
    && (forall k | |r.popped| <= k < |r.accepted| :: Slot(k, r.N()) < r.N() && r.buf[Slot(k, r.N())] == r.accepted[k])
  }

  // The producer has room for its value until it stores `head`.
  ghost predicate ProducerSound<T>(r: Ring<T>) {
    && (r.producer.LoadedHead? ==> r.producer.head == r.head)
    && (r.producer.SawRoom? || r.producer.PLocked? || r.producer.Wrote? ==>
          r.producer.head == r.head && |r.accepted| + 1 < |r.popped| + r.N())
    && (r.producer.Wrote? ==> r.head < r.N() && r.buf[r.head] == r.producer.value)
    && (r.producer.PLocked? || r.producer.Wrote? || r.producer.Stored? <==> r.lock == Some(ByProducer))
  }

  ghost predicate ConsumerSound<T>(r: Ring<T>) {
    && (r.consumer.CHead? ==> r.consumer.head == r.head)
    && (r.consumer.CTail? ==> r.consumer.tail == r.tail && |r.popped| < |r.accepted|)
    && (r.consumer.Read? ==>
          r.consumer.tail == r.tail && |r.popped| < |r.accepted| && r.consumer.value == r.accepted[|r.popped|])
    && (r.consumer.CIdle? <==> r.lock != Some(ByConsumer))
  }

  ghost predicate Sound<T>(r: Ring<T>) {
    QueueSound(r) && ProducerSound(r) && ConsumerSound(r)
  }

  lemma InitSound<T>(buf: seq<T>)
    requires 1 <= |buf|
    ensures Sound(Init(buf))
  {
  }

  // --- Steps ----------------------------------------------------------------------------------

  // The producer's full test is exact for the tail it sees.
  lemma PushLoadTailSound<T>(r: Ring<T>)
    requires Sound(r) && r.producer.LoadedHead?
    ensures Sound(Next(r, PushLoadTail))
    ensures Next(r, PushLoadTail).producer.PIdle? <==> |r.accepted| + 1 == |r.popped| + r.N()
  {
    hide Slot;
    SlotStep(|r.accepted|, r.N());
    if |r.accepted| + 1 < |r.popped| + r.N() {
      SlotDistance(|r.popped|, |r.accepted| + 1, r.N());
    } else {
      SlotDistance(|r.popped|, |r.popped|, r.N());
      SlotShift(|r.popped|, r.N());
    }
  }

  lemma SlotShift(k: nat, n: nat)
    requires 1 <= n
    ensures Slot(k + n, n) == Slot(k, n)
  {
  }

  // The write goes to a slot that holds no unread value.
  lemma PushWriteSound<T>(r: Ring<T>)
    requires Sound(r) && r.producer.PLocked? && r.producer.head < r.N()
    ensures Sound(Next(r, PushWrite))
    ensures forall k | |r.popped| <= k < |r.accepted| :: Slot(k, r.N()) != r.producer.head
  {
    hide Slot;
    forall k | |r.popped| <= k < |r.accepted| ensures Slot(k, r.N()) != r.producer.head {
      SlotDistance(k, |r.accepted|, r.N());
    }
  }

  lemma PushStoreHeadSound<T>(r: Ring<T>)
    requires Sound(r) && r.producer.Wrote?
    ensures Sound(Next(r, PushStoreHead))
  {
    hide Slot;
    SlotStep(|r.accepted|, r.N());
    var r' := Next(r, PushStoreHead);
    assert r'.accepted[..|r.popped|] == r.accepted[..|r.popped|];
  }

  // The consumer finds the buffer empty exactly when nothing is unread.
  lemma PopLoadTailSound<T>(r: Ring<T>)
    requires Sound(r) && r.consumer.CHead?
    ensures Sound(Next(r, PopLoadTail))
    ensures Next(r, PopLoadTail).consumer.Finished? <==> |r.popped| == |r.accepted|
  {
    hide Slot;
    SlotDistance(|r.popped|, |r.accepted|, r.N());
  }

  lemma PopStoreTailSound<T>(r: Ring<T>)
    requires Sound(r) && r.consumer.Read?
    ensures Sound(Next(r, PopStoreTail))
  {
    hide Slot;
    SlotStep(|r.popped|, r.N());
    assert r.accepted[..|r.popped| + 1] == r.accepted[..|r.popped|] + [r.accepted[|r.popped|]];
  }

  lemma StepSound<T>(r: Ring<T>, step: Step<T>)
    requires Sound(r) && Enabled(r, step)
    ensures Sound(Next(r, step)) && Next(r, step).N() == r.N()
  {
    hide Slot;
    match step
    case PushLoadTail => PushLoadTailSound(r);
    case PushWrite => PushWriteSound(r);
    case PushStoreHead => PushStoreHeadSound(r);
    case PopLoadTail => PopLoadTailSound(r);
    case PopStoreTail => PopStoreTailSound(r);
    case PushStart(_) =>
    case PushTryLock =>
    case PushUnlock =>
    case PopLock =>
    case PopLoadHead =>
    case PopRead =>
    case PopUnlock =>
  }

  // --- Runs -----------------------------------------------------------------------------------

  ghost predicate IsRun<T>(r: Ring<T>, steps: seq<Step<T>>)
    requires 1 <= r.N()
    decreases |steps|
  {
    steps == [] || (Enabled(r, steps[0]) && IsRun(Next(r, steps[0]), steps[1..]))
  }

  function After<T>(r: Ring<T>, steps: seq<Step<T>>): Ring<T>
    requires 1 <= r.N() && IsRun(r, steps)
    decreases |steps|
  {
    if steps == [] then r else After(Next(r, steps[0]), steps[1..])
  }

  lemma {:induction false} RunSound<T>(r: Ring<T>, steps: seq<Step<T>>)
    requires 1 <= r.N() && Sound(r) && IsRun(r, steps)
    ensures Sound(After(r, steps)) && After(r, steps).N() == r.N()
    decreases |steps|
  {
    hide Sound;
    if steps != [] {
      StepSound(r, steps[0]);
      RunSound(Next(r, steps[0]), steps[1..]);
    }
  }

  // The source's `len`.
  function Len(head: nat, tail: nat, n: nat): int {
    if tail <= head then head - tail else n - tail + head
  }

  // Under any interleaving the popped values are a prefix of the accepted ones, in order, at most
  // N - 1 values are held, and `len` and `is_empty` tell how many.
  lemma FirstInFirstOut<T>(buf: seq<T>, steps: seq<Step<T>>)
    requires 1 <= |buf| && IsRun(Init(buf), steps)
    ensures var r := After(Init(buf), steps);
            && r.popped <= r.accepted
            && |r.accepted| - |r.popped| <= |buf| - 1
            && Len(r.head, r.tail, |buf|) == |r.accepted| - |r.popped|
            && (r.head == r.tail <==> r.popped == r.accepted)
  {
    InitSound(buf);
    RunSound(Init(buf), steps);
    var r := After(Init(buf), steps);
    SlotDistance(|r.popped|, |r.accepted|, |buf|);
  }

  // --- When a push fails ----------------------------------------------------------------------

  // The step ends a push without storing its value.
  predicate Refuses<T>(r: Ring<T>, step: Step<T>)
    requires Enabled(r, step) && 1 <= r.N()
  {
    !r.producer.PIdle? && !r.producer.Stored? && Next(r, step).producer.PIdle?
  }

  // A push fails if and only if it finds N - 1 unread values or meets a pop under way: a full
  // buffer is not the only reason.
  lemma PushFailsIff<T>(r: Ring<T>, step: Step<T>)
    requires Sound(r) && Enabled(r, step)
    ensures Refuses(r, step)
       <==> ((step.PushLoadTail? && |r.accepted| - |r.popped| == r.N() - 1)
             || (step.PushTryLock? && !r.consumer.CIdle?))
  {
    if step.PushLoadTail? {
      PushLoadTailSound(r);
    } else if step.PushTryLock? {
      assert r.lock.None? || r.lock.value.ByProducer? || r.lock.value.ByConsumer?;
    }
  }

  // A push that meets a pop of an empty buffer fails.
  lemma PushFailsOnEmpty<T>(buf: seq<T>, v: T)
    requires 2 <= |buf|
    ensures var steps := [PopLock, PushStart(v), PushLoadTail];
            IsRun(Init(buf), steps) &&
            var r := After(Init(buf), steps);
            1 <= r.N() && r.accepted == r.popped == [] && Enabled(r, PushTryLock) && Refuses(r, PushTryLock)
  {
    var r0 := Init(buf);
    var r1 := Next(r0, PopLock);
    var r2 := Next(r1, PushStart(v));
    var r3 := Next(r2, PushLoadTail);
    var last := [PushLoadTail];
    var later := [PushStart(v), PushLoadTail];
    var steps := [PopLock, PushStart(v), PushLoadTail];
    assert steps[1..] == later && later[1..] == last && last[1..] == [];
    assert IsRun(r3, []) && After(r3, []) == r3;
    assert IsRun(r2, last) && After(r2, last) == r3;
    assert IsRun(r1, later) && After(r1, later) == r3;
  }

  // --- One call alone -------------------------------------------------------------------------

  function PushSteps<T>(v: T): seq<Step<T>> {
    [PushStart(v), PushLoadTail, PushTryLock, PushWrite, PushStoreHead, PushUnlock]
  }

  function PopSteps<T>(): seq<Step<T>> {
    [PopLock, PopLoadHead, PopLoadTail, PopRead, PopStoreTail, PopUnlock]
  }

  lemma NoStep<T>(r: Ring<T>, steps: seq<Step<T>>)
    requires 1 <= r.N()
    ensures IsRun(r, steps[|steps|..]) && After(r, steps[|steps|..]) == r
  {
  }

  lemma OneStep<T>(r: Ring<T>, steps: seq<Step<T>>, k: nat)
    requires 1 <= r.N() && k < |steps| && Enabled(r, steps[k]) && IsRun(Next(r, steps[k]), steps[k + 1..])
    ensures IsRun(r, steps[k..]) && After(r, steps[k..]) == After(Next(r, steps[k]), steps[k + 1..])
  {
    assert steps[k..][1..] == steps[k + 1..];
  }

  // A push that meets no pop and finds room appends its value and leaves the popped values alone.
  lemma PushAlone<T>(r: Ring<T>, v: T)
    requires Sound(r) && r.producer.PIdle? && r.consumer.CIdle? && |r.accepted| - |r.popped| < r.N() - 1
    ensures IsRun(r, PushSteps(v)) &&
            var r' := After(r, PushSteps(v));
            r'.accepted == r.accepted + [v] && r'.popped == r.popped && r'.producer.PIdle? && r'.consumer.CIdle?
  {
    hide Sound, Slot, IsRun, After;
    var steps := PushSteps(v);
    Unlocked(r);
    var r1 := Next(r, PushStart(v));
    StepSound(r, PushStart(v));
    PushLoadTailSound(r1);
    var r2 := Next(r1, PushLoadTail);
    var r3 := Next(r2, PushTryLock);
    StepSound(r2, PushTryLock);
    ProducerInside(r3);
    var r4 := Next(r3, PushWrite);
    var r5 := Next(r4, PushStoreHead);
    var r6 := Next(r5, PushUnlock);
    NoStep(r6, steps);
    OneStep(r5, steps, 5);
    OneStep(r4, steps, 4);
    OneStep(r3, steps, 3);
    OneStep(r2, steps, 2);
    OneStep(r1, steps, 1);
    OneStep(r, steps, 0);
    assert steps[0..] == steps;
  }

  lemma Unlocked<T>(r: Ring<T>)
    requires Sound(r) && r.producer.PIdle? && r.consumer.CIdle?
    ensures r.lock.None? && 1 <= r.N()
  {
    match r.lock
    case None =>
    case Some(ByProducer) =>
    case Some(ByConsumer) =>
  }

  lemma ProducerInside<T>(r: Ring<T>)
    requires Sound(r) && r.producer.PLocked?
    ensures r.producer.head < r.N()
  {
    SlotInRange(|r.accepted|, r.N());
  }

  lemma PopEnds<T>(r: Ring<T>)
    requires 1 <= r.N() && r.consumer.Read? && r.producer.PIdle?
    ensures var rest := PopSteps<T>()[4..];
            IsRun(r, rest) &&
            var r' := After(r, rest);
            && r'.popped == r.popped + [r.consumer.value] && r'.accepted == r.accepted
            && r'.producer.PIdle? && r'.consumer.CIdle?
  {
    hide IsRun, After;
    var steps := PopSteps<T>();
    var r1 := Next(r, PopStoreTail);
    var r2 := Next(r1, PopUnlock);
    NoStep(r2, steps);
    OneStep(r1, steps, 5);
    OneStep(r, steps, 4);
  }

  // A pop that meets no push takes the oldest unread value.
  lemma PopAlone<T>(r: Ring<T>)
    requires Sound(r) && r.producer.PIdle? && r.consumer.CIdle? && |r.popped| < |r.accepted|
    ensures IsRun(r, PopSteps()) &&
            var r' := After(r, PopSteps());
            && r'.popped == r.popped + [r.accepted[|r.popped|]] && r'.accepted == r.accepted
            && r'.producer.PIdle? && r'.consumer.CIdle?
  {
    hide Sound, Slot, IsRun, After;
    var steps := PopSteps<T>();
    Unlocked(r);
    var r1 := Next(r, PopLock);
    StepSound(r, PopLock);
    var r2 := Next(r1, PopLoadHead);
    StepSound(r1, PopLoadHead);
    PopLoadTailSound(r2);
    var r3 := Next(r2, PopLoadTail);
    ConsumerInside(r3);
    StepSound(r3, PopRead);
    var r4 := Next(r3, PopRead);
    ReadsOldest(r4);
    PopEnds(r4);
    OneStep(r3, steps, 3);
    OneStep(r2, steps, 2);
    OneStep(r1, steps, 1);
    OneStep(r, steps, 0);
    assert steps[0..] == steps;
  }

  lemma ReadsOldest<T>(r: Ring<T>)
    requires Sound(r) && r.consumer.Read?
    ensures |r.popped| < |r.accepted| && r.consumer.value == r.accepted[|r.popped|]
  {
  }

  lemma ConsumerInside<T>(r: Ring<T>)
    requires Sound(r) && r.consumer.CTail?
    ensures r.consumer.tail < r.N()
  {
    SlotInRange(|r.popped|, r.N());
  }
}
