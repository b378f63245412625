// The set-once runtime cell under any interleaving of any number of threads
// (thing_abi/src/lib.rs). Memory is sequentially consistent.
module RuntimeCell {
  import opened Options

  datatype CellState = Uninit | Initing | Inited

  // Where a thread stands: a setter that won the exchange and then wrote the value, or a getter
  // that saw the cell initialised.
  datatype Thread<R> = Idle | Won(runtime: R) | Written(runtime: R) | SawInited

  // What calls have returned.
  datatype Result<R> = SetOk(runtime: R) | SetErr(runtime: R) | Got(seen: Option<R>)

  datatype Cell<R> = Cell(state: CellState, value: Option<R>, threads: map<nat, Thread<R>>, results: seq<Result<R>>)

  datatype Step<R> = SetExchange(thread: nat, runtime: R) | SetWrite(thread: nat) | SetStore(thread: nat)
                   | GetLoad(thread: nat) | GetRead(thread: nat)

  function Init<R>(): Cell<R> { Cell(Uninit, None, map[], []) }

  function ThreadOf<R>(c: Cell<R>, t: nat): Thread<R> { if t in c.threads then c.threads[t] else Idle }

  predicate Enabled<R>(c: Cell<R>, step: Step<R>) {
    match step
    case SetExchange(t, _) => ThreadOf(c, t).Idle?
    case SetWrite(t) => ThreadOf(c, t).Won?
    case SetStore(t) => ThreadOf(c, t).Written?
    case GetLoad(t) => ThreadOf(c, t).Idle?
    case GetRead(t) => ThreadOf(c, t).SawInited?
  }

  function Next<R>(c: Cell<R>, step: Step<R>): Cell<R>
    requires Enabled(c, step)
  {
    match step
    case SetExchange(t, r) =>
      if c.state == Uninit then c.(state := Initing, threads := c.threads[t := Won(r)])
      else c.(results := c.results + [SetErr(r)])
    case SetWrite(t) => c.(value := Some(c.threads[t].runtime),
                           threads := c.threads[t := Written(c.threads[t].runtime)])
    case SetStore(t) =>
      c.(state := Inited, threads := c.threads[t := Idle], results := c.results + [SetOk(c.threads[t].runtime)])
    case GetLoad(t) =>
      if c.state != Inited then c.(results := c.results + [Got(None)]) else c.(threads := c.threads[t := SawInited])
    case GetRead(t) => c.(threads := c.threads[t := Idle], results := c.results + [Got(c.value)])
  }

  predicate Setting<R>(th: Thread<R>) { th.Won? || th.Written? }

  ghost predicate Sound<R(!new)>(c: Cell<R>) {
    && (c.state == Uninit ==> c.value == None)
       // One thread at a time is setting, and only while the cell is being initialised.
    && (forall t | t in c.threads && Setting(c.threads[t]) :: c.state == Initing)
    && (forall t, u | t in c.threads && u in c.threads && Setting(c.threads[t]) && Setting(c.threads[u]) :: t == u)
    && (forall t | t in c.threads && c.threads[t].Written? :: c.value == Some(c.threads[t].runtime))
    && (forall t | t in c.threads && c.threads[t].SawInited? :: c.state == Inited)
       // An initialised cell holds the runtime of the one successful set.
    && (c.state == Inited ==> c.value.Some? && exists i | 0 <= i < |c.results| :: c.results[i] == SetOk(c.value.value))
    && (c.state != Inited ==> forall i | 0 <= i < |c.results| :: !c.results[i].SetOk?)
    && (forall i | 0 <= i < |c.results| && c.results[i].SetOk? :: c.value == Some(c.results[i].runtime))
    && (forall i, j | 0 <= i < j < |c.results| :: !(c.results[i].SetOk? && c.results[j].SetOk?))
    && (forall i | 0 <= i < |c.results| && c.results[i].Got? && c.results[i].seen.Some? ::
          c.state == Inited && c.results[i].seen == c.value)
  }

  lemma StepSound<R(!new)>(c: Cell<R>, step: Step<R>)
    requires Sound(c) && Enabled(c, step)
    ensures Sound(Next(c, step))
    ensures c.state == Inited ==> Next(c, step).state == Inited && Next(c, step).value == c.value
  {
    var c' := Next(c, step);
    if c.state == Inited {
      var i :| 0 <= i < |c.results| && c.results[i] == SetOk(c.value.value);
      assert c'.results[i] == SetOk(c.value.value);
    }
    match step
    case SetExchange(t, r) =>
    case SetWrite(t) =>
    case SetStore(t) =>
      assert c'.results[|c.results|] == SetOk(c.threads[t].runtime);
    case GetLoad(t) =>
    case GetRead(t) =>
  }

  // --- Runs -----------------------------------------------------------------------------------

  ghost predicate IsRun<R(!new)>(c: Cell<R>, steps: seq<Step<R>>)
    decreases |steps|
  {
    steps == [] || (Enabled(c, steps[0]) && IsRun(Next(c, steps[0]), steps[1..]))
  }

  function After<R(!new)>(c: Cell<R>, steps: seq<Step<R>>): Cell<R>
    requires IsRun(c, steps)
    decreases |steps|
  {
    if steps == [] then c else After(Next(c, steps[0]), steps[1..])
  }

  lemma {:induction false} RunSound<R(!new)>(c: Cell<R>, steps: seq<Step<R>>)
    requires Sound(c) && IsRun(c, steps)
    ensures Sound(After(c, steps)) && c.results <= After(c, steps).results
    decreases |steps|
  {
    hide Sound;
    if steps != [] {
      StepSound(c, steps[0]);
      RunSound(Next(c, steps[0]), steps[1..]);
    }
  }

  // Whatever the interleaving, at most one set succeeds, and a get that returns a runtime returns
  // the one of the successful set.
  lemma SetOnce<R(!new)>(steps: seq<Step<R>>, i: nat, j: nat)
    requires IsRun(Init(), steps)
    requires i < |After(Init(), steps).results| && j < |After(Init(), steps).results|
    ensures var rs := After(Init(), steps).results;
            && (rs[i].SetOk? && rs[j].SetOk? ==> i == j)
            && (rs[i].SetOk? && rs[j].Got? && rs[j].seen.Some? ==> rs[j].seen == Some(rs[i].runtime))
            && (rs[j].Got? && rs[j].seen.Some? ==> exists k | 0 <= k < |rs| :: rs[k] == SetOk(rs[j].seen.value))
  {
    RunSound(Init(), steps);
  }

  // Once the cell is initialised every later get returns its runtime and every later set fails.
  lemma {:induction false} InitialisedForGood<R(!new)>(c: Cell<R>, steps: seq<Step<R>>, i: nat)
    requires Sound(c) && c.state == Inited && IsRun(c, steps)
    requires |c.results| <= i < |After(c, steps).results|
    ensures After(c, steps).state == Inited && After(c, steps).value == c.value
    ensures var r := After(c, steps).results[i];
            (r.Got? && r.seen == c.value && r.seen.Some?) || r.SetErr?
    decreases |steps|
  {
    var c' := Next(c, steps[0]);
    StepSound(c, steps[0]);
    RunSound(c', steps[1..]);
    if |c'.results| <= i {
      InitialisedForGood(c', steps[1..], i);
    } else {
      assert After(c, steps).results[i] == c'.results[i];
      StaysInitialised(c', steps[1..]);
    }
  }

  lemma {:induction false} StaysInitialised<R(!new)>(c: Cell<R>, steps: seq<Step<R>>)
    requires Sound(c) && c.state == Inited && IsRun(c, steps)
    ensures After(c, steps).state == Inited && After(c, steps).value == c.value
    decreases |steps|
  {
    if steps != [] {
      StepSound(c, steps[0]);
      StaysInitialised(Next(c, steps[0]), steps[1..]);
    }
  }

  // --- One call alone -------------------------------------------------------------------------

  lemma OneStep<R(!new)>(c: Cell<R>, step: Step<R>, rest: seq<Step<R>>)
    requires Enabled(c, step) && IsRun(Next(c, step), rest)
    ensures IsRun(c, [step] + rest) && After(c, [step] + rest) == After(Next(c, step), rest)
  {
    assert ([step] + rest)[1..] == rest;
  }

  // A set of an empty cell that is not interrupted succeeds, and the next get returns its runtime.
  lemma SetThenGet<R(!new)>(c: Cell<R>, t: nat, r: R)
    requires c.state == Uninit && ThreadOf(c, t).Idle?
    ensures var steps := [SetExchange(t, r), SetWrite(t), SetStore(t), GetLoad(t), GetRead(t)];
            IsRun(c, steps) && After(c, steps).results == c.results + [SetOk(r), Got(Some(r))]
  {
    var c1 := Next(c, SetExchange(t, r));
    var c2 := Next(c1, SetWrite(t));
    var c3 := Next(c2, SetStore(t));
    var c4 := Next(c3, GetLoad(t));
    var c5 := Next(c4, GetRead(t));
    assert IsRun(c5, []) && After(c5, []) == c5;
    OneStep(c4, GetRead(t), []);
    OneStep(c3, GetLoad(t), [GetRead(t)]);
    OneStep(c2, SetStore(t), [GetLoad(t), GetRead(t)]);
    OneStep(c1, SetWrite(t), [SetStore(t), GetLoad(t), GetRead(t)]);
    OneStep(c, SetExchange(t, r), [SetWrite(t), SetStore(t), GetLoad(t), GetRead(t)]);
  }
}
