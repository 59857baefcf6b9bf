/** The whole of rate_check as a step machine: any number of workers probe, claim and evict on the slot
    table, one atomic access at a time, and run the CAS loop of RateSteps on the slot they got. */
module RateClaims {
  import opened RateBucket
  import opened RateTable
  import RateSteps

  /** The oldest stale slot of the window so far, its age and the key it held when probed. */
  datatype Chosen = Nobody | Best(index: nat, age: nat, key: nat)

  /** Where a worker stands in its call for key h; `now` is its first clock sample, q the probe
      offset. While it is Spending, its place in the CAS loop is in the slot's cell. */
  datatype Local =
    | Idle
    | Loading(h: nat, now: nat, q: nat, best: Chosen)
    | Claiming(h: nat, now: nat, q: nat, best: Chosen)
    | Rereading(h: nat, now: nat, q: nat, best: Chosen)
    | Aging(h: nat, now: nat, q: nat, best: Chosen, key: nat)
    | Evicting(h: nat, index: nat, key: nat)
    | Clearing(h: nat, index: nat)
    | Spending(h: nat, index: nat)

  /** A CAS that allowed a call for key h, with its clock sample. */
  datatype Grant = Grant(h: nat, at: nat)

  /** Each slot has its key and its cell, the CAS machine on its state word. `allowed` lists the
      allowing CASes of all slots. */
  datatype State = State(keys: seq<nat>, cells: seq<RateSteps.State>, clock: nat, locals: seq<Local>,
                         allowed: seq<Grant>)

  datatype Step = Tick(ms: nat) | Begin(w: nat, h: nat) | Load(w: nat) | Claim(w: nat) | Reread(w: nat)
                | Age(w: nat) | Evict(w: nat) | Clear(w: nat) | Spend(w: nat)

  predicate Sized(s: State) {
    && |s.keys| == |s.cells| >= MIN_SLOTS
    && forall i :: 0 <= i < |s.cells| ==> |s.cells[i].locals| == |s.locals| && s.cells[i].clock == s.clock
  }

  predicate Enabled(s: State, step: Step) {
    step.Tick? ||
    (&& step.w < |s.locals|
     && match step
        case Begin(w, h) => h > 0 && s.locals[w].Idle?
        case Load(w) => s.locals[w].Loading?
        case Claim(w) => s.locals[w].Claiming?
        case Reread(w) => s.locals[w].Rereading?
        case Age(w) => s.locals[w].Aging?
        case Evict(w) => s.locals[w].Evicting? && s.locals[w].index < |s.keys|
        case Clear(w) => s.locals[w].Clearing? && s.locals[w].index < |s.keys|
        case Spend(w) => s.locals[w].Spending? && s.locals[w].index < |s.keys|)
  }

  /** After a non-zero key was read: it is ours, or its bucket's age comes next. */
  function Examine(h: nat, now: nat, q: nat, best: Chosen, key: nat, i: nat): Local {
    if key == h then Spending(h, i) else Aging(h, now, q, best, key)
  }

  /** The age of slot i as the probe loop reckons it: 0 for an unwritten word, and for an age that is
      not positive as a signed 32-bit number. */
  function AgeOf(s: State, now: nat, i: nat): nat
    requires i < |s.cells|
  {
    var word := RateSteps.Word(s.cells[i].bucket);
    var age := Elapsed(now, Stamp(word));
    if word == 0 || age >= SIGN_BIT then 0 else age
  }

  /** The candidate after one more bucket, strictly older than the floor and than the last one. */
  function Better(best: Chosen, p: Params, age: nat, i: nat, key: nat): Chosen {
    if age > (if best.Best? then best.age else p.periodMs) then Best(i, age, key) else best
  }

  /** The next probe, or after the last one the eviction, or an overflow. */
  function Further(h: nat, now: nat, q: nat, best: Chosen): Local {
    if q + 1 < PROBE_MAX then Loading(h, now, q + 1, best)
    else if best.Best? then Evicting(h, best.index, best.key)
    else Idle
  }

  /** The next access of worker w in the CAS loop of a cell. */
  function Inner(c: RateSteps.State, w: nat): (step: RateSteps.Step)
    requires w < |c.locals|
    ensures RateSteps.Enabled(c, step) && !step.Tick?
  {
    match c.locals[w]
    case Idle => RateSteps.Begin(w)
    case AtLoad(_, _) => RateSteps.Load(w)
    case AtClock(_, _, _, _) => RateSteps.Sample(w)
    case AtCas(_, _, _, _, _) => RateSteps.Cas(w)
    case Starved(_) => RateSteps.Leave(w)
  }

  predicate Grants(c: RateSteps.State, w: nat, p: Params)
    requires w < |c.locals| && p.periodMs > 0
  {
    c.locals[w].AtCas? && RateSteps.CasWins(c, w) && RateSteps.Spent(c.locals[w].seen, c.locals[w].now, p).allow
  }

  function Ticked(cells: seq<RateSteps.State>, ms: nat): (r: seq<RateSteps.State>)
    ensures |r| == |cells|
    ensures forall i :: 0 <= i < |r| ==> r[i] == cells[i].(clock := cells[i].clock + ms)
  {
    seq(|cells|, i requires 0 <= i < |cells| => cells[i].(clock := cells[i].clock + ms))
  }

  /** The last moment whose stamp is 0. */
  function Zero(clock: nat): (z: nat)
    ensures z <= clock < z + WRAP && z % WRAP == 0
  {
    RateSteps.ModPlus(0, clock / WRAP);
    clock / WRAP * WRAP
  }

  /** A cell whose word worker w set back to 0: its grants are counted afresh. */
  function Unwritten(c: RateSteps.State, w: nat): RateSteps.State {
    var z := Zero(c.clock);
    c.(bucket := RateSteps.Bucket(z, 0), last := z, log := c.log + [w], granted := [])
  }

  /** The word moves its stamp only where a call earned something, as RateSteps.Written says; the store
      after an eviction is a plain one. */
  function Apply(s: State, step: Step, p: Params): State
    requires Sized(s) && Enabled(s, step) && p.periodMs > 0
  {
    if step.Tick? then s.(clock := s.clock + step.ms, cells := Ticked(s.cells, step.ms))
    else
      var w := step.w;
      var l := s.locals[w];
      match step
      case Begin(_, h) => s.(locals := s.locals[w := Loading(h, s.clock, 0, Nobody)])
      case Load(_) =>
        var i := Slot(l.h, |s.keys|, l.q);
        var k := s.keys[i];
        s.(locals := s.locals[w := if k == 0 then Claiming(l.h, l.now, l.q, l.best)
                                   else Examine(l.h, l.now, l.q, l.best, k, i)])
      case Claim(_) =>
        var i := Slot(l.h, |s.keys|, l.q);
        if s.keys[i] == 0 then s.(keys := s.keys[i := l.h], locals := s.locals[w := Spending(l.h, i)])
        else s.(locals := s.locals[w := Rereading(l.h, l.now, l.q, l.best)])
      case Reread(_) =>
        var i := Slot(l.h, |s.keys|, l.q);
        s.(locals := s.locals[w := Examine(l.h, l.now, l.q, l.best, s.keys[i], i)])
      case Age(_) =>
        var i := Slot(l.h, |s.keys|, l.q);
        s.(locals := s.locals[w := Further(l.h, l.now, l.q, Better(l.best, p, AgeOf(s, l.now, i), i, l.key))])
      case Evict(_) =>
        if s.keys[l.index] == l.key then
          s.(keys := s.keys[l.index := l.h], locals := s.locals[w := Clearing(l.h, l.index)])
        else s.(locals := s.locals[w := Idle])
      case Clear(_) =>
        var c := s.cells[l.index];
        s.(cells := s.cells[l.index := Unwritten(c, w)], locals := s.locals[w := Spending(l.h, l.index)])
      case Spend(_) =>
        var c := s.cells[l.index];
        var c' := RateSteps.Apply(c, Inner(c, w), p);
        s.(cells := s.cells[l.index := c'],
           locals := s.locals[w := if c'.locals[w].Idle? then Idle else l],
           allowed := if Grants(c, w, p) then s.allowed + [Grant(l.h, c.locals[w].now)] else s.allowed)
  }

  lemma StepKeepsSized(s: State, step: Step, p: Params)
    requires Sized(s) && Enabled(s, step) && p.periodMs > 0
    ensures Sized(Apply(s, step, p)) && |Apply(s, step, p).locals| == |s.locals|
    ensures |Apply(s, step, p).keys| == |s.keys|
  {
    hide RateSteps.CasWins, RateSteps.Written, RateSteps.Spent, Slot, AgeOf;
  }

  predicate CanRun(s: State, steps: seq<Step>, p: Params)
    requires p.periodMs > 0
    decreases |steps|
  {
    Sized(s) && (steps == [] || (Enabled(s, steps[0]) && CanRun(Apply(s, steps[0], p), steps[1..], p)))
  }

  function Run(s: State, steps: seq<Step>, p: Params): State
    requires p.periodMs > 0 && CanRun(s, steps, p)
    decreases |steps|
  {
    if steps == [] then s else Run(Apply(s, steps[0], p), steps[1..], p)
  }

  /** A new zone: no keys, unwritten words, idle workers. */
  predicate Init(s: State) {
    && Sized(s) && s.allowed == []
    && (forall i :: 0 <= i < |s.keys| ==> s.keys[i] == 0 && NewCell(s.cells[i]))
    && (forall w :: 0 <= w < |s.locals| ==> s.locals[w].Idle?)
  }

  predicate NewCell(c: RateSteps.State) {
    && c.bucket == RateSteps.Bucket(0, 0) && c.last == 0 && c.log == [] && c.granted == []
    && forall w :: 0 <= w < |c.locals| ==> c.locals[w].Idle?
  }

  // ---- calls for one key at a time ----

  /** The key a worker is in a call for, 0 for none. */
  function KeyOf(l: Local): nat {
    if l.Idle? then 0 else l.h
  }

  function Calls(locals: seq<Local>, h: nat): nat {
    if locals == [] then 0
    else Calls(locals[..|locals| - 1], h) + if KeyOf(locals[|locals| - 1]) == h then 1 else 0
  }

  /** No key is in more than k calls at once. */
  ghost predicate AtMost(s: State, k: nat) {
    forall h :: h > 0 ==> Calls(s.locals, h) <= k
  }

  ghost predicate RunsWithin(s: State, steps: seq<Step>, k: nat, p: Params)
    requires p.periodMs > 0 && CanRun(s, steps, p)
    decreases |steps|
  {
    AtMost(s, k) && (steps == [] || RunsWithin(Apply(s, steps[0], p), steps[1..], k, p))
  }

  predicate Unique(keys: seq<nat>) {
    forall i, j :: 0 <= i < |keys| && 0 <= j < |keys| && keys[i] == keys[j] != 0 ==> i == j
  }

  /** In every run on a table of n slots, evictions included, in which no key is in more than k calls
      at once, no key comes to own two slots. */
  ghost predicate OneSlotHolds(k: nat, n: nat, p: Params)
    requires p.periodMs > 0
  {
    forall s, steps :: Init(s) && |s.keys| == n && CanRun(s, steps, p) && RunsWithin(s, steps, k, p) ==>
      Unique(Run(s, steps, p).keys)
  }

  // ---- the invariant ----

  /** The first q slots h probes belong to other keys. */
  predicate Passed(keys: seq<nat>, h: nat, q: nat)
    requires |keys| > 0
  {
    forall r :: 0 <= r < q ==> keys[Slot(h, |keys|, r)] != 0 && keys[Slot(h, |keys|, r)] != h
  }

  /** Slot i lies in its key's window behind slots of other keys. */
  ghost predicate Placed(keys: seq<nat>, i: nat)
    requires |keys| > 0 && i < |keys|
  {
    exists q: nat :: q < PROBE_MAX && Slot(keys[i], |keys|, q) == i && Passed(keys, keys[i], q)
  }

  ghost predicate Chained(keys: seq<nat>)
    requires |keys| > 0
  {
    forall i :: 0 <= i < |keys| && keys[i] != 0 ==> Placed(keys, i)
  }

  ghost predicate InWindow(n: nat, h: nat, i: nat)
    requires n > 0
  {
    exists r: nat :: r < PROBE_MAX && Slot(h, n, r) == i
  }

  ghost predicate LocalInv(keys: seq<nat>, l: Local)
    requires |keys| > 0
  {
    match l
    case Idle => true
    case Loading(h, _, q, best) => h > 0 && q < PROBE_MAX && Passed(keys, h, q) && BestIn(keys, h, best)
    case Claiming(h, _, q, best) => h > 0 && q < PROBE_MAX && Passed(keys, h, q) && BestIn(keys, h, best)
    case Rereading(h, _, q, best) =>
      h > 0 && q < PROBE_MAX && Passed(keys, h, q) && BestIn(keys, h, best) && keys[Slot(h, |keys|, q)] != 0
    case Aging(h, _, q, best, _) => h > 0 && q < PROBE_MAX && Passed(keys, h, q + 1) && BestIn(keys, h, best)
    case Evicting(h, i, _) => h > 0 && InWindow(|keys|, h, i) && Passed(keys, h, PROBE_MAX)
    case Clearing(h, i) => h > 0 && i < |keys|
    case Spending(h, i) => h > 0 && i < |keys|
  }

  ghost predicate BestIn(keys: seq<nat>, h: nat, best: Chosen)
    requires |keys| > 0
  {
    best.Best? ==> InWindow(|keys|, h, best.index)
  }

  ghost predicate Inv(s: State) {
    Sized(s) && Chained(s.keys) && forall w :: 0 <= w < |s.locals| ==> LocalInv(s.keys, s.locals[w])
  }

  lemma ChainedUnique(keys: seq<nat>)
    requires |keys| > 0 && Chained(keys)
    ensures Unique(keys)
  {
    hide Slot;
    forall i, j | 0 <= i < |keys| && 0 <= j < |keys| && keys[i] == keys[j] != 0 ensures i == j {
      assert Placed(keys, i) && Placed(keys, j);
      var p: nat :| p < PROBE_MAX && Slot(keys[i], |keys|, p) == i && Passed(keys, keys[i], p);
      var q: nat :| q < PROBE_MAX && Slot(keys[j], |keys|, q) == j && Passed(keys, keys[j], q);
    }
  }

  /** A key whose whole window belongs to others owns no slot, and neither does one that probes an
      empty slot behind others. */
  lemma PassedAbsent(keys: seq<nat>, h: nat, q: nat)
    requires |keys| > 0 && Chained(keys) && h > 0 && Passed(keys, h, q)
    requires q >= PROBE_MAX || keys[Slot(h, |keys|, q)] == 0
    ensures h !in keys
  {
    hide Slot;
    forall j | 0 <= j < |keys| ensures keys[j] != h {
      assert keys[j] != 0 ==> Placed(keys, j);
    }
  }

  /** Writing key h into slot i hides no other key's progress, nor h's own if the slot was empty. */
  lemma WriteKeepsPassed(keys: seq<nat>, i: nat, h: nat, d: nat, q: nat)
    requires i < |keys| && h > 0 && (keys[i] == 0 || d != h) && Passed(keys, d, q)
    ensures Passed(keys[i := h], d, q)
  {
    hide Slot;
    forall r | 0 <= r < q
      ensures keys[i := h][Slot(d, |keys|, r)] != 0 && keys[i := h][Slot(d, |keys|, r)] != d
    {
      assert keys[Slot(d, |keys|, r)] != 0;
    }
  }

  lemma WriteKeepsLocal(keys: seq<nat>, i: nat, h: nat, l: Local)
    requires i < |keys| && h > 0 && (keys[i] == 0 || KeyOf(l) != h) && LocalInv(keys, l)
    ensures LocalInv(keys[i := h], l)
  {
    hide Slot, Passed, InWindow;
    if l.Loading? || l.Claiming? || l.Rereading? {
      WriteKeepsPassed(keys, i, h, l.h, l.q);
    } else if l.Aging? {
      WriteKeepsPassed(keys, i, h, l.h, l.q + 1);
    } else if l.Evicting? {
      WriteKeepsPassed(keys, i, h, l.h, PROBE_MAX);
    }
  }

  /** A key that owns no slot may be written into a slot of its window behind slots of others. */
  lemma WriteKeepsChained(keys: seq<nat>, i: nat, h: nat, q: nat)
    requires |keys| >= MIN_SLOTS && i < |keys| && h > 0 && Chained(keys) && h !in keys
    requires q < PROBE_MAX && Slot(h, |keys|, q) == i && Passed(keys, h, q)
    ensures Chained(keys[i := h])
  {
    hide Slot, Passed;
    var keys' := keys[i := h];
    forall j | 0 <= j < |keys'| && keys'[j] != 0 ensures Placed(keys', j) {
      if j == i {
        PassedBehind(keys, i, h, q);
      } else {
        assert keys[j] in keys && Placed(keys, j);
        var r: nat :| r < PROBE_MAX && Slot(keys[j], |keys|, r) == j && Passed(keys, keys[j], r);
        WriteKeepsPassed(keys, i, h, keys[j], r);
      }
    }
  }

  lemma PassedBehind(keys: seq<nat>, i: nat, h: nat, q: nat)
    requires |keys| >= MIN_SLOTS && q < PROBE_MAX && Slot(h, |keys|, q) == i && Passed(keys, h, q)
    ensures Passed(keys[i := h], h, q)
  {
    hide Slot;
    forall r | 0 <= r < q
      ensures keys[i := h][Slot(h, |keys|, r)] != 0 && keys[i := h][Slot(h, |keys|, r)] != h
    {
      OffsetsDiffer(h, |keys|, r, q);
    }
  }

  /** Distinct offsets of one window are distinct slots. */
  lemma OffsetsDiffer(h: nat, n: nat, r: nat, q: nat)
    requires n >= MIN_SLOTS && r < q < PROBE_MAX
    ensures Slot(h, n, r) != Slot(h, n, q)
  {
    var x := h % n;
    WrapOnce(x + r, n);
    WrapOnce(x + q, n);
  }

  lemma WrapOnce(a: nat, n: nat)
    requires n > 0 && a < 2 * n
    ensures a % n == if a < n then a else a - n
  {
    if a < n {
      ModSmall(a, n);
    } else {
      AddMultiple(1, a - n, n);
      SmallQuotient(a - n, n);
      assert a % n == a - n * (a / n);
    }
  }

  lemma SmallQuotient(a: nat, n: nat)
    requires a < n
    ensures a / n == 0
  {
  }

  // ---- at most one call for a key ----

  lemma {:induction false} CallsOf(locals: seq<Local>, w: nat, h: nat)
    requires w < |locals| && KeyOf(locals[w]) == h
    ensures Calls(locals, h) >= 1
    ensures forall v :: 0 <= v < |locals| && v != w && KeyOf(locals[v]) == h ==> Calls(locals, h) >= 2
    decreases |locals|
  {
    var n := |locals| - 1;
    if w < n {
      CallsOf(locals[..n], w, h);
    } else {
      forall v | 0 <= v < n && KeyOf(locals[v]) == h ensures Calls(locals, h) >= 2 {
        CallsOf(locals[..n], v, h);
      }
    }
  }

  /** A worker writes its key into a slot: a claim of an empty one, or an eviction while it alone is in
      a call for its key. */
  lemma WriteKeepsInv(s: State, w: nat, i: nat, q: nat, l: Local, s': State)
    requires Inv(s) && w < |s.locals| && i < |s.keys| && (s.keys[i] == 0 || AtMost(s, 1)) && !s.locals[w].Idle?
    requires var h := s.locals[w].h;
             && h > 0 && q < PROBE_MAX && Slot(h, |s.keys|, q) == i && Passed(s.keys, h, q)
             && h !in s.keys && s' == s.(keys := s.keys[i := h], locals := s.locals[w := l])
             && LocalInv(s'.keys, l)
    ensures Inv(s')
  {
    hide Slot, Passed, Calls, Chained;
    var h := s.locals[w].h;
    WriteKeepsChained(s.keys, i, h, q);
    forall v | 0 <= v < |s.locals| && v != w ensures LocalInv(s'.keys, s.locals[v]) {
      if s.keys[i] != 0 {
        CallsOf(s.locals, w, h);
      }
      WriteKeepsLocal(s.keys, i, h, s.locals[v]);
    }
  }

  /** Any other step moves one worker only. */
  lemma MoveKeepsInv(s: State, s': State, w: nat)
    requires Inv(s) && Sized(s') && s'.keys == s.keys && w < |s.locals| && |s'.locals| == |s.locals|
    requires forall v :: 0 <= v < |s.locals| && v != w ==> s'.locals[v] == s.locals[v]
    requires LocalInv(s.keys, s'.locals[w])
    ensures Inv(s')
  {
    hide LocalInv, Chained;
  }

  /** Past a slot of another key. */
  lemma PassedNext(keys: seq<nat>, h: nat, q: nat)
    requires |keys| > 0 && Passed(keys, h, q)
    requires keys[Slot(h, |keys|, q)] != 0 && keys[Slot(h, |keys|, q)] != h
    ensures Passed(keys, h, q + 1)
  {
  }

  lemma AgeKeepsLocal(s: State, w: nat, p: Params)
    requires Inv(s) && Enabled(s, Age(w)) && p.periodMs > 0
    ensures LocalInv(s.keys, Apply(s, Age(w), p).locals[w])
  {
    hide Slot, Passed, AgeOf;
    var l := s.locals[w];
    assert LocalInv(s.keys, l);
    assert InWindow(|s.keys|, l.h, Slot(l.h, |s.keys|, l.q));
  }

  lemma LoadKeepsLocal(s: State, step: Step, p: Params)
    requires Inv(s) && Enabled(s, step) && p.periodMs > 0 && (step.Load? || step.Reread?)
    ensures LocalInv(s.keys, Apply(s, step, p).locals[step.w])
  {
    hide Slot, Passed, InWindow;
    var l := s.locals[step.w];
    var i := Slot(l.h, |s.keys|, l.q);
    assert LocalInv(s.keys, l);
    if s.keys[i] != 0 && s.keys[i] != l.h {
      PassedNext(s.keys, l.h, l.q);
    }
  }

  lemma ClaimKeepsInv(s: State, w: nat, p: Params)
    requires Inv(s) && Enabled(s, Claim(w)) && p.periodMs > 0
    ensures Inv(Apply(s, Claim(w), p))
  {
    hide Slot, Passed, Chained, BestIn;
    var l := s.locals[w];
    var i := Slot(l.h, |s.keys|, l.q);
    var s' := Apply(s, Claim(w), p);
    assert LocalInv(s.keys, l);
    StepKeepsSized(s, Claim(w), p);
    if s.keys[i] == 0 {
      PassedAbsent(s.keys, l.h, l.q);
      WriteKeepsInv(s, w, i, l.q, Spending(l.h, i), s');
    } else {
      MoveKeepsInv(s, s', w);
    }
  }

  lemma EvictKeepsInv(s: State, w: nat, p: Params)
    requires Inv(s) && Enabled(s, Evict(w)) && p.periodMs > 0 && AtMost(s, 1)
    ensures Inv(Apply(s, Evict(w), p))
  {
    hide Slot, Chained, AtMost;
    var l := s.locals[w];
    var s' := Apply(s, Evict(w), p);
    assert LocalInv(s.keys, l);
    StepKeepsSized(s, Evict(w), p);
    if s.keys[l.index] == l.key {
      var q: nat :| q < PROBE_MAX && Slot(l.h, |s.keys|, q) == l.index;
      PassedAbsent(s.keys, l.h, PROBE_MAX);
      WriteKeepsInv(s, w, l.index, q, Clearing(l.h, l.index), s');
    } else {
      MoveKeepsInv(s, s', w);
    }
  }

  /** Every step keeps the invariant; an eviction needs its worker to be alone with its key. */
  lemma StepKeepsInv(s: State, step: Step, p: Params)
    requires Inv(s) && Enabled(s, step) && p.periodMs > 0 && (step.Evict? ==> AtMost(s, 1))
    ensures Inv(Apply(s, step, p))
  {
    hide Slot, Passed, Chained, AtMost, InWindow, AgeOf, Grants, Inner, RateSteps.Apply;
    StepKeepsSized(s, step, p);
    match step
    case Tick(_) =>
    case Claim(w) => ClaimKeepsInv(s, w, p);
    case Evict(w) => EvictKeepsInv(s, w, p);
    case Age(w) =>
      AgeKeepsLocal(s, w, p);
      MoveKeepsInv(s, Apply(s, step, p), w);
    case Load(w) =>
      LoadKeepsLocal(s, step, p);
      MoveKeepsInv(s, Apply(s, step, p), w);
    case Reread(w) =>
      LoadKeepsLocal(s, step, p);
      MoveKeepsInv(s, Apply(s, step, p), w);
    case Begin(w, h) =>
      NonePassed(s.keys, h);
      MoveKeepsInv(s, Apply(s, step, p), w);
    case Clear(w) =>
      assert LocalInv(s.keys, s.locals[w]);
      MoveKeepsInv(s, Apply(s, step, p), w);
    case Spend(w) =>
      assert LocalInv(s.keys, s.locals[w]);
      MoveKeepsInv(s, Apply(s, step, p), w);
  }

  lemma NonePassed(keys: seq<nat>, h: nat)
    requires |keys| > 0
    ensures Passed(keys, h, 0)
  {
  }

  lemma InitInv(s: State)
    requires Init(s)
    ensures Inv(s)
  {
  }

  lemma {:induction false} RunKeepsInv(s: State, steps: seq<Step>, p: Params)
    requires Inv(s) && p.periodMs > 0 && CanRun(s, steps, p) && RunsWithin(s, steps, 1, p)
    ensures Inv(Run(s, steps, p))
    decreases |steps|
  {
    hide Inv, Apply, AtMost;
    if steps != [] {
      StepKeepsInv(s, steps[0], p);
      RunKeepsInv(Apply(s, steps[0], p), steps[1..], p);
    }
  }

  lemma {:induction false} FewerCalls(s: State, steps: seq<Step>, k: nat, p: Params)
    requires p.periodMs > 0 && k <= 1 && CanRun(s, steps, p) && RunsWithin(s, steps, k, p)
    ensures RunsWithin(s, steps, 1, p)
    decreases |steps|
  {
    hide Apply, Calls;
    if steps != [] {
      FewerCalls(Apply(s, steps[0], p), steps[1..], k, p);
    }
  }

  /** Evictions and all, a key owns one slot as long as its calls do not overlap. */
  lemma OneCallOneSlot(k: nat, n: nat, p: Params)
    requires p.periodMs > 0 && k <= 1
    ensures OneSlotHolds(k, n, p)
  {
    hide Inv, Unique, Init, RunsWithin, CanRun, Run;
    forall s, steps | Init(s) && |s.keys| == n && CanRun(s, steps, p) && RunsWithin(s, steps, k, p)
      ensures Unique(Run(s, steps, p).keys)
    {
      FewerCalls(s, steps, k, p);
      InitInv(s);
      RunKeepsInv(s, steps, p);
      InvUnique(Run(s, steps, p));
    }
  }

  lemma InvUnique(s: State)
    requires Inv(s)
    ensures Unique(s.keys)
  {
    ChainedUnique(s.keys);
  }

  // ---- runs under conditions ----

  /** What a run may contain. Any: anything; NoEviction: no eviction; Punctual: no CAS 2^32 ms after the
      stamp it read, unless nothing was written since; Timely: neither; Still: nor any passing of time. */
  datatype Terms = Any | NoEviction | Punctual | Timely | Still

  predicate Allowed(s: State, step: Step, terms: Terms)
    requires Sized(s) && Enabled(s, step)
  {
    && (terms.NoEviction? || terms.Timely? || terms.Still? ==> !step.Evict? && !step.Clear?)
    && (terms.Still? ==> !step.Tick?)
    && (terms.Punctual? || terms.Timely? || terms.Still? ==> OnTime(s, step))
  }

  predicate OnTime(s: State, step: Step)
    requires Sized(s) && Enabled(s, step)
  {
    step.Spend? ==>
      var c := s.cells[s.locals[step.w].index];
      RateSteps.OnTime(c, Inner(c, step.w), WRAP)
  }

  predicate Goes(s: State, steps: seq<Step>, terms: Terms, p: Params)
    requires p.periodMs > 0 && CanRun(s, steps, p)
    decreases |steps|
  {
    steps == [] || (Allowed(s, steps[0], terms) && Goes(Apply(s, steps[0], p), steps[1..], terms, p))
  }

  /** Some run on these terms leads from s to e. */
  ghost predicate Leads(s: State, e: State, terms: Terms, p: Params)
    requires p.periodMs > 0
  {
    exists steps :: CanRun(s, steps, p) && Goes(s, steps, terms, p) && Run(s, steps, p) == e
  }

  lemma LeadsNowhere(s: State, terms: Terms, p: Params)
    requires Sized(s) && p.periodMs > 0
    ensures Leads(s, s, terms, p)
  {
    assert CanRun(s, [], p) && Goes(s, [], terms, p) && Run(s, [], p) == s;
  }

  lemma {:induction false} RunSnoc(s: State, steps: seq<Step>, step: Step, terms: Terms, p: Params)
    requires p.periodMs > 0 && CanRun(s, steps, p) && Goes(s, steps, terms, p)
    requires Sized(Run(s, steps, p)) && Enabled(Run(s, steps, p), step) && Allowed(Run(s, steps, p), step, terms)
    requires Sized(Apply(Run(s, steps, p), step, p))
    ensures CanRun(s, steps + [step], p) && Goes(s, steps + [step], terms, p)
    ensures Run(s, steps + [step], p) == Apply(Run(s, steps, p), step, p)
    decreases |steps|
  {
    hide Apply, Enabled, Allowed, Sized;
    if steps == [] {
      assert [step][1..] == [];
    } else {
      assert (steps + [step])[1..] == steps[1..] + [step];
      RunSnoc(Apply(s, steps[0], p), steps[1..], step, terms, p);
    }
  }

  lemma LeadsByStep(s: State, e: State, step: Step, terms: Terms, p: Params)
    requires p.periodMs > 0 && Leads(s, e, terms, p) && Sized(e) && Enabled(e, step) && Allowed(e, step, terms)
    ensures Leads(s, Apply(e, step, p), terms, p) && Sized(Apply(e, step, p))
  {
    hide Run, CanRun, Apply, Goes, Sized, Allowed;
    StepKeepsSized(e, step, p);
    var steps :| CanRun(s, steps, p) && Goes(s, steps, terms, p) && Run(s, steps, p) == e;
    RunSnoc(s, steps, step, terms, p);
  }

  lemma {:induction false} RunKeepsInvWithout(s: State, steps: seq<Step>, terms: Terms, p: Params)
    requires Inv(s) && p.periodMs > 0 && CanRun(s, steps, p) && Goes(s, steps, terms, p)
    requires terms != Any && terms != Punctual
    ensures Inv(Run(s, steps, p))
    decreases |steps|
  {
    hide Inv, Apply, AtMost, OnTime;
    if steps != [] {
      StepKeepsInv(s, steps[0], p);
      RunKeepsInvWithout(Apply(s, steps[0], p), steps[1..], terms, p);
    }
  }

  /** Without evictions a key owns at most one slot, however its calls overlap. */
  lemma OneSlotPerKey(s: State, e: State, p: Params)
    requires Init(s) && p.periodMs > 0 && Leads(s, e, NoEviction, p)
    ensures Unique(e.keys)
  {
    hide Inv, Unique, Init, CanRun, Run, Goes;
    var steps :| CanRun(s, steps, p) && Goes(s, steps, NoEviction, p) && Run(s, steps, p) == e;
    InitInv(s);
    RunKeepsInvWithout(s, steps, NoEviction, p);
    InvUnique(e);
  }
}
