/** What a client may be allowed when evictions occur and no two calls for one key overlap: a budget for
    every fresh bucket it is given, and one call for every slot it loses. */
module RateSessions {
  import opened RateBucket
  import opened RateTable
  import RateSteps
  import opened RateClaims
  import opened RateClients
  import opened RateEpochs

  /** The step gives key h a fresh bucket: a claim, or a store into a slot it owns. */
  predicate Refreshes(s: State, step: Step, h: nat)
    requires Sized(s) && Enabled(s, step)
  {
    match step
    case Claim(w) => s.locals[w].h == h && s.keys[Slot(h, |s.keys|, s.locals[w].q)] == 0
    case Clear(w) => s.keys[s.locals[w].index] == h
    case _ => false
  }

  /** The step takes its slot from key h: an eviction that wins. */
  predicate Loses(s: State, step: Step, h: nat)
    requires Sized(s) && Enabled(s, step)
  {
    match step
    case Evict(w) =>
      var l := s.locals[w];
      s.keys[l.index] == l.key == h && l.h != h
    case _ => false
  }

  /** What a step adds to the allowance of key h, in fixed-point units. */
  function Adds(s: State, step: Step, h: nat, budget: nat): nat
    requires Sized(s) && Enabled(s, step)
  {
    (if Refreshes(s, step, h) then budget else 0) + if Loses(s, step, h) then SCALE else 0
  }

  predicate InCell(l: Local, h: nat) {
    (l.Spending? || l.Clearing?) && l.h == h
  }

  /** Key h against its allowance: within it; while it owns a slot whose bucket it was given, short of it
      by what that bucket may still grant; while a call of it runs on a slot it lost, by one call. */
  ghost predicate Covered(s: State, h: nat, allowance: nat, t0: nat, t1: nat, p: Params)
    requires p.periodMs > 0 && t0 <= t1 && Sized(s)
  {
    var spent := SCALE * KeyCount(s.allowed, h, t0, t1);
    && spent <= allowance
    && (forall i :: 0 <= i < |s.keys| && s.keys[i] == h && Given(s, h, i) ==>
          spent + RateSteps.Budget(t0, t1, p) <= allowance + SCALE * RateSteps.Count(s.cells[i].granted, t0, t1))
    && (h !in s.keys ==> forall v :: 0 <= v < |s.locals| && InCell(s.locals[v], h) ==> spent + SCALE <= allowance)
  }

  /** No call of h has yet to store the unwritten word of its eviction of slot i. */
  predicate Given(s: State, h: nat, i: nat) {
    forall v :: 0 <= v < |s.locals| ==> s.locals[v] != Clearing(h, i)
  }

  /** Calls in a cell are on owned slots, and those of a key that owns a slot are on that one. */
  ghost predicate CallsPlaced(s: State) {
    forall v :: 0 <= v < |s.locals| && (s.locals[v].Spending? || s.locals[v].Clearing?) ==>
      Placement(s.keys, s.locals[v].h, s.locals[v].index)
  }

  ghost predicate Placement(keys: seq<nat>, h: nat, i: nat) {
    h > 0 && i < |keys| && keys[i] != 0 && (h in keys ==> keys[i] == h)
  }

  ghost predicate SessionInv(s: State, h: nat, allowance: nat, t0: nat, t1: nat, p: Params)
    requires p.periodMs > 0 && t0 <= t1
  {
    && Inv(s) && CallsPlaced(s)
    && (forall i :: 0 <= i < |s.cells| ==> EpochInv(s.cells[i], t0, t1, p))
    && (forall i :: 0 <= i < |s.keys| && s.keys[i] == 0 ==> RateSteps.Count(s.cells[i].granted, t0, t1) == 0)
    && Covered(s, h, allowance, t0, t1, p)
  }

  lemma InitSessions(s: State, h: nat, t0: nat, t1: nat, p: Params)
    requires Accepted(p) && Init(s) && h > 0 && t0 <= t1
    ensures SessionInv(s, h, 0, t0, t1, p)
  {
    hide Inv, Epoch, RateSteps.InBudget, RateSteps.Budget;
    InitInv(s);
    forall i | 0 <= i < |s.cells| ensures EpochInv(s.cells[i], t0, t1, p) {
      NewEpoch(s.cells[i], p);
      RateSteps.InitBudget(s.cells[i], t0, t1, p);
    }
  }

  // ---- the cells ----

  lemma StepKeepsCells(s: State, step: Step, t0: nat, t1: nat, p: Params)
    requires Accepted(p) && t0 <= t1 && Sized(s) && Enabled(s, step) && OnTime(s, step)
    requires forall i :: 0 <= i < |s.cells| ==> EpochInv(s.cells[i], t0, t1, p)
    ensures forall i :: 0 <= i < |s.cells| ==> EpochInv(Apply(s, step, p).cells[i], t0, t1, p)
    ensures |Apply(s, step, p).cells| == |s.cells|
  {
    hide EpochInv, Slot, AgeOf, Grants, RateSteps.Apply, Unwritten;
    match step
    case Tick(ms) =>
      forall i | 0 <= i < |s.cells| ensures EpochInv(Apply(s, step, p).cells[i], t0, t1, p) {
        StepKeepsEpoch(s.cells[i], RateSteps.Tick(ms), t0, t1, p);
        TickedCell(s.cells[i], ms, p);
      }
    case Spend(w) =>
      var c := s.cells[s.locals[w].index];
      StepKeepsEpoch(c, Inner(c, w), t0, t1, p);
    case Clear(w) =>
      StoreKeepsBudget(s.cells[s.locals[w].index], w, t0, t1, p);
    case _ =>
  }

  lemma TickedCell(c: RateSteps.State, ms: nat, p: Params)
    requires p.periodMs > 0
    ensures RateSteps.Apply(c, RateSteps.Tick(ms), p) == c.(clock := c.clock + ms)
  {
  }

  // ---- where calls are ----

  lemma WritePlaces(keys: seq<nat>, i: nat, d: nat, h: nat, j: nat)
    requires i < |keys| && d > 0 && h != d && Placement(keys, h, j) && Unique(keys)
    ensures Placement(keys[i := d], h, j)
  {
    if h in keys[i := d] {
      var r :| 0 <= r < |keys| && keys[i := d][r] == h;
      assert keys[r] == h;
    }
  }

  lemma OwnPlacement(keys: seq<nat>, i: nat)
    requires i < |keys| && keys[i] != 0
    ensures Placement(keys, keys[i], i)
  {
  }

  /** Only this worker is in a call for its key. */
  lemma Alone(s: State, w: nat, v: nat)
    requires AtMost(s, 1) && w < |s.locals| && v < |s.locals| && v != w && !s.locals[w].Idle? && s.locals[w].h > 0
    ensures KeyOf(s.locals[v]) != s.locals[w].h
  {
    hide Calls;
    CallsOf(s.locals, w, s.locals[w].h);
  }

  lemma HasKey(s: State, w: nat)
    requires Inv(s) && w < |s.locals| && !s.locals[w].Idle?
    ensures s.locals[w].h > 0
  {
    assert LocalInv(s.keys, s.locals[w]);
  }

  /** A worker takes slot i for its key. */
  lemma TakingPlaces(s: State, w: nat, i: nat, s': State)
    requires Inv(s) && AtMost(s, 1) && CallsPlaced(s) && w < |s.locals| && !s.locals[w].Idle? && i < |s.keys|
    requires var d := s.locals[w].h;
             && s'.keys == s.keys[i := d] && |s'.locals| == |s.locals| && InCell(s'.locals[w], d) && s'.locals[w].index == i
             && forall v :: 0 <= v < |s.locals| && v != w ==> s'.locals[v] == s.locals[v]
    ensures CallsPlaced(s')
  {
    hide Inv, Placement, AtMost, Unique;
    HasKey(s, w);
    InvUnique(s);
    var d := s.locals[w].h;
    OwnPlacement(s'.keys, i);
    forall v | 0 <= v < |s'.locals| && (s'.locals[v].Spending? || s'.locals[v].Clearing?)
      ensures Placement(s'.keys, s'.locals[v].h, s'.locals[v].index)
    {
      if v != w {
        Alone(s, w, v);
        WritePlaces(s.keys, i, d, s.locals[v].h, s.locals[v].index);
      }
    }
  }

  lemma StepPlaces(s: State, step: Step, p: Params)
    requires p.periodMs > 0 && Inv(s) && AtMost(s, 1) && CallsPlaced(s) && Enabled(s, step)
    ensures Sized(s) && CallsPlaced(Apply(s, step, p))
  {
    hide Inv, Placement, AtMost, Slot, AgeOf, Grants, Inner, RateSteps.Apply, Unwritten;
    SlotInside(s);
    var s' := Apply(s, step, p);
    match step
    case Claim(w) =>
      var i := Slot(s.locals[w].h, |s.keys|, s.locals[w].q);
      if s.keys[i] == 0 {
        TakingPlaces(s, w, i, s');
      }
    case Evict(w) =>
      if s.keys[s.locals[w].index] == s.locals[w].key {
        TakingPlaces(s, w, s.locals[w].index, s');
      }
    case Load(w) =>
      FoundPlaces(s, step, p);
    case Reread(w) =>
      FoundPlaces(s, step, p);
    case _ =>
  }

  lemma FoundPlaces(s: State, step: Step, p: Params)
    requires p.periodMs > 0 && Inv(s) && CallsPlaced(s) && Enabled(s, step) && (step.Load? || step.Reread?)
    ensures Sized(s) && CallsPlaced(Apply(s, step, p))
  {
    hide Placement, Chained, Passed, BestIn, Slot;
    var l := s.locals[step.w];
    var i := Slot(l.h, |s.keys|, l.q);
    assert LocalInv(s.keys, l);
    if s.keys[i] != 0 {
      OwnPlacement(s.keys, i);
    }
  }

  // ---- the allowance ----

  /** A step that touches no key, no grant and no eviction. */
  lemma PlainCovers(s: State, s': State, h: nat, a: nat, t0: nat, t1: nat, p: Params)
    requires p.periodMs > 0 && t0 <= t1 && Sized(s) && Sized(s') && h > 0 && Covered(s, h, a, t0, t1, p)
    requires s'.keys == s.keys && s'.allowed == s.allowed && |s'.cells| == |s.cells| && |s'.locals| == |s.locals|
    requires forall i :: 0 <= i < |s.cells| ==> s'.cells[i].granted == s.cells[i].granted
    requires forall v :: 0 <= v < |s.locals| && s'.locals[v] != s.locals[v] ==>
               !s.locals[v].Clearing? && !s'.locals[v].Clearing? && (InCell(s'.locals[v], h) ==> h in s.keys)
    ensures Covered(s', h, a, t0, t1, p)
  {
    hide RateSteps.Budget, RateSteps.Count, KeyCount;
    forall i | 0 <= i < |s.keys| && Given(s', h, i) ensures Given(s, h, i) {
      forall v | 0 <= v < |s.locals| ensures s.locals[v] != Clearing(h, i) {
        assert s'.locals[v] != Clearing(h, i);
      }
    }
  }

  /** A claim gives a key without a slot one that has granted nothing. */
  lemma ClaimCovers(s: State, w: nat, h: nat, a: nat, t0: nat, t1: nat, p: Params)
    requires Accepted(p) && t0 <= t1 && h > 0 && SessionInv(s, h, a, t0, t1, p) && Enabled(s, Claim(w))
    requires s.keys[Slot(s.locals[w].h, |s.keys|, s.locals[w].q)] == 0
    ensures Sized(s) && Sized(Apply(s, Claim(w), p))
    ensures Covered(Apply(s, Claim(w), p), h, a + Adds(s, Claim(w), h, RateSteps.Budget(t0, t1, p)), t0, t1, p)
  {
    hide RateSteps.Budget, RateSteps.Count, KeyCount, EpochInv, Chained, Placement, BestIn;
    SlotInside(s);
    StepKeepsSized(s, Claim(w), p);
    var l := s.locals[w];
    var i := Slot(l.h, |s.keys|, l.q);
    assert LocalInv(s.keys, l);
    PassedAbsent(s.keys, l.h, l.q);
    hide Slot, Passed;
    var s' := Apply(s, Claim(w), p);
    if h !in s'.keys {
      NotIn(s.keys, i, l.h, h);
    }
    forall j | 0 <= j < |s.keys| && Given(s', h, j) ensures Given(s, h, j) {
      forall v | 0 <= v < |s.locals| ensures s.locals[v] != Clearing(h, j) {
        assert s'.locals[v] != Clearing(h, j);
      }
    }
  }

  lemma NotIn(keys: seq<nat>, i: nat, d: nat, h: nat)
    requires i < |keys| && h !in keys[i := d]
    ensures h != d && (h in keys ==> keys[i] == h)
  {
    assert keys[i := d][i] == d;
    forall j | 0 <= j < |keys| && j != i ensures keys[j] != h {
      assert keys[i := d][j] == keys[j];
    }
  }

  /** At its slot's budget a key is covered without the slot. */
  lemma WithinEpoch(s: State, i: nat, t0: nat, t1: nat, p: Params)
    requires p.periodMs > 0 && t0 <= t1 && i < |s.cells| && EpochInv(s.cells[i], t0, t1, p)
    ensures SCALE * RateSteps.Count(s.cells[i].granted, t0, t1) <= RateSteps.Budget(t0, t1, p)
  {
    hide Epoch, RateSteps.WithinBudget, RateSteps.Budget, RateSteps.Count;
  }

  /** An eviction that wins: its key waits for its bucket, the loser is due one call more. */
  lemma EvictCovers(s: State, w: nat, h: nat, a: nat, t0: nat, t1: nat, p: Params)
    requires Accepted(p) && t0 <= t1 && h > 0 && SessionInv(s, h, a, t0, t1, p) && Enabled(s, Evict(w))
    requires s.keys[s.locals[w].index] == s.locals[w].key
    ensures Sized(s) && Sized(Apply(s, Evict(w), p))
    ensures Covered(Apply(s, Evict(w), p), h, a + Adds(s, Evict(w), h, RateSteps.Budget(t0, t1, p)), t0, t1, p)
  {
    hide RateSteps.Budget, RateSteps.Count, KeyCount, EpochInv, Placement, Inv;
    SlotInside(s);
    StepKeepsSized(s, Evict(w), p);
    var l := s.locals[w];
    var i := l.index;
    EvictsAbsent(s, w);
    var s' := Apply(s, Evict(w), p);
    if h !in s'.keys {
      NotIn(s.keys, i, l.h, h);
    }
    forall j | 0 <= j < |s.keys| && s'.keys[j] == h && Given(s', h, j) ensures Given(s, h, j) && s.keys[j] == h {
      assert s'.locals[w] == Clearing(l.h, i);
      forall v | 0 <= v < |s.locals| ensures s.locals[v] != Clearing(h, j) {
        assert s'.locals[v] != Clearing(h, j);
      }
    }
  }

  lemma EvictsAbsent(s: State, w: nat)
    requires Inv(s) && Enabled(s, Evict(w))
    ensures s.locals[w].h !in s.keys && s.locals[w].h > 0
  {
    hide Slot, Chained, Passed;
    assert LocalInv(s.keys, s.locals[w]);
    PassedAbsent(s.keys, s.locals[w].h, PROBE_MAX);
  }

  /** A store into the slot of h gives it a fresh bucket; any other is none of its business. */
  lemma ClearCovers(s: State, w: nat, h: nat, a: nat, t0: nat, t1: nat, p: Params)
    requires Accepted(p) && t0 <= t1 && h > 0 && SessionInv(s, h, a, t0, t1, p) && Enabled(s, Clear(w)) && AtMost(s, 1)
    ensures Sized(s) && Sized(Apply(s, Clear(w), p))
    ensures Covered(Apply(s, Clear(w), p), h, a + Adds(s, Clear(w), h, RateSteps.Budget(t0, t1, p)), t0, t1, p)
  {
    hide RateSteps.Budget, KeyCount, EpochInv, Inv, AtMost, Zero;
    SlotInside(s);
    StepKeepsSized(s, Clear(w), p);
    InvUnique(s);
    HasKey(s, w);
    var l := s.locals[w];
    var s' := Apply(s, Clear(w), p);
    assert Placement(s.keys, l.h, l.index);
    forall j | 0 <= j < |s.keys| && s.keys[j] == h && j != l.index && Given(s', h, j) ensures Given(s, h, j) {
      forall v | 0 <= v < |s.locals| ensures s.locals[v] != Clearing(h, j) {
        assert s'.locals[v] != Clearing(h, j);
      }
    }
  }

  /** A grant to a call of h comes out of its slot's bucket, or is the one call of a slot it lost. */
  lemma SpendCovers(s: State, w: nat, h: nat, a: nat, t0: nat, t1: nat, p: Params)
    requires Accepted(p) && t0 <= t1 && h > 0 && SessionInv(s, h, a, t0, t1, p) && Enabled(s, Step.Spend(w))
    requires AtMost(s, 1) && Sized(s) && OnTime(s, Step.Spend(w))
    ensures Sized(Apply(s, Step.Spend(w), p)) && Covered(Apply(s, Step.Spend(w), p), h, a, t0, t1, p)
  {
    hide RateSteps.Budget, RateSteps.Count, KeyCount, EpochInv, Inv, AtMost, RateSteps.CasWins, RateSteps.Written, RateSteps.Spent;
    StepKeepsSized(s, Step.Spend(w), p);
    InvUnique(s);
    HasKey(s, w);
    var l := s.locals[w];
    var i := l.index;
    var c := s.cells[i];
    var s' := Apply(s, Step.Spend(w), p);
    assert Placement(s.keys, l.h, i);
    StepKeepsCells(s, Step.Spend(w), t0, t1, p);
    WithinEpoch(s', i, t0, t1, p);
    SpendLocals(s, w, h, p);
    if Grants(c, w, p) {
      var at := c.locals[w].now;
      RateSteps.CountPush(c.granted, at, t0, t1);
      KeyCountPush(s.allowed, Grant(l.h, at), h, t0, t1);
    }
  }

  /** Who is where after the step: an allowed call of h has ended, and no call of h but this one exists. */
  lemma SpendLocals(s: State, w: nat, h: nat, p: Params)
    requires p.periodMs > 0 && Inv(s) && AtMost(s, 1) && Enabled(s, Step.Spend(w)) && h > 0
    ensures Sized(s)
    ensures var s' := Apply(s, Step.Spend(w), p); var c := s.cells[s.locals[w].index];
            && (forall j :: 0 <= j < |s.keys| && Given(s', h, j) ==> Given(s, h, j))
            && (s.locals[w].h == h ==> forall v :: 0 <= v < |s.locals| && v != w ==> KeyOf(s.locals[v]) != h)
            && (Grants(c, w, p) ==> s'.locals[w].Idle?)
            && (s'.locals[w].Idle? || s'.locals[w] == s.locals[w])
            && (forall v :: 0 <= v < |s.locals| && v != w ==> s'.locals[v] == s.locals[v])
            && s'.cells[s.locals[w].index].granted == c.granted + (if Grants(c, w, p) then [c.locals[w].now] else [])
  {
    hide Inv, AtMost, RateSteps.CasWins, RateSteps.Written, RateSteps.Spent;
    SlotInside(s);
    HasKey(s, w);
    var s' := Apply(s, Step.Spend(w), p);
    forall j | 0 <= j < |s.keys| && Given(s', h, j) ensures Given(s, h, j) {
      forall v | 0 <= v < |s.locals| ensures s.locals[v] != Clearing(h, j) {
        assert s'.locals[v] != Clearing(h, j);
      }
    }
    if s.locals[w].h == h {
      forall v | 0 <= v < |s.locals| && v != w ensures KeyOf(s.locals[v]) != h {
        Alone(s, w, v);
      }
    }
  }

  /** The other steps: a probe, a lost claim or eviction, the passing of time. */
  lemma OtherCovers(s: State, step: Step, h: nat, a: nat, t0: nat, t1: nat, p: Params)
    requires Accepted(p) && t0 <= t1 && h > 0 && SessionInv(s, h, a, t0, t1, p) && Enabled(s, step) && Sized(s)
    requires !step.Spend? && !step.Clear?
    requires step.Claim? ==> s.keys[Slot(s.locals[step.w].h, |s.keys|, s.locals[step.w].q)] != 0
    requires step.Evict? ==> s.keys[s.locals[step.w].index] != s.locals[step.w].key
    ensures Sized(Apply(s, step, p)) && Covered(Apply(s, step, p), h, a, t0, t1, p)
    ensures forall budget :: Adds(s, step, h, budget) == 0
  {
    hide RateSteps.Budget, RateSteps.Count, KeyCount, EpochInv, Inv, AgeOf, Slot, CallsPlaced, Covered;
    StepKeepsSized(s, step, p);
    PlainCovers(s, Apply(s, step, p), h, a, t0, t1, p);
  }

  lemma StepCovers(s: State, step: Step, h: nat, a: nat, t0: nat, t1: nat, p: Params)
    requires Accepted(p) && t0 <= t1 && h > 0 && SessionInv(s, h, a, t0, t1, p) && Enabled(s, step) && AtMost(s, 1)
    requires Sized(s) && OnTime(s, step)
    ensures Sized(Apply(s, step, p))
    ensures Covered(Apply(s, step, p), h, a + Adds(s, step, h, RateSteps.Budget(t0, t1, p)), t0, t1, p)
  {
    hide Covered, SessionInv, Adds, AtMost, Apply, OnTime, Slot;
    if step.Spend? {
      SpendCovers(s, step.w, h, a, t0, t1, p);
      SpendAdds(s, step.w, h);
    } else if step.Clear? {
      ClearCovers(s, step.w, h, a, t0, t1, p);
    } else if step.Claim? && s.keys[Slot(s.locals[step.w].h, |s.keys|, s.locals[step.w].q)] == 0 {
      ClaimCovers(s, step.w, h, a, t0, t1, p);
    } else if step.Evict? && s.keys[s.locals[step.w].index] == s.locals[step.w].key {
      EvictCovers(s, step.w, h, a, t0, t1, p);
    } else {
      OtherCovers(s, step, h, a, t0, t1, p);
    }
  }

  lemma SpendAdds(s: State, w: nat, h: nat)
    requires Sized(s) && Enabled(s, Step.Spend(w))
    ensures forall budget :: Adds(s, Step.Spend(w), h, budget) == 0
  {
  }

  /** A slot nobody owns has granted nothing. */
  lemma UnownedStays(s: State, step: Step, t0: nat, t1: nat, p: Params)
    requires p.periodMs > 0 && Inv(s) && CallsPlaced(s) && Enabled(s, step) && Sized(s)
    requires forall i :: 0 <= i < |s.keys| && s.keys[i] == 0 ==> RateSteps.Count(s.cells[i].granted, t0, t1) == 0
    ensures var s' := Apply(s, step, p);
            |s'.cells| == |s'.keys|
            && forall i :: 0 <= i < |s'.keys| && s'.keys[i] == 0 ==> RateSteps.Count(s'.cells[i].granted, t0, t1) == 0
  {
    hide Inv, RateSteps.Count, AgeOf, Slot, Inner, Grants, RateSteps.Apply, Unwritten;
    StepKeepsSized(s, step, p);
    if step.Claim? {
      HasKey(s, step.w);
    } else if step.Evict? {
      HasKey(s, step.w);
    } else if step.Spend? || step.Clear? {
      assert Placement(s.keys, s.locals[step.w].h, s.locals[step.w].index);
    }
  }

  lemma StepKeepsSession(s: State, step: Step, h: nat, a: nat, t0: nat, t1: nat, p: Params)
    requires Accepted(p) && t0 <= t1 && h > 0 && SessionInv(s, h, a, t0, t1, p) && Enabled(s, step) && AtMost(s, 1)
    requires Sized(s) && OnTime(s, step)
    ensures SessionInv(Apply(s, step, p), h, a + Adds(s, step, h, RateSteps.Budget(t0, t1, p)), t0, t1, p)
  {
    hide Covered, CallsPlaced, EpochInv, Inv, Adds, AtMost, Apply, OnTime, RateSteps.Count;
    StepKeepsInv(s, step, p);
    StepPlaces(s, step, p);
    StepKeepsCells(s, step, t0, t1, p);
    UnownedStays(s, step, t0, t1, p);
    StepCovers(s, step, h, a, t0, t1, p);
  }

  // ---- over a run ----

  /** The fresh buckets a run gives key h. */
  function Fresh(s: State, steps: seq<Step>, h: nat, p: Params): nat
    requires p.periodMs > 0 && CanRun(s, steps, p)
    decreases |steps|
  {
    if steps == [] then 0
    else (if Refreshes(s, steps[0], h) then 1 else 0) + Fresh(Apply(s, steps[0], p), steps[1..], h, p)
  }

  /** The slots a run takes from it. */
  function Lost(s: State, steps: seq<Step>, h: nat, p: Params): nat
    requires p.periodMs > 0 && CanRun(s, steps, p)
    decreases |steps|
  {
    if steps == [] then 0
    else (if Loses(s, steps[0], h) then 1 else 0) + Lost(Apply(s, steps[0], p), steps[1..], h, p)
  }

  /** What both come to, in fixed-point units. */
  function Allowance(s: State, steps: seq<Step>, h: nat, budget: nat, p: Params): nat
    requires p.periodMs > 0 && CanRun(s, steps, p)
    decreases |steps|
  {
    if steps == [] then 0
    else Adds(s, steps[0], h, budget) + Allowance(Apply(s, steps[0], p), steps[1..], h, budget, p)
  }

  lemma {:induction false} AllowanceIs(s: State, steps: seq<Step>, h: nat, budget: nat, p: Params)
    requires p.periodMs > 0 && CanRun(s, steps, p)
    ensures Allowance(s, steps, h, budget, p) == Fresh(s, steps, h, p) * budget + SCALE * Lost(s, steps, h, p)
    decreases |steps|
  {
    hide Apply, Refreshes, Loses, Enabled, Sized;
    if steps != [] {
      AllowanceIs(Apply(s, steps[0], p), steps[1..], h, budget, p);
      OneMore(Fresh(Apply(s, steps[0], p), steps[1..], h, p), budget);
    }
  }

  lemma OneMore(f: nat, budget: nat)
    ensures (1 + f) * budget == budget + f * budget && (0 + f) * budget == f * budget
  {
  }

  lemma {:induction false} RunKeepsSession(s: State, steps: seq<Step>, h: nat, a: nat, t0: nat, t1: nat, p: Params)
    requires Accepted(p) && t0 <= t1 && h > 0 && SessionInv(s, h, a, t0, t1, p)
    requires CanRun(s, steps, p) && Goes(s, steps, Punctual, p) && RunsWithin(s, steps, 1, p)
    ensures SessionInv(Run(s, steps, p), h, a + Allowance(s, steps, h, RateSteps.Budget(t0, t1, p), p), t0, t1, p)
    decreases |steps|
  {
    hide SessionInv, Apply, OnTime, AtMost, Adds, RateSteps.Budget;
    if steps != [] {
      StepKeepsSession(s, steps[0], h, a, t0, t1, p);
      RunKeepsSession(Apply(s, steps[0], p), steps[1..], h, a + Adds(s, steps[0], h, RateSteps.Budget(t0, t1, p)), t0, t1, p);
    }
  }

  /** What a client is allowed with evictions, its calls not overlapping and no CAS 2^32 ms after its
      stamp: in any window at most the window's budget for every fresh bucket its key is given, and one
      call for every slot taken from it. */
  lemma SessionBound(s: State, steps: seq<Step>, h: nat, t0: nat, t1: nat, p: Params)
    requires Accepted(p) && Init(s) && h > 0 && t0 <= t1
    requires CanRun(s, steps, p) && Goes(s, steps, Punctual, p) && RunsWithin(s, steps, 1, p)
    ensures SCALE * KeyCount(Run(s, steps, p).allowed, h, t0, t1)
         <= Fresh(s, steps, h, p) * (p.burstFp + Refill(t1 - t0, p) + 1) + SCALE * Lost(s, steps, h, p)
  {
    hide Init, CanRun, Run, Goes, RunsWithin, Refill, KeyCount, Inv, CallsPlaced, EpochInv;
    InitSessions(s, h, t0, t1, p);
    RunKeepsSession(s, steps, h, 0, t0, t1, p);
    AllowanceIs(s, steps, h, RateSteps.Budget(t0, t1, p), p);
  }
}
