/** The rate bound per client: the slot table of RateClaims and the CAS loop of RateSteps together. */
module RateClients {
  import opened RateBucket
  import RateSteps
  import opened RateClaims

  /** How many calls for key h were allowed with a sample in [t0, t1], on whatever slot. */
  function KeyCount(allowed: seq<Grant>, h: nat, t0: nat, t1: nat): nat {
    if allowed == [] then 0
    else
      var last := allowed[|allowed| - 1];
      KeyCount(allowed[..|allowed| - 1], h, t0, t1) + if last.h == h && t0 <= last.at <= t1 then 1 else 0
  }

  lemma KeyCountPush(allowed: seq<Grant>, g: Grant, h: nat, t0: nat, t1: nat)
    ensures KeyCount(allowed + [g], h, t0, t1)
         == KeyCount(allowed, h, t0, t1) + if g.h == h && t0 <= g.at <= t1 then 1 else 0
  {
    assert (allowed + [g])[..|allowed|] == allowed;
  }

  /** A spending worker is on its own key's slot, and none is between an eviction and its store. */
  predicate OnOwnSlot(keys: seq<nat>, l: Local) {
    && !l.Clearing?
    && (l.Spending? ==> l.h > 0 && l.index < |keys| && keys[l.index] == l.h)
  }

  predicate CellInv(c: RateSteps.State, t0: nat, t1: nat, p: Params)
    requires p.periodMs > 0 && t0 <= t1
  {
    RateSteps.Steady(c, p) && RateSteps.InBudget(c, t0, t1, p)
  }

  /** What a key was allowed is what its slot granted, and without a slot it was allowed nothing. */
  ghost predicate Tallies(s: State, t0: nat, t1: nat)
    requires |s.keys| == |s.cells|
  {
    && (forall i :: 0 <= i < |s.keys| && s.keys[i] == 0 ==> RateSteps.Count(s.cells[i].granted, t0, t1) == 0)
    && (forall i :: 0 <= i < |s.keys| && s.keys[i] != 0 ==>
          KeyCount(s.allowed, s.keys[i], t0, t1) == RateSteps.Count(s.cells[i].granted, t0, t1))
    && (forall h :: h > 0 && h !in s.keys ==> KeyCount(s.allowed, h, t0, t1) == 0)
  }

  ghost predicate ClientInv(s: State, t0: nat, t1: nat, p: Params)
    requires p.periodMs > 0 && t0 <= t1
  {
    && Inv(s)
    && (forall w :: 0 <= w < |s.locals| ==> OnOwnSlot(s.keys, s.locals[w]))
    && (forall i :: 0 <= i < |s.cells| ==> CellInv(s.cells[i], t0, t1, p))
    && Tallies(s, t0, t1)
  }

  lemma InitClients(s: State, t0: nat, t1: nat, p: Params)
    requires Accepted(p) && Init(s) && t0 <= t1
    ensures ClientInv(s, t0, t1, p)
  {
    hide Inv, RateSteps.Steady, RateSteps.InBudget;
    InitInv(s);
    forall i | 0 <= i < |s.cells| ensures CellInv(s.cells[i], t0, t1, p) {
      NewCellInv(s.cells[i], t0, t1, p);
    }
  }

  lemma NewCellInv(c: RateSteps.State, t0: nat, t1: nat, p: Params)
    requires Accepted(p) && NewCell(c) && t0 <= t1
    ensures CellInv(c, t0, t1, p)
  {
    hide RateSteps.Steady, RateSteps.InBudget;
    RateSteps.InitSteady(c, p);
    RateSteps.InitBudget(c, t0, t1, p);
  }

  /** One step of a cell. */
  lemma CellStep(c: RateSteps.State, step: RateSteps.Step, t0: nat, t1: nat, p: Params)
    requires Accepted(p) && t0 <= t1 && CellInv(c, t0, t1, p)
    requires RateSteps.Enabled(c, step) && RateSteps.OnTime(c, step, WRAP)
    ensures CellInv(RateSteps.Apply(c, step, p), t0, t1, p)
  {
    hide RateSteps.Steady, RateSteps.InBudget, RateSteps.Apply, RateSteps.OnTime;
    RateSteps.StepKeepsSteady(c, step, p);
    RateSteps.StepKeepsBudget(c, step, t0, t1, p);
  }

  lemma TickKeepsClients(s: State, ms: nat, t0: nat, t1: nat, p: Params)
    requires Accepted(p) && t0 <= t1 && ClientInv(s, t0, t1, p)
    ensures ClientInv(Apply(s, Tick(ms), p), t0, t1, p)
  {
    hide Inv, CellInv;
    SlotInside(s);
    StepKeepsInv(s, Tick(ms), p);
    forall i | 0 <= i < |s.cells| ensures CellInv(Apply(s, Tick(ms), p).cells[i], t0, t1, p) {
      CellStep(s.cells[i], RateSteps.Tick(ms), t0, t1, p);
    }
  }

  /** A call's allowing CAS adds one to its slot's grants and to its key's. */
  lemma SpendKeepsTallies(s: State, w: nat, t0: nat, t1: nat, p: Params)
    requires Accepted(p) && t0 <= t1 && ClientInv(s, t0, t1, p) && Enabled(s, Step.Spend(w))
    ensures Sized(s) && Tallies(Apply(s, Step.Spend(w), p), t0, t1)
  {
    hide CellInv, Chained, LocalInv, RateSteps.Spent, RateSteps.Written, RateSteps.CasWins, KeyCount, RateSteps.Count;
    var l := s.locals[w];
    var c := s.cells[l.index];
    var s' := Apply(s, Step.Spend(w), p);
    assert OnOwnSlot(s.keys, l);
    InvUnique(s);
    if Grants(c, w, p) {
      var at := c.locals[w].now;
      RateSteps.CountPush(c.granted, at, t0, t1);
      forall h ensures KeyCount(s'.allowed, h, t0, t1) == KeyCount(s.allowed, h, t0, t1) + if h == l.h && t0 <= at <= t1 then 1 else 0 {
        KeyCountPush(s.allowed, Grant(l.h, at), h, t0, t1);
      }
      assert s'.cells[l.index].granted == c.granted + [at];
    } else {
      assert s'.cells[l.index].granted == c.granted;
    }
  }

  lemma SpendKeepsClients(s: State, w: nat, t0: nat, t1: nat, p: Params)
    requires Accepted(p) && t0 <= t1 && ClientInv(s, t0, t1, p) && Enabled(s, Step.Spend(w)) && Sized(s) && OnTime(s, Step.Spend(w))
    ensures ClientInv(Apply(s, Step.Spend(w), p), t0, t1, p)
  {
    hide Inv, CellInv, Tallies, RateSteps.Apply, Grants;
    var l := s.locals[w];
    StepKeepsInv(s, Step.Spend(w), p);
    SpendKeepsTallies(s, w, t0, t1, p);
    var c := s.cells[l.index];
    CellStep(c, Inner(c, w), t0, t1, p);
    var s' := Apply(s, Step.Spend(w), p);
    assert forall v :: 0 <= v < |s'.locals| ==> s'.locals[v] == s.locals[v] || s'.locals[v].Idle?;
  }

  /** A claim gives its key a slot that has granted nothing yet. */
  lemma ClaimKeepsClients(s: State, w: nat, t0: nat, t1: nat, p: Params)
    requires Accepted(p) && t0 <= t1 && ClientInv(s, t0, t1, p) && Enabled(s, Claim(w))
    ensures Sized(s) && ClientInv(Apply(s, Claim(w), p), t0, t1, p)
  {
    hide CellInv, Chained, KeyCount, RateSteps.Count, BestIn;
    StepKeepsInv(s, Claim(w), p);
    var l := s.locals[w];
    var i := RateTable.Slot(l.h, |s.keys|, l.q);
    var s' := Apply(s, Claim(w), p);
    assert LocalInv(s.keys, l);
    if s.keys[i] == 0 {
      PassedAbsent(s.keys, l.h, l.q);
      forall d | d > 0 && d !in s'.keys ensures d !in s.keys && d != l.h {
        assert s'.keys[i] == l.h;
        if d in s.keys {
          StillThere(s.keys, i, l.h, d);
        }
      }
      forall v | 0 <= v < |s'.locals| ensures OnOwnSlot(s'.keys, s'.locals[v]) {
        assert OnOwnSlot(s.keys, s.locals[v]);
      }
    }
  }

  lemma StillThere(keys: seq<nat>, i: nat, h: nat, d: nat)
    requires i < |keys| && keys[i] != d && d in keys
    ensures d in keys[i := h]
  {
    var j :| 0 <= j < |keys| && keys[j] == d;
    assert keys[i := h][j] == d;
  }

  /** The steps that touch neither a key nor a cell. */
  lemma ProbeKeepsClients(s: State, step: Step, t0: nat, t1: nat, p: Params)
    requires Accepted(p) && t0 <= t1 && ClientInv(s, t0, t1, p) && Enabled(s, step)
    requires step.Begin? || step.Load? || step.Reread? || step.Age?
    ensures Sized(s) && ClientInv(Apply(s, step, p), t0, t1, p)
  {
    hide Inv, CellInv, AgeOf, RateTable.Slot, KeyCount, RateSteps.Count;
    StepKeepsInv(s, step, p);
    SlotInside(s);
    var s' := Apply(s, step, p);
    ProbeLocal(s, step, p);
    forall v | 0 <= v < |s'.locals| ensures OnOwnSlot(s'.keys, s'.locals[v]) {
      assert OnOwnSlot(s.keys, s.locals[v]);
    }
  }

  lemma ProbeLocal(s: State, step: Step, p: Params)
    requires Inv(s) && Enabled(s, step) && p.periodMs > 0 && (step.Begin? || step.Load? || step.Reread? || step.Age?)
    ensures Sized(s) && OnOwnSlot(s.keys, Apply(s, step, p).locals[step.w])
    ensures Apply(s, step, p) == s.(locals := s.locals[step.w := Apply(s, step, p).locals[step.w]])
  {
    hide Chained, AgeOf, RateTable.Slot, Passed, BestIn;
    assert LocalInv(s.keys, s.locals[step.w]);
  }

  lemma SlotInside(s: State)
    requires Inv(s)
    ensures |s.keys| == |s.cells| > 0 && Sized(s)
  {
  }

  lemma StepKeepsClients(s: State, step: Step, t0: nat, t1: nat, p: Params)
    requires Accepted(p) && t0 <= t1 && ClientInv(s, t0, t1, p) && Enabled(s, step) && Sized(s) && Allowed(s, step, Timely)
    ensures ClientInv(Apply(s, step, p), t0, t1, p)
  {
    hide ClientInv, Apply, OnTime;
    match step
    case Tick(ms) => TickKeepsClients(s, ms, t0, t1, p);
    case Spend(w) => SpendKeepsClients(s, w, t0, t1, p);
    case Claim(w) => ClaimKeepsClients(s, w, t0, t1, p);
    case Begin(_, _) => ProbeKeepsClients(s, step, t0, t1, p);
    case Load(_) => ProbeKeepsClients(s, step, t0, t1, p);
    case Reread(_) => ProbeKeepsClients(s, step, t0, t1, p);
    case Age(_) => ProbeKeepsClients(s, step, t0, t1, p);
  }

  lemma {:induction false} RunKeepsClients(s: State, steps: seq<Step>, t0: nat, t1: nat, p: Params)
    requires Accepted(p) && t0 <= t1 && ClientInv(s, t0, t1, p) && CanRun(s, steps, p) && Goes(s, steps, Timely, p)
    ensures ClientInv(Run(s, steps, p), t0, t1, p)
    decreases |steps|
  {
    hide ClientInv, Apply, Allowed, Sized;
    if steps != [] {
      StepKeepsClients(s, steps[0], t0, t1, p);
      RunKeepsClients(Apply(s, steps[0], p), steps[1..], t0, t1, p);
    }
  }

  /** The rate bound for a client: from a new zone, in every interleaving of whole calls for any keys,
      without evictions and with no CAS 2^32 ms after its stamp, SCALE times what a key is allowed in
      [t0, t1] is at most the burst, plus what the rate earns over the window, plus one unit. */
  lemma ClientBound(s: State, e: State, h: nat, t0: nat, t1: nat, p: Params)
    requires Accepted(p) && Init(s) && Leads(s, e, Timely, p) && h > 0 && t0 <= t1
    ensures SCALE * KeyCount(e.allowed, h, t0, t1) <= p.burstFp + Refill(t1 - t0, p) + 1
  {
    hide Init, CanRun, Run, Goes, ClientInv, Refill;
    var steps :| CanRun(s, steps, p) && Goes(s, steps, Timely, p) && Run(s, steps, p) == e;
    InitClients(s, t0, t1, p);
    RunKeepsClients(s, steps, t0, t1, p);
    ClientWithin(e, h, t0, t1, p);
  }

  lemma ClientWithin(s: State, h: nat, t0: nat, t1: nat, p: Params)
    requires Accepted(p) && h > 0 && t0 <= t1 && ClientInv(s, t0, t1, p)
    ensures SCALE * KeyCount(s.allowed, h, t0, t1) <= RateSteps.Budget(t0, t1, p)
  {
    hide Chained, LocalInv, RateSteps.Steady, RateSteps.WithinBudget, KeyCount, RateSteps.Count, Refill;
    if h in s.keys {
      var i :| 0 <= i < |s.keys| && s.keys[i] == h;
      assert CellInv(s.cells[i], t0, t1, p);
    }
  }
}
