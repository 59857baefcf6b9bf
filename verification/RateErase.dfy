/** What the plain store after an eviction can erase: a late call of the old owner, and the new owner's
    own calls, may already have spent from the victim's bucket. */
module RateErase {
  import opened RateBucket
  import opened RateTable
  import RateSteps
  import RateLate
  import opened RateClaims
  import opened RateClients
  import opened RateRuns

  /** The slot's allowing CASes between two states, whosever they are. */
  function GrantsBetween(a: State, b: State, i: nat): int
    requires i < |a.cells| && i < |b.cells|
  {
    |b.cells[i].granted| - |a.cells[i].granted|
  }

  /** Worker w's eviction CAS is about to win in state a; b lies before its store, no time having passed
      and nobody else evicting; meanwhile the slot allowed k calls, whose decrements the store erases. */
  ghost predicate Erases(a: State, w: nat, b: State, k: nat, p: Params)
    requires p.periodMs > 0
  {
    && Sized(a) && Sized(b) && |b.cells| == |a.cells| && Enabled(a, Evict(w))
    && a.keys[a.locals[w].index] == a.locals[w].key
    && Leads(Apply(a, Evict(w), p), b, Still, p)
    && w < |b.locals| && b.locals[w] == Clearing(a.locals[w].h, a.locals[w].index)
    && GrantsBetween(a, b, a.locals[w].index) == k
  }

  /** Some timely run from a new zone, without an earlier eviction, comes to erase k decrements. */
  ghost predicate CanErase(k: nat, n: nat, p: Params)
    requires p.periodMs > 0
  {
    exists s, a, w, b :: Init(s) && |s.keys| == n && Leads(s, a, Timely, p) && Erases(a, w, b, k, p)
  }

  // ---- no more than the burst and one ----

  predicate CellsInv(s: State, t0: nat, t1: nat, p: Params)
    requires p.periodMs > 0 && t0 <= t1
  {
    Sized(s) && forall i :: 0 <= i < |s.cells| ==> CellInv(s.cells[i], t0, t1, p)
  }

  /** Since state o of the cell, all at moment t: a CAS still to come with an older sample read the word
      before o, and at most one grant had an older sample, the first change of the word. */
  predicate OneLate(o: RateSteps.State, c: RateSteps.State, t: nat) {
    && |o.log| <= |c.log| && c.clock == t
    && (forall v :: 0 <= v < |c.locals| && c.locals[v].AtCas? ==> c.locals[v].now == t || c.locals[v].at <= |o.log|)
    && |c.granted| - |o.granted| <= RateSteps.Count(c.granted, t, t) + if |c.log| > |o.log| then 1 else 0
  }

  /** A grant changes the word, and its worker was up to date. */
  lemma GrantChanges(c: RateSteps.State, v: nat, p: Params)
    requires Accepted(p) && RateSteps.Steady(c, p) && v < |c.locals| && Grants(c, v, p)
    requires RateSteps.OnTime(c, RateSteps.Cas(v), WRAP)
    ensures c.locals[v].at == |c.log| && |RateSteps.Apply(c, RateSteps.Cas(v), p).log| == |c.log| + 1
  {
    hide RateSteps.Word, RateSteps.Spent, RateSteps.Written, Refill, Elapsed;
    RateSteps.NoAba(c, v, p);
    RateSteps.SampleOrder(c, v);
    RateSteps.WriteAdvances(c.bucket, c.locals[v].now, p);
  }

  lemma LateStep(o: RateSteps.State, c: RateSteps.State, step: RateSteps.Step, t: nat, p: Params)
    requires Accepted(p) && RateSteps.Steady(c, p) && OneLate(o, c, t)
    requires !step.Tick? && RateSteps.Enabled(c, step) && RateSteps.OnTime(c, step, WRAP)
    ensures OneLate(o, RateSteps.Apply(c, step, p), t)
  {
    hide RateSteps.Word, RateSteps.Spent, RateSteps.Written, RateSteps.CasWins, RateSteps.Steady, RateSteps.Count;
    if step.Cas? && Grants(c, step.w, p) {
      GrantChanges(c, step.w, p);
      RateSteps.CountPush(c.granted, c.locals[step.w].now, t, t);
    }
  }

  lemma StillKeepsCells(s: State, step: Step, o: RateSteps.State, i: nat, t: nat, p: Params)
    requires Accepted(p) && CellsInv(s, t, t, p) && Enabled(s, step) && Allowed(s, step, Still)
    requires i < |s.cells| && OneLate(o, s.cells[i], t)
    ensures CellsInv(Apply(s, step, p), t, t, p) && |Apply(s, step, p).cells| == |s.cells|
    ensures OneLate(o, Apply(s, step, p).cells[i], t)
  {
    hide CellInv, OneLate, Slot, AgeOf, Grants, RateSteps.Apply;
    StepKeepsSized(s, step, p);
    if step.Spend? {
      var j := s.locals[step.w].index;
      var c := s.cells[j];
      CellStep(c, Inner(c, step.w), t, t, p);
      if j == i {
        CellSteady(c, t, p);
        LateStep(o, c, Inner(c, step.w), t, p);
      }
    }
  }

  lemma CellSteady(c: RateSteps.State, t: nat, p: Params)
    requires p.periodMs > 0 && CellInv(c, t, t, p)
    ensures RateSteps.Steady(c, p)
  {
  }

  lemma {:induction false} StillRunKeepsCells(s: State, steps: seq<Step>, o: RateSteps.State, i: nat, t: nat, p: Params)
    requires Accepted(p) && CellsInv(s, t, t, p) && CanRun(s, steps, p) && Goes(s, steps, Still, p)
    requires i < |s.cells| && OneLate(o, s.cells[i], t)
    ensures CellsInv(Run(s, steps, p), t, t, p) && |Run(s, steps, p).cells| == |s.cells|
    ensures OneLate(o, Run(s, steps, p).cells[i], t)
    decreases |steps|
  {
    hide CellsInv, OneLate, Apply, Allowed, Sized;
    if steps != [] {
      StillKeepsCells(s, steps[0], o, i, t, p);
      StillRunKeepsCells(Apply(s, steps[0], p), steps[1..], o, i, t, p);
    }
  }

  lemma TimelyCells(s: State, a: State, t: nat, p: Params)
    requires Accepted(p) && Init(s) && Leads(s, a, Timely, p)
    ensures CellsInv(a, t, t, p)
  {
    hide Init, CanRun, Run, Goes, Inv, CellInv, Tallies;
    var steps :| CanRun(s, steps, p) && Goes(s, steps, Timely, p) && Run(s, steps, p) == a;
    InitClients(s, t, t, p);
    RunKeepsClients(s, steps, t, t, p);
    SlotInside(a);
  }

  lemma StillCells(a: State, b: State, i: nat, t: nat, p: Params)
    requires Accepted(p) && CellsInv(a, t, t, p) && Leads(a, b, Still, p) && a.clock == t && i < |a.cells|
    ensures CellsInv(b, t, t, p) && |b.cells| == |a.cells| && OneLate(a.cells[i], b.cells[i], t)
  {
    hide CanRun, Run, Goes, CellInv, RateSteps.Count;
    var steps :| CanRun(a, steps, p) && Goes(a, steps, Still, p) && Run(a, steps, p) == b;
    CellReads(a.cells[i], t, p);
    StillRunKeepsCells(a, steps, a.cells[i], i, t, p);
  }

  lemma CellReads(c: RateSteps.State, t: nat, p: Params)
    requires p.periodMs > 0 && CellInv(c, t, t, p)
    ensures forall v :: 0 <= v < |c.locals| && c.locals[v].AtCas? ==> c.locals[v].at <= |c.log|
  {
    forall v | 0 <= v < |c.locals| && c.locals[v].AtCas? ensures c.locals[v].at <= |c.log| {
      assert RateSteps.LocalFresh(c, v);
    }
  }

  /** At one moment a slot grants at most the burst. */
  lemma MomentBound(c: RateSteps.State, t: nat, p: Params)
    requires Accepted(p) && CellInv(c, t, t, p)
    ensures SCALE * RateSteps.Count(c.granted, t, t) <= p.burstFp
  {
    hide RateSteps.Steady, RateSteps.WithinBudget, RateSteps.Count, Refill;
    RateSteps.RefillZero(p);
  }

  lemma ErasesAtMost(s: State, a: State, w: nat, b: State, k: nat, p: Params)
    requires Accepted(p) && Init(s) && Leads(s, a, Timely, p) && Erases(a, w, b, k, p)
    ensures SCALE * k <= p.burstFp + SCALE
  {
    hide Leads, Init, CellInv, RateSteps.Count;
    var i := a.locals[w].index;
    TimelyCells(s, a, a.clock, p);
    StepKeepsSized(a, Evict(w), p);
    assert CellsInv(Apply(a, Evict(w), p), a.clock, a.clock, p);
    StillCells(Apply(a, Evict(w), p), b, i, a.clock, p);
    MomentBound(b.cells[i], a.clock, p);
  }

  // ---- and any number up to it ----

  const QUARTER: nat := 0x4000_0000

  lemma ReadyToUse(p: Params)
    requires Accepted(p)
    ensures SCALE <= p.burstFp < WRAP && 0 < p.periodMs <= 3600000 && p.burstFp % SCALE == 0
  {
  }

  /** Slot 1 is key 1's, its bucket at least j units full or one token short of full. */
  predicate Filling(e: State, n: nat, j: nat, p: Params) {
    && Sized(e) && |e.keys| == n && |e.locals| == 2 && Quiet(e) && e.locals[0].Idle? && e.locals[1].Idle?
    && e.clock == QUARTER * j && (j > 0 ==> e.keys[1] == 1)
    && e.cells[1].bucket.since == e.clock && p.burstFp >= SCALE
    && e.cells[1].bucket.tok <= p.burstFp - SCALE
    && (e.cells[1].bucket.tok >= j || e.cells[1].bucket.tok == p.burstFp - SCALE)
  }

  /** Slots 2 to 32 are unused. */
  predicate Bare(e: State) {
    |e.keys| == |e.cells| >= MIN_SLOTS
    && forall i :: 2 <= i <= PROBE_MAX ==> e.keys[i] == 0 && e.cells[i].bucket == RateSteps.Bucket(0, 0)
  }

  lemma {:induction false} FillsUp(n: nat, j: nat, p: Params) returns (e: State)
    requires n >= MIN_SLOTS && Accepted(p)
    ensures Leads(NewZone(n, 2, 0), e, Timely, p) && Filling(e, n, j, p) && Bare(e)
    ensures j == 0 ==> e == NewZone(n, 2, 0)
  {
    hide Leads, RateSteps.Written, RateSteps.Spent, Accepted, Refill, Elapsed;
    ReadyToUse(p);
    var s := NewZone(n, 2, 0);
    if j == 0 {
      e := s;
      LeadsNowhere(s, Timely, p);
    } else {
      var a := FillsUp(n, j - 1, p);
      LeadsByStep(s, a, Tick(QUARTER), Timely, p);
      var b := Apply(a, Tick(QUARTER), p);
      FirstKey(a, n, j - 1, p);
      assert QUARTER * j == QUARTER * (j - 1) + QUARTER;
      e := Settles(s, b, 1, 1, Timely, p);
      var bucket := b.cells[1].bucket;
      RateLate.ElapsedExact(bucket.since, QUARTER);
      RateLate.Earns(QUARTER, p);
      RateLate.WriteIs(bucket, bucket, b.clock, QUARTER, p);
    }
  }

  lemma FirstKey(e: State, n: nat, j: nat, p: Params)
    requires n >= MIN_SLOTS && Filling(e, n, j, p) && (j == 0 ==> e == NewZone(n, 2, 0))
    ensures e.keys[1] == 0 || e.keys[1] == 1
  {
  }

  predicate Touched(b: RateSteps.Bucket, now: nat) {
    b == RateSteps.Bucket(0, 0) || (b.since == now && b.tok < WRAP)
  }

  lemma TouchFresh(now: nat, p: Params)
    requires Accepted(p)
    ensures Touched(RateSteps.Written(RateSteps.Bucket(0, 0), RateSteps.Bucket(0, 0), now, p), now)
  {
    hide SpendMachine, Refill, Elapsed;
    ReadyToUse(p);
    var b := RateSteps.Bucket(0, 0);
    EmptyWord();
    SpendParts(0, now, p);
  }

  lemma EmptyWord()
    ensures RateSteps.Word(RateSteps.Bucket(0, 0)) == 0 && Tokens(0) == 0
  {
  }

  /** The window of key n + 1: key 1's full bucket, and keys 2 to c written no earlier or not at all. */
  predicate Full(e: State, n: nat, c: nat, since: nat, p: Params) {
    && Sized(e) && c <= PROBE_MAX && |e.keys| == n && |e.locals| == 2 && Quiet(e) && e.locals[0].Idle? && e.locals[1].Idle?
    && p.burstFp >= SCALE && e.cells[1].bucket == RateSteps.Bucket(since, p.burstFp - SCALE)
    && (forall i :: 1 <= i <= c ==> e.keys[i] == i)
    && (forall i :: 2 <= i <= c ==> Touched(e.cells[i].bucket, since))
    && (forall i :: c < i <= PROBE_MAX ==> e.keys[i] == 0 && e.cells[i].bucket == RateSteps.Bucket(0, 0))
  }

  /** Rounds enough to fill any bucket, and to leave a stamp that is not 0. */
  function Rounds(p: Params): (r: nat)
    ensures r > p.burstFp && QUARTER * r % WRAP == QUARTER
  {
    RoundsMod(p.burstFp);
    4 * p.burstFp + 1
  }

  lemma RoundsMod(b: nat)
    ensures QUARTER * (4 * b + 1) % WRAP == QUARTER
  {
    assert QUARTER * (4 * b + 1) == b * WRAP + QUARTER;
    RateSteps.ModPlus(QUARTER, b);
    ModSmall(QUARTER, WRAP);
  }

  lemma {:induction false} FillsWindow(n: nat, c: nat, p: Params) returns (e: State)
    requires n >= MIN_SLOTS && Accepted(p) && 1 <= c <= PROBE_MAX
    ensures Leads(NewZone(n, 2, 0), e, Timely, p) && e.clock == QUARTER * Rounds(p)
    ensures Full(e, n, c, e.clock, p)
  {
    hide Leads, NewZone, RateSteps.Written, RateSteps.Spent, Accepted, Rounds;
    ReadyToUse(p);
    if c == 1 {
      e := FillsUp(n, Rounds(p), p);
      RowOfOne(e, n, p);
    } else {
      var a := FillsWindow(n, c - 1, p);
      e := Settles(NewZone(n, 2, 0), a, 1, c, Timely, p);
      TouchFresh(a.clock, p);
    }
  }

  lemma RowOfOne(e: State, n: nat, p: Params)
    requires Filling(e, n, Rounds(p), p) && Bare(e)
    ensures Full(e, n, 1, e.clock, p)
  {
    hide Rounds, Quiet;
  }

  /** The same slots, a period and a quarter wrap later: key 1 is the oldest. */
  lemma FirstIsOldest(f: State, e: State, n: nat, p: Params)
    requires Accepted(p) && Full(f, n, PROBE_MAX, f.clock, p) && f.clock % WRAP != 0
    requires Sized(e) && e.keys == f.keys && e.clock == f.clock + p.periodMs + QUARTER
    requires forall i :: 0 <= i < |e.cells| ==> e.cells[i].bucket == f.cells[i].bucket
    ensures Occupied(e, n + 1) && Choice(e, n + 1, e.clock, p, PROBE_MAX) == Best(1, p.periodMs + QUARTER, 1)
  {
    hide AgeOf, Slot, Accepted, Occupied, Quiet;
    ReadyToUse(p);
    var age := p.periodMs + QUARTER;
    AgeIs(e, 1, f.clock, age);
    forall i | 1 <= i <= PROBE_MAX ensures AgeOf(e, e.clock, i) <= age {
      if i > 1 {
        TouchedAge(e, i, f.clock, age);
      }
    }
    WindowOccupied(e, n + 1);
    FirstOldest(e, n + 1, e.clock, 0, age, PROBE_MAX, p);
  }

  lemma TouchedAge(e: State, i: nat, since: nat, age: nat)
    requires i < |e.cells| && Touched(e.cells[i].bucket, since) && e.clock == since + age && age < SIGN_BIT
    ensures AgeOf(e, e.clock, i) <= age
  {
    EmptyWord();
    if e.cells[i].bucket != RateSteps.Bucket(0, 0) {
      hide AgeOf;
      AgeIs(e, i, since, age);
    }
  }

  /** A call of key 1 on its slot, up to its CAS. */
  predicate Armed(f: State, e: State) {
    && Sized(f) && Sized(e) && |e.cells| == |f.cells| && |f.locals| == 2 && |f.cells[1].locals| == 2
    && var c := f.cells[1];
       var cas := RateSteps.AtCas(0, |c.log|, |c.log|, c.bucket, f.clock);
       e == f.(locals := f.locals[1 := Spending(1, 1)], cells := f.cells[1 := c.(locals := c.locals[1 := cas])])
  }

  lemma FindsSlot(s: State, f: State, p: Params) returns (e: State)
    requires p.periodMs > 0 && Leads(s, f, Timely, p) && Sized(f)
    requires |f.locals| == 2 && f.locals[1].Idle? && f.keys[1] == 1
    ensures Leads(s, e, Timely, p) && Sized(e) && e == f.(locals := f.locals[1 := Spending(1, 1)])
  {
    hide Leads;
    HomeSlot(|f.keys|, 1);
    hide Slot;
    LeadsByStep(s, f, Begin(1, 1), Timely, p);
    var a := Apply(f, Begin(1, 1), p);
    LeadsByStep(s, a, Load(1), Timely, p);
    e := Apply(a, Load(1), p);
  }

  lemma Arms(s: State, f: State, p: Params) returns (e: State)
    requires p.periodMs > 0 && Leads(s, f, Timely, p) && Sized(f)
    requires |f.locals| == 2 && f.locals[1].Idle? && f.keys[1] == 1 && f.cells[1].locals[1].Idle?
    ensures Leads(s, e, Timely, p) && Armed(f, e)
  {
    hide Leads, RateSteps.Word;
    var b := FindsSlot(s, f, p);
    LeadsByStep(s, b, Step.Spend(1), Timely, p);
    var c := Apply(b, Step.Spend(1), p);
    LeadsByStep(s, c, Step.Spend(1), Timely, p);
    var d := Apply(c, Step.Spend(1), p);
    LeadsByStep(s, d, Step.Spend(1), Timely, p);
    e := Apply(d, Step.Spend(1), p);
    var cell := f.cells[1];
    var cas := RateSteps.AtCas(0, |cell.log|, |cell.log|, cell.bucket, f.clock);
    assert c.cells[1] == cell.(locals := cell.locals[1 := RateSteps.AtLoad(0, |cell.log|)]);
    assert e.cells[1].locals == cell.locals[1 := cas];
    assert e.cells == f.cells[1 := cell.(locals := cell.locals[1 := cas])];
  }

  // ---- between the eviction and the store ----

  /** j calls of the new key have spent from the victim's bucket. */
  predicate Drained(e: State, g: State, h: nat, j: nat, p: Params) {
    && Sized(e) && Sized(g) && |e.cells| == |g.cells| && e.clock == g.clock && e.keys == g.keys && e.keys[1] == h
    && e.locals == g.locals && |e.locals| == 2 && e.locals[0] == Clearing(h, 1) && e.locals[1].Idle?
    && e.cells[1].locals == g.cells[1].locals && |e.cells[1].locals| == 2 && e.cells[1].locals[1].Idle?
    && GrantsBetween(g, e, 1) == j
    && SCALE * j <= p.burstFp
    && (j > 0 ==> e.cells[1].bucket == RateSteps.Bucket(e.clock, p.burstFp - SCALE * j))
    && (j == 0 ==> e == g)
  }

  /** A write within the millisecond of the stamp. */
  lemma WriteNow(b: RateSteps.Bucket, p: Params)
    requires Accepted(p) && SCALE <= b.tok <= p.burstFp
    ensures RateSteps.Spent(b, b.since, p).allow
    ensures RateSteps.Written(b, b, b.since, p) == RateSteps.Bucket(b.since, b.tok - SCALE)
  {
    hide SpendMachine, Refill, Elapsed;
    ReadyToUse(p);
    RateLate.ElapsedExact(b.since, 0);
    RateSteps.RefillZero(p);
    PackRoundTrip(b.since % WRAP, b.tok);
    SpendParts(RateSteps.Word(b), b.since, p);
  }

  lemma WriteFull(b: RateSteps.Bucket, now: nat, p: Params)
    requires Accepted(p) && p.burstFp >= SCALE && b.tok == p.burstFp - SCALE && now == b.since + QUARTER
    ensures RateSteps.Spent(b, now, p).allow
    ensures RateSteps.Written(b, b, now, p) == RateSteps.Bucket(now, p.burstFp - SCALE)
  {
    ReadyToUse(p);
    hide Refill, Elapsed, RateSteps.Spent, RateSteps.Written;
    RateLate.ElapsedExact(b.since, QUARTER);
    RateLate.Earns(QUARTER, p);
    RateLate.FullAgain(b, b, now, QUARTER, p);
  }

  /** A call that finds its key in slot 1. */
  lemma CallsAgain(g: State, e: State, h: nat, p: Params) returns (e': State)
    requires p.periodMs > 0 && Leads(g, e, Still, p) && Sized(e) && h == |e.keys| + 1 && e.keys[1] == h
    requires |e.locals| == 2 && e.locals[1].Idle? && |e.cells[1].locals| == 2 && e.cells[1].locals[1].Idle?
    ensures Leads(g, e', Still, p) && Sized(e') && |e'.cells| == |e.cells|
    ensures var b := e.cells[1].bucket; var c' := e'.cells[1];
            && e' == e.(cells := e.cells[1 := c'], allowed := e'.allowed)
            && c'.bucket == RateSteps.Written(b, b, e.clock, p) && c'.locals == e.cells[1].locals
            && c'.granted == e.cells[1].granted + if RateSteps.Spent(b, e.clock, p).allow then [e.clock] else []
  {
    hide Leads, Slot, RateSteps.Written, RateSteps.Spent;
    RateRuns.Window(|e.keys|, h, 0);
    LeadsByStep(g, e, Begin(1, h), Still, p);
    var a := Apply(e, Begin(1, h), p);
    LeadsByStep(g, a, Load(1), Still, p);
    var b := Apply(a, Load(1), p);
    e' := Spins(g, b, 1, Still, p);
  }

  lemma {:induction false} Drains(s: State, g: State, h: nat, since: nat, j: nat, p: Params) returns (e: State)
    requires Accepted(p) && Drained(g, g, h, 0, p) && h == |g.keys| + 1 && SCALE * j <= p.burstFp
    requires p.burstFp >= SCALE && g.cells[1].bucket == RateSteps.Bucket(since, p.burstFp - SCALE)
    requires g.clock == since + QUARTER && Leads(s, g, Still, p)
    ensures Leads(s, e, Still, p) && Drained(e, g, h, j, p)
  {
    hide Leads, RateSteps.Written, RateSteps.Spent, Accepted;
    ReadyToUse(p);
    if j == 0 {
      e := g;
    } else {
      var a := Drains(s, g, h, since, j - 1, p);
      e := CallsAgain(s, a, h, p);
      if j == 1 {
        WriteFull(a.cells[1].bucket, a.clock, p);
      } else {
        WriteNow(a.cells[1].bucket, p);
      }
    }
  }

  /** The armed call of the old key wins after the eviction, with a sample a quarter wrap old. */
  lemma LateWin(g: State, c: RateSteps.State, since: nat, p: Params) returns (e: State)
    requires Accepted(p) && Sized(g) && |g.locals| == 2 && g.locals[1] == Spending(1, 1) && |c.locals| == 2
    requires p.burstFp >= SCALE && c.bucket == RateSteps.Bucket(since, p.burstFp - SCALE)
    requires g.clock == since + p.periodMs + QUARTER
    requires g.cells[1] == c.(locals := c.locals[1 := RateSteps.AtCas(0, |c.log|, |c.log|, c.bucket, since + p.periodMs)])
    ensures Leads(g, e, Still, p) && Sized(e) && |e.cells| == |g.cells| && |e.cells[1].granted| == |c.granted| + 1
    ensures e == g.(cells := g.cells[1 := e.cells[1]], locals := g.locals[1 := Idle], allowed := e.allowed)
    ensures e.cells[1].locals == c.locals[1 := RateSteps.Idle]
    ensures e.cells[1].bucket == RateSteps.Bucket(since + p.periodMs, p.burstFp - SCALE)
  {
    hide Leads, RateSteps.Written, RateSteps.Spent, RateSteps.Word, Refill, Elapsed;
    ReadyToUse(p);
    LeadsNowhere(g, Still, p);
    LeadsByStep(g, g, Step.Spend(1), Still, p);
    RateLate.ElapsedExact(since, p.periodMs);
    RateLate.Earns(p.periodMs, p);
    RateLate.FullAgain(c.bucket, c.bucket, since + p.periodMs, p.periodMs, p);
    e := Apply(g, Step.Spend(1), p);
  }

  /** Up to the eviction: key 1's bucket is full, its call armed one period on, and a quarter wrap later
      key n + 1 has picked its slot. */
  lemma Prepares(n: nat, p: Params) returns (a: State, f: State)
    requires n >= MIN_SLOTS && Accepted(p)
    ensures Leads(NewZone(n, 2, 0), a, Timely, p) && Sized(a) && |a.keys| == n && a.keys[1] == 1
    ensures a.locals == [Evicting(n + 1, 1, 1), Spending(1, 1)]
    ensures p.burstFp >= SCALE && a.clock == f.clock + QUARTER && Sized(f) && |f.cells| == n && |f.cells[1].locals| == 2
    ensures f.clock >= p.periodMs
    ensures f.cells[1].bucket == RateSteps.Bucket(f.clock - p.periodMs, p.burstFp - SCALE)
    ensures f.cells[1].locals[1].Idle?
    ensures var c := f.cells[1].(clock := a.clock);
            a.cells[1] == c.(locals := c.locals[1 := RateSteps.AtCas(0, |c.log|, |c.log|, c.bucket, f.clock)])
  {
    hide Leads, NewZone, Choice, Occupied, Accepted, AgeOf, Rounds;
    ReadyToUse(p);
    var s := NewZone(n, 2, 0);
    var full := FillsWindow(n, PROBE_MAX, p);
    LeadsByStep(s, full, Tick(p.periodMs), Timely, p);
    f := Apply(full, Tick(p.periodMs), p);
    var armed := Arms(s, f, p);
    LeadsByStep(s, armed, Tick(QUARTER), Timely, p);
    var e := Apply(armed, Tick(QUARTER), p);
    FirstIsOldest(full, e, n, p);
    a := Picks(s, e, 0, n + 1, Timely, p);
  }

  lemma ErasesUpTo(k: nat, n: nat, p: Params) returns (s: State, a: State, b: State)
    requires n >= MIN_SLOTS && Accepted(p) && SCALE * k <= p.burstFp + SCALE
    ensures Init(s) && |s.keys| == n && Leads(s, a, Timely, p) && Erases(a, 0, b, k, p)
  {
    hide Leads, NewZone, Init, Accepted;
    ReadyToUse(p);
    s := NewZone(n, 2, 0);
    var f: State;
    a, f := Prepares(n, p);
    StepKeepsSized(a, Evict(0), p);
    var g := Apply(a, Evict(0), p);
    if k == 0 {
      b := g;
      LeadsNowhere(g, Still, p);
    } else {
      var late := LateWin(g, f.cells[1].(clock := a.clock), f.clock - p.periodMs, p);
      b := Drains(g, late, n + 1, f.clock, k - 1, p);
    }
  }

  /** For every table size and accepted rule, and with the clock standing still: the store can erase
      any number of decrements up to a whole burst and one more, and no more than that. */
  lemma CanEraseIff(k: nat, n: nat, p: Params)
    requires n >= MIN_SLOTS && Accepted(p)
    ensures CanErase(k, n, p) <==> SCALE * k <= p.burstFp + SCALE
  {
    hide Leads, Init, Erases, Accepted;
    ReadyToUse(p);
    if CanErase(k, n, p) {
      var s, a, w, b :| Init(s) && |s.keys| == n && Leads(s, a, Timely, p) && Erases(a, w, b, k, p);
      ErasesAtMost(s, a, w, b, k, p);
    }
    if SCALE * k <= p.burstFp + SCALE {
      var s, a, b := ErasesUpTo(k, n, p);
    }
  }
}
