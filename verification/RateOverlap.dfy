/** How many calls for one key may overlap for the key to keep a single slot: one. */
module RateOverlap {
  import opened RateBucket
  import opened RateTable
  import RateSteps
  import RateLate
  import opened RateClaims
  import opened RateRuns

  /** Slots 1 to c belong to keys 1 to c and were written at moment t; the window's rest is unused. */
  predicate Row(e: State, n: nat, c: nat, t: nat, p: Params) {
    && Sized(e) && |e.keys| == n && c <= PROBE_MAX && Quiet(e)
    && (forall i :: 1 <= i <= c ==> e.keys[i] == i && Stamped(e.cells[i], t, p))
    && (forall i :: c < i <= PROBE_MAX ==> e.keys[i] == 0 && e.cells[i].bucket == RateSteps.Bucket(0, 0))
  }

  predicate Stamped(c: RateSteps.State, t: nat, p: Params) {
    c.bucket.since == t && c.bucket.tok < WRAP
  }

  /** A touch that earns something carries the clock as its stamp. */
  lemma TouchStamps(b: RateSteps.Bucket, now: nat, e: nat, p: Params)
    requires Accepted(p) && b.tok <= p.burstFp && now == b.since + e && p.periodMs <= e < WRAP
    ensures RateSteps.Written(b, b, now, p).since == now && RateSteps.Written(b, b, now, p).tok < WRAP
    ensures RateSteps.Written(b, b, now, p).tok <= p.burstFp
  {
    hide RateSteps.Written, RateSteps.Spent, Refill, Elapsed;
    RateLate.ElapsedExact(b.since, e);
    RateLate.Earns(e, p);
    RateLate.WriteIs(b, b, now, e, p);
    BurstFits(p);
  }

  lemma BurstFits(p: Params)
    requires Accepted(p)
    ensures SCALE <= p.burstFp < WRAP && 0 < p.periodMs <= 3600000
  {
  }

  lemma {:induction false} Fills(n: nat, c: nat, p: Params) returns (e: State)
    requires n >= MIN_SLOTS && Accepted(p) && c <= PROBE_MAX
    ensures Leads(NewZone(n, 2, p.periodMs), e, Any, p) && Row(e, n, c, p.periodMs, p)
    ensures e.clock == p.periodMs && e.locals == NewZone(n, 2, p.periodMs).locals
    ensures forall i :: 1 <= i <= c ==> e.cells[i].bucket.tok <= p.burstFp
  {
    hide Leads, NewZone, RateSteps.Written, RateSteps.Spent, Accepted;
    BurstFits(p);
    var s := NewZone(n, 2, p.periodMs);
    if c == 0 {
      e := s;
      LeadsNowhere(s, Any, p);
    } else {
      var a := Fills(n, c - 1, p);
      e := Settles(s, a, 1, c, Any, p);
      TouchStamps(RateSteps.Bucket(0, 0), p.periodMs, p.periodMs, p);
    }
  }

  /** One period past the floor all 32 slots are stale: key n + 1 would evict the first. */
  lemma AllStale(e: State, n: nat, p: Params)
    requires Row(e, n, PROBE_MAX, p.periodMs, p) && Accepted(p) && e.clock == 2 * p.periodMs + 1
    ensures Occupied(e, n + 1)
    ensures Choice(e, n + 1, e.clock, p, PROBE_MAX) == Best(1, p.periodMs + 1, 1)
  {
    hide AgeOf, Slot, Accepted, Occupied;
    BurstFits(p);
    ModSmall(p.periodMs, WRAP);
    forall i | 1 <= i <= PROBE_MAX ensures AgeOf(e, e.clock, i) == p.periodMs + 1 {
      AgeIs(e, i, p.periodMs, p.periodMs + 1);
    }
    WindowOccupied(e, n + 1);
    FirstOldest(e, n + 1, e.clock, 0, p.periodMs + 1, PROBE_MAX, p);
  }

  /** Once the first has been written again, the second. */
  lemma RestStale(e: State, d: State, n: nat, p: Params)
    requires Row(e, n, PROBE_MAX, p.periodMs, p) && Accepted(p) && e.clock == d.clock == 2 * p.periodMs + 1
    requires Sized(d) && d.keys == e.keys && Stamped(d.cells[1], d.clock, p)
    requires forall i :: 2 <= i <= PROBE_MAX ==> d.cells[i].bucket == e.cells[i].bucket
    ensures Occupied(d, n + 1)
    ensures Choice(d, n + 1, d.clock, p, PROBE_MAX) == Best(2, p.periodMs + 1, 2)
  {
    hide AgeOf, Slot, Accepted, Occupied;
    BurstFits(p);
    ModSmall(p.periodMs, WRAP);
    AgeIs(d, 1, d.clock, 0);
    forall i | 2 <= i <= PROBE_MAX ensures AgeOf(d, d.clock, i) == p.periodMs + 1 {
      AgeIs(d, i, p.periodMs, p.periodMs + 1);
    }
    WindowOccupied(d, n + 1);
    FirstOldest(d, n + 1, d.clock, 1, p.periodMs + 1, PROBE_MAX, p);
  }

  /** For every table size and accepted rule: two workers serving the same new key pick different
      victims, because the first victim is written between their probes, and both evictions win. */
  lemma TwoSlotsForOneKey(n: nat, p: Params) returns (s: State, e: State)
    requires n >= MIN_SLOTS && Accepted(p)
    ensures Init(s) && |s.keys| == n && |s.locals| == 2 && Leads(s, e, Any, p)
    ensures |e.keys| == n && e.keys[1] == e.keys[2] == n + 1
  {
    hide Leads, NewZone, Choice, Occupied, RateSteps.Written, RateSteps.Spent, Accepted, AgeOf, Init;
    BurstFits(p);
    s := NewZone(n, 2, p.periodMs);
    var a := Fills(n, PROBE_MAX, p);
    LeadsByStep(s, a, Tick(p.periodMs + 1), Any, p);
    var b := Apply(a, Tick(p.periodMs + 1), p);
    AllStale(b, n, p);
    var c := Picks(s, b, 0, n + 1, Any, p);
    var d := Settles(s, c, 1, 1, Any, p);
    TouchStamps(b.cells[1].bucket, b.clock, p.periodMs + 1, p);
    RestStale(b, d, n, p);
    var f := Picks(s, d, 1, n + 1, Any, p);
    e := BothEvict(s, f, n, p);
  }

  lemma BothEvict(s: State, f: State, n: nat, p: Params) returns (e: State)
    requires p.periodMs > 0 && Leads(s, f, Any, p) && Sized(f) && |f.keys| == n
    requires f.locals == [Evicting(n + 1, 1, 1), Evicting(n + 1, 2, 2)] && f.keys[1] == 1 && f.keys[2] == 2
    ensures Leads(s, e, Any, p) && |e.keys| == n && e.keys[1] == e.keys[2] == n + 1
  {
    hide Leads;
    LeadsByStep(s, f, Evict(0), Any, p);
    var g := Apply(f, Evict(0), p);
    LeadsByStep(s, g, Evict(1), Any, p);
    e := Apply(g, Evict(1), p);
  }

  // ---- exactly one ----

  lemma {:induction false} CallsBound(locals: seq<Local>, h: nat)
    ensures Calls(locals, h) <= |locals|
  {
    if locals != [] {
      CallsBound(locals[..|locals| - 1], h);
    }
  }

  lemma {:induction false} FewWorkers(s: State, steps: seq<Step>, k: nat, p: Params)
    requires p.periodMs > 0 && CanRun(s, steps, p) && |s.locals| <= k
    ensures RunsWithin(s, steps, k, p)
    decreases |steps|
  {
    hide Apply, Calls;
    forall h ensures Calls(s.locals, h) <= k {
      CallsBound(s.locals, h);
    }
    if steps != [] {
      StepKeepsSized(s, steps[0], p);
      FewWorkers(Apply(s, steps[0], p), steps[1..], k, p);
    }
  }

  /** For every table size and accepted rule, over all runs with evictions, a key keeps a single slot
      exactly when no two calls for one key may overlap. */
  lemma OneSlotHoldsIff(k: nat, n: nat, p: Params)
    requires n >= MIN_SLOTS && Accepted(p)
    ensures OneSlotHolds(k, n, p) <==> k <= 1
  {
    hide Run, CanRun, Goes, Init, RunsWithin, Accepted;
    BurstFits(p);
    if k <= 1 {
      OneCallOneSlot(k, n, p);
    } else {
      var s, e := TwoSlotsForOneKey(n, p);
      var steps :| CanRun(s, steps, p) && Goes(s, steps, Any, p) && Run(s, steps, p) == e;
      FewWorkers(s, steps, k, p);
      assert !Unique(e.keys);
    }
  }
}
