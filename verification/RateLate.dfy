/** How late a CAS may come for the rate bound to hold: exactly the stamp's own wrap. */
module RateLate {
  import opened RateBucket
  import opened RateSteps

  /** Some run whose CASes all come less than d ms after the stamp they read, or with no write
      since, leads from s to e. */
  ghost predicate Leads(s: State, e: State, d: nat, p: Params)
    requires p.periodMs > 0
  {
    exists steps :: CanRun(s, steps, p) && RunsOnTime(s, steps, d, p) && Run(s, steps, p) == e
  }

  /** The rate bound at lateness d, over all starts, runs and windows. */
  ghost predicate BoundHolds(d: nat, p: Params)
    requires p.periodMs > 0
  {
    forall s, e, t0: nat, t1: nat :: Init(s, p) && Leads(s, e, d, p) && t0 <= t1 ==>
      SCALE * Count(e.granted, t0, t1) <= Budget(t0, t1, p)
  }

  // ---- putting runs together ----

  lemma LeadsNowhere(s: State, d: nat, p: Params)
    requires p.periodMs > 0
    ensures Leads(s, s, d, p)
  {
    assert Run(s, [], p) == s && RunsOnTime(s, [], d, p);
  }

  lemma {:induction false} RunConcat(s: State, a: seq<Step>, b: seq<Step>, d: nat, p: Params)
    requires p.periodMs > 0 && CanRun(s, a, p) && RunsOnTime(s, a, d, p)
    requires CanRun(Run(s, a, p), b, p) && RunsOnTime(Run(s, a, p), b, d, p)
    ensures CanRun(s, a + b, p) && RunsOnTime(s, a + b, d, p)
    ensures Run(s, a + b, p) == Run(Run(s, a, p), b, p)
    decreases |a|
  {
    hide Apply, OnTime;
    if a == [] {
      assert a + b == b;
    } else {
      assert (a + b)[1..] == a[1..] + b;
      RunConcat(Apply(s, a[0], p), a[1..], b, d, p);
    }
  }

  lemma LeadsOn(s: State, m: State, e: State, d: nat, p: Params)
    requires p.periodMs > 0 && Leads(s, m, d, p) && Leads(m, e, d, p)
    ensures Leads(s, e, d, p)
  {
    hide Run, CanRun, RunsOnTime;
    var a :| CanRun(s, a, p) && RunsOnTime(s, a, d, p) && Run(s, a, p) == m;
    var b :| CanRun(m, b, p) && RunsOnTime(m, b, d, p) && Run(m, b, p) == e;
    RunConcat(s, a, b, d, p);
  }

  lemma LeadsByStep(s: State, e: State, step: Step, d: nat, p: Params)
    requires p.periodMs > 0 && Leads(s, e, d, p) && Enabled(e, step) && OnTime(e, step, d)
    ensures Leads(s, Apply(e, step, p), d, p)
  {
    hide Leads;
    OneStep(e, step, d, p);
    LeadsOn(s, e, Apply(e, step, p), d, p);
  }

  lemma OneStep(e: State, step: Step, d: nat, p: Params)
    requires p.periodMs > 0 && Enabled(e, step) && OnTime(e, step, d)
    ensures Leads(e, Apply(e, step, p), d, p)
  {
    hide Apply;
    var steps := [step];
    assert steps[1..] == [];
    assert CanRun(e, steps, p) && RunsOnTime(e, steps, d, p) && Run(e, steps, p) == Apply(e, step, p);
  }

  /** A worker reads the word and samples the clock. */
  lemma Reads(s: State, e: State, w: nat, d: nat, p: Params) returns (e': State)
    requires p.periodMs > 0 && Leads(s, e, d, p) && w < |e.locals| && e.locals[w].Idle?
    ensures Leads(s, e', d, p)
    ensures e' == e.(locals := e.locals[w := AtCas(0, |e.log|, |e.log|, e.bucket, e.clock)])
  {
    hide Leads;
    LeadsByStep(s, e, Begin(w), d, p);
    var a := Apply(e, Begin(w), p);
    LeadsByStep(s, a, Load(w), d, p);
    var b := Apply(a, Load(w), p);
    LeadsByStep(s, b, Sample(w), d, p);
    e' := Apply(b, Sample(w), p);
  }

  /** A whole call of worker w while nobody else moves. */
  lemma Calls(s: State, e: State, w: nat, d: nat, p: Params) returns (e': State)
    requires p.periodMs > 0 && Leads(s, e, d, p) && w < |e.locals| && e.locals[w].Idle?
    ensures Leads(s, e', d, p) && e'.clock == e.clock && e'.locals == e.locals
    ensures e'.bucket == Written(e.bucket, e.bucket, e.clock, p)
    ensures e'.granted == if Spent(e.bucket, e.clock, p).allow then e.granted + [e.clock] else e.granted
  {
    hide Leads, Word, Spent, Written;
    var b := Reads(s, e, w, d, p);
    LeadsByStep(s, b, Cas(w), d, p);
    e' := Apply(b, Cas(w), p);
  }

  lemma Waits(s: State, e: State, ms: nat, d: nat, p: Params) returns (e': State)
    requires p.periodMs > 0 && Leads(s, e, d, p)
    ensures Leads(s, e', d, p) && e' == e.(clock := e.clock + ms)
  {
    LeadsByStep(s, e, Tick(ms), d, p);
    e' := Apply(e, Tick(ms), p);
  }

  // ---- a bucket kept full ----

  /** What a write leaves once something was earned since the stamp it read. */
  lemma WriteIs(b: Bucket, seen: Bucket, now: nat, e: nat, p: Params)
    requires Accepted(p) && seen.tok <= p.burstFp && seen.since <= now
    requires e == Elapsed(now, seen.since % WRAP) && Refill(e, p) > 0
    ensures var tok := Min(seen.tok + Refill(e, p), p.burstFp);
            && Spent(seen, now, p).allow == (tok >= SCALE)
            && Written(b, seen, now, p) == Bucket(now, if tok >= SCALE then tok - SCALE else tok)
  {
    hide Refill, Elapsed, SpendMachine;
    PackRoundTrip(seen.since % WRAP, seen.tok);
    SpendParts(Word(seen), now, p);
  }

  /** A bucket one token short of full that earned a token: a grant, and one token short again. */
  lemma FullAgain(b: Bucket, seen: Bucket, now: nat, e: nat, p: Params)
    requires Accepted(p) && seen.tok == p.burstFp - SCALE && seen.since <= now
    requires e == Elapsed(now, seen.since % WRAP) && Refill(e, p) >= SCALE
    ensures Spent(seen, now, p).allow && Written(b, seen, now, p) == Bucket(now, p.burstFp - SCALE)
  {
    hide Refill, Elapsed, Spent, Written;
    BurstHasToken(p);
    WriteIs(b, seen, now, e, p);
  }

  lemma BurstHasToken(p: Params)
    requires Accepted(p)
    ensures p.burstFp >= SCALE
  {
  }

  lemma ElapsedExact(since: nat, e: nat)
    requires e < WRAP
    ensures Elapsed(since + e, since % WRAP) == e
  {
    hide Elapsed;
    ElapsedIs(since + e, since);
    ModSmall(e, WRAP);
  }

  /** Over a period or more every accepted rule earns a token, over half a wrap two. */
  lemma Earns(e: nat, p: Params)
    requires Accepted(p) && e >= p.periodMs
    ensures Refill(e, p) >= SCALE
    ensures e >= 2 * p.periodMs ==> Refill(e, p) >= 2 * SCALE
  {
    hide Refill;
    WholePeriods(1, p);
    WholePeriods(2, p);
    RefillMonotone(p.periodMs, e, p);
    if e >= 2 * p.periodMs {
      RefillMonotone(2 * p.periodMs, e, p);
    }
  }

  lemma WholePeriods(n: nat, p: Params)
    requires Accepted(p)
    ensures Refill(n * p.periodMs, p) == n * p.rateFp >= n * SCALE
  {
    AddMultiple(n * p.rateFp, 0, p.periodMs);
    assert n * p.periodMs * p.rateFp == n * p.rateFp * p.periodMs;
    ScaleUp(SCALE, p.rateFp, n);
  }

  const HALF: nat := 0x8000_0000

  /** A slot as a claim leaves it: the unwritten word, n idle workers. */
  function Fresh(n: nat): (s: State)
    ensures |s.locals| == n && forall w :: 0 <= w < n ==> s.locals[w].Idle?
  {
    State(0, Bucket(0, 0), seq(n, _ => Idle), [], 0, [])
  }

  /** One call every half wrap fills the bucket a token at a time at least. */
  lemma {:induction false} Fills(n: nat, j: nat, d: nat, p: Params) returns (e: State)
    requires Accepted(p) && n > 0
    ensures Leads(Fresh(n), e, d, p) && e.locals == Fresh(n).locals
    ensures e.clock == e.bucket.since == HALF * j
    ensures e.bucket.tok <= p.burstFp - SCALE && (e.bucket.tok >= j || e.bucket.tok == p.burstFp - SCALE)
  {
    hide Leads, Refill, Elapsed, Spent, Written;
    BurstHasToken(p);
    if j == 0 {
      e := Fresh(n);
      LeadsNowhere(e, d, p);
    } else {
      var a := Fills(n, j - 1, d, p);
      var b := Waits(Fresh(n), a, HALF, d, p);
      assert HALF * j == HALF * (j - 1) + HALF;
      ElapsedExact(a.clock, HALF);
      Earns(HALF, p);
      WriteIs(a.bucket, a.bucket, b.clock, HALF, p);
      e := Calls(Fresh(n), b, 0, d, p);
    }
  }

  // ---- the bad run ----

  /** Workers 1 to k hold what they read and sampled at this state; worker 0 and the rest idle. */
  predicate Armed(e: State, k: nat, seen: Bucket, now: nat) {
    && k < |e.locals| && e.locals[0].Idle?
    && (forall w :: 1 <= w <= k ==> e.locals[w].AtCas? && e.locals[w].seen == seen && e.locals[w].now == now)
    && (forall w :: k < w < |e.locals| ==> e.locals[w].Idle?)
  }

  lemma {:induction false} Arms(mid: State, k: nat, d: nat, p: Params) returns (e: State)
    requires p.periodMs > 0 && k < |mid.locals| && forall w :: 0 <= w < |mid.locals| ==> mid.locals[w].Idle?
    ensures Leads(mid, e, d, p) && Armed(e, k, mid.bucket, mid.clock)
    ensures e.clock == mid.clock && e.bucket == mid.bucket && |e.locals| == |mid.locals|
  {
    hide Leads;
    if k == 0 {
      e := mid;
      LeadsNowhere(e, d, p);
    } else {
      var a := Arms(mid, k - 1, d, p);
      e := Reads(mid, a, k, d, p);
    }
  }

  /** The stale sample all late workers hold, and the word they hold it for, written again exactly
      2^32 ms later. */
  predicate Returned(e: State, k: nat, since: nat, now: nat, p: Params)
    requires Accepted(p)
  {
    && now == since + (WRAP - p.periodMs) && e.clock == since + WRAP
    && p.burstFp >= SCALE && e.bucket == Bucket(since + WRAP, p.burstFp - SCALE)
    && Armed(e, k, Bucket(since, p.burstFp - SCALE), now)
  }

  /** The word comes back: two calls one period apart by the one worker on time. */
  lemma ComesBack(mid: State, k: nat, since: nat, d: nat, p: Params) returns (e: State)
    requires Accepted(p) && k < |mid.locals| && forall w :: 0 <= w < |mid.locals| ==> mid.locals[w].Idle?
    requires p.burstFp >= SCALE && mid.bucket == Bucket(since, p.burstFp - SCALE)
    requires mid.clock == since + (WRAP - p.periodMs)
    ensures Leads(mid, e, d, p) && Returned(e, k, since, mid.clock, p)
  {
    hide Leads, Refill, Elapsed, Spent, Written;
    var a := Arms(mid, k, d, p);
    ElapsedExact(since, WRAP - p.periodMs);
    Earns(WRAP - p.periodMs, p);
    FullAgain(a.bucket, a.bucket, a.clock, WRAP - p.periodMs, p);
    var b := Calls(mid, a, 0, d, p);
    e := FullOneLater(mid, b, d, p);
  }

  /** One period later the full bucket is one token short again, stamped with the new moment. */
  lemma FullOneLater(mid: State, b: State, d: nat, p: Params) returns (e: State)
    requires Accepted(p) && Leads(mid, b, d, p) && |b.locals| > 0 && b.locals[0].Idle? && p.burstFp >= SCALE
    requires b.bucket == Bucket(b.clock, p.burstFp - SCALE)
    ensures Leads(mid, e, d, p) && e.locals == b.locals && e.clock == b.clock + p.periodMs
    ensures e.bucket == Bucket(e.clock, p.burstFp - SCALE)
  {
    hide Leads, Refill, Elapsed, Spent, Written;
    var c := Waits(mid, b, p.periodMs, d, p);
    ElapsedExact(b.clock, p.periodMs);
    Earns(p.periodMs, p);
    FullAgain(c.bucket, c.bucket, c.clock, p.periodMs, p);
    e := Calls(mid, c, 0, d, p);
  }

  /** One late CAS wins, is granted from a sample long spent, and an ordinary call puts the word
      back for the next one. */
  lemma LateGrant(mid: State, e: State, k: nat, since: nat, now: nat, d: nat, p: Params) returns (e': State)
    requires Accepted(p) && d > WRAP && k > 0 && Leads(mid, e, d, p) && Returned(e, k, since, now, p)
    ensures Leads(mid, e', d, p) && Returned(e', k - 1, since, now, p)
    ensures Count(e'.granted, now, since + WRAP) >= Count(e.granted, now, since + WRAP) + 1
  {
    hide Leads, Refill, Elapsed, Spent, Written, Word, Count;
    var seen := Bucket(since, p.burstFp - SCALE);
    SameWord(since, seen.tok);
    ElapsedExact(since, WRAP - p.periodMs);
    Earns(WRAP - p.periodMs, p);
    FullAgain(e.bucket, seen, now, WRAP - p.periodMs, p);
    LeadsByStep(mid, e, Cas(k), d, p);
    var a := Apply(e, Cas(k), p);
    CountPush(e.granted, now, now, since + WRAP);
    ElapsedExact(now, p.periodMs);
    Earns(p.periodMs, p);
    FullAgain(a.bucket, a.bucket, a.clock, p.periodMs, p);
    e' := Calls(mid, a, 0, d, p);
    CountPush(a.granted, since + WRAP, now, since + WRAP);
  }

  lemma SameWord(since: nat, tok: nat)
    ensures Word(Bucket(since + WRAP, tok)) == Word(Bucket(since, tok))
  {
  }

  lemma {:induction false} LateGrants(mid: State, e: State, k: nat, since: nat, now: nat, d: nat, p: Params)
    returns (e': State)
    requires Accepted(p) && d > WRAP && Leads(mid, e, d, p) && Returned(e, k, since, now, p)
    ensures Leads(mid, e', d, p) && e'.clock == since + WRAP
    ensures Count(e'.granted, now, since + WRAP) >= Count(e.granted, now, since + WRAP) + k
    decreases k
  {
    hide Leads, Count;
    if k == 0 {
      e' := e;
    } else {
      var a := LateGrant(mid, e, k, since, now, d, p);
      e' := LateGrants(mid, a, k - 1, since, now, d, p);
    }
  }

  /** Whatever the rule, once a CAS may come 2^32 ms after the stamp it read the bound is lost: from
      an unwritten slot, through a moment when no call is under way, a run whose further calls all
      fall within one period grants more than the period's budget. */
  lemma LateBreaksTheBound(d: nat, p: Params) returns (s: State, mid: State, e: State)
    requires Accepted(p) && d > WRAP
    ensures Init(s, p) && Word(s.bucket) == 0 && Leads(s, mid, d, p) && Leads(mid, e, d, p)
    ensures forall w :: 0 <= w < |mid.locals| ==> mid.locals[w].Idle?
    ensures e.clock == mid.clock + p.periodMs
    ensures SCALE * Count(e.granted, mid.clock, e.clock) > Budget(mid.clock, e.clock, p)
  {
    hide Leads, Refill, Count;
    var k: nat := p.burstFp + Refill(p.periodMs, p) + 1;
    s := Fresh(k + 1);
    BurstHasToken(p);
    var full := Fills(k + 1, p.burstFp, d, p);
    var since := full.clock;
    mid := Waits(s, full, WRAP - p.periodMs, d, p);
    var a := ComesBack(mid, k, since, d, p);
    e := LateGrants(mid, a, k, since, mid.clock, d, p);
  }

  /** The bound, at any lateness up to the wrap. */
  lemma {:induction false} EarlierIsOnTime(s: State, steps: seq<Step>, d: nat, p: Params)
    requires p.periodMs > 0 && d <= WRAP && CanRun(s, steps, p) && RunsOnTime(s, steps, d, p)
    ensures RunsOnTime(s, steps, WRAP, p)
    decreases |steps|
  {
    hide Apply;
    if steps != [] {
      EarlierIsOnTime(Apply(s, steps[0], p), steps[1..], d, p);
    }
  }

  /** For every accepted rule the rate bound tolerates exactly the lateness of the stamp's wrap. */
  lemma BoundHoldsIff(d: nat, p: Params)
    requires Accepted(p)
    ensures BoundHolds(d, p) <==> d <= WRAP
  {
    hide CanRun, Run, RunsOnTime, Count, Refill;
    if d <= WRAP {
      forall s, e, t0: nat, t1: nat | Init(s, p) && Leads(s, e, d, p) && t0 <= t1
        ensures SCALE * Count(e.granted, t0, t1) <= Budget(t0, t1, p)
      {
        var steps :| CanRun(s, steps, p) && RunsOnTime(s, steps, d, p) && Run(s, steps, p) == e;
        EarlierIsOnTime(s, steps, d, p);
        RateBound(s, steps, t0, t1, p);
      }
    } else {
      var s, mid, e := LateBreaksTheBound(d, p);
      LeadsOn(s, mid, e, d, p);
    }
  }
}
