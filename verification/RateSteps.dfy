/** The bounded CAS loop of rate_check as a step machine: any number of workers on one slot that
    is not evicted, one rule, one clock that never runs back. Times are kept unwrapped beside
    the 32-bit stamps the code stores. */
module RateSteps {
  import opened RateBucket

  const CAS_MAX: nat := 16

  /** The slot's word with its real stamp time; what memory holds is Word(b). */
  datatype Bucket = Bucket(since: nat, tok: nat)

  function Word(b: Bucket): nat {
    Pack(b.since % WRAP, b.tok)
  }

  /** A worker: `base` and `at` are lengths of the write log when its call began and when it
      read `seen`; `now` is its clock sample. */
  datatype Local =
    | Idle
    | AtLoad(tries: nat, base: nat)
    | AtClock(tries: nat, base: nat, at: nat, seen: Bucket)
    | AtCas(tries: nat, base: nat, at: nat, seen: Bucket, now: nat)
    | Starved(base: nat)

  /** `log` lists the writer of every change of the word, `last` is the latest clock sample
      behind a change, `granted` the samples of the allowing CASes in order. */
  datatype State = State(clock: nat, bucket: Bucket, locals: seq<Local>,
                         log: seq<nat>, last: nat, granted: seq<nat>)

  datatype Step = Tick(ms: nat) | Begin(w: nat) | Load(w: nat) | Sample(w: nat) | Cas(w: nat) | Leave(w: nat)

  predicate Enabled(s: State, step: Step) {
    match step
    case Tick(_) => true
    case Begin(w) => w < |s.locals| && s.locals[w].Idle?
    case Load(w) => w < |s.locals| && s.locals[w].AtLoad?
    case Sample(w) => w < |s.locals| && s.locals[w].AtClock?
    case Cas(w) => w < |s.locals| && s.locals[w].AtCas?
    case Leave(w) => w < |s.locals| && s.locals[w].Starved?
  }

  /** The CAS finds the word it read: the write happens, and the call ends. */
  predicate CasWins(s: State, w: nat)
    requires Enabled(s, Cas(w))
  {
    Word(s.bucket) == Word(s.locals[w].seen)
  }

  function Spent(seen: Bucket, now: nat, p: Params): Spend
    requires p.periodMs > 0
  {
    SpendMachine(Word(seen), now, p)
  }

  /** The bucket after writing the spent word: a refill that earned something carries the
      sample as its stamp, any other write leaves the stamp alone. */
  function Written(b: Bucket, seen: Bucket, now: nat, p: Params): Bucket
    requires p.periodMs > 0
  {
    var since := if Refill(Elapsed(now, seen.since % WRAP), p) > 0 then now else b.since;
    Bucket(since, Tokens(Spent(seen, now, p).word))
  }

  function Apply(s: State, step: Step, p: Params): (s': State)
    requires p.periodMs > 0 && Enabled(s, step)
    ensures |s'.locals| == |s.locals|
  {
    match step
    case Tick(ms) => s.(clock := s.clock + ms)
    case Begin(w) => s.(locals := s.locals[w := AtLoad(0, |s.log|)])
    case Load(w) =>
      var l := s.locals[w];
      s.(locals := s.locals[w := AtClock(l.tries, l.base, |s.log|, s.bucket)])
    case Sample(w) =>
      var l := s.locals[w];
      s.(locals := s.locals[w := AtCas(l.tries, l.base, l.at, l.seen, s.clock)])
    case Leave(w) => s.(locals := s.locals[w := Idle])
    case Cas(w) =>
      var l := s.locals[w];
      if CasWins(s, w) then
        var b := Written(s.bucket, l.seen, l.now, p);
        var spend := Spent(l.seen, l.now, p);
        var changed := Word(b) != Word(s.bucket);
        State(s.clock, b, s.locals[w := Idle],
              if changed then s.log + [w] else s.log,
              if changed && l.now > s.last then l.now else s.last,
              if spend.allow then s.granted + [l.now] else s.granted)
      else
        var next := if l.tries + 1 == CAS_MAX then Starved(l.base) else AtLoad(l.tries + 1, l.base);
        s.(locals := s.locals[w := next])
  }

  predicate CanRun(s: State, steps: seq<Step>, p: Params)
    requires p.periodMs > 0
    decreases |steps|
  {
    steps == [] || (Enabled(s, steps[0]) && CanRun(Apply(s, steps[0], p), steps[1..], p))
  }

  function Run(s: State, steps: seq<Step>, p: Params): State
    requires p.periodMs > 0 && CanRun(s, steps, p)
    decreases |steps|
  {
    if steps == [] then s else Run(Apply(s, steps[0], p), steps[1..], p)
  }

  predicate Init(s: State, p: Params) {
    && (forall w :: 0 <= w < |s.locals| ==> s.locals[w].Idle?)
    && s.bucket.since == s.last <= s.clock && s.bucket.tok <= p.burstFp
    && s.log == [] && s.granted == []
  }

  /** The word memory then holds is the word the winning CAS stored. */
  lemma WrittenIsStored(b: Bucket, seen: Bucket, now: nat, p: Params)
    requires Accepted(p) && b.tok < WRAP && seen.tok < WRAP && Word(b) == Word(seen)
    ensures Word(Written(b, seen, now, p)) == Spent(seen, now, p).word
  {
    hide SpendMachine, Refill, Elapsed;
    PackRoundTrip(b.since % WRAP, b.tok);
    PackRoundTrip(seen.since % WRAP, seen.tok);
    SpendParts(Word(seen), now, p);
    UnpackRoundTrip(Spent(seen, now, p).word);
  }

  // ---- clock order and progress, in every run ----

  predicate LogFree(log: seq<nat>, base: nat, w: nat) {
    base <= |log| && forall j :: base <= j < |log| ==> log[j] != w
  }

  /** What one worker knows: its own call has written nothing, every retry was preceded by a
      foreign write, the sample is not older than the stamp it read, and as long as nothing
      was written since the read the word is still the one it holds. */
  predicate LocalOrder(s: State, w: nat)
    requires w < |s.locals|
  {
    match s.locals[w]
    case Idle => true
    case AtLoad(tries, base) =>
      LogFree(s.log, base, w) && tries < CAS_MAX && base + tries <= |s.log|
    case AtClock(tries, base, at, seen) =>
      && LogFree(s.log, base, w) && tries < CAS_MAX && base + tries <= at <= |s.log|
      && seen.since <= s.clock && (at == |s.log| ==> Word(seen) == Word(s.bucket))
    case AtCas(tries, base, at, seen, now) =>
      && LogFree(s.log, base, w) && tries < CAS_MAX && base + tries <= at <= |s.log|
      && seen.since <= now <= s.clock && (at == |s.log| ==> Word(seen) == Word(s.bucket))
    case Starved(base) =>
      LogFree(s.log, base, w) && base + CAS_MAX <= |s.log|
  }

  predicate Order(s: State) {
    s.bucket.since <= s.clock && forall w :: 0 <= w < |s.locals| ==> LocalOrder(s, w)
  }

  lemma StepKeepsOrder(s: State, step: Step, p: Params)
    requires p.periodMs > 0 && Order(s) && Enabled(s, step)
    ensures Order(Apply(s, step, p))
  {
    hide Word, Spent, Refill, Elapsed, SpendMachine;
    var s' := Apply(s, step, p);
    if !step.Tick? {
      assert LocalOrder(s, step.w);
    }
    forall w | 0 <= w < |s'.locals| ensures LocalOrder(s', w) {
      assert LocalOrder(s, w);
    }
  }

  lemma {:induction false} RunKeepsOrder(s: State, steps: seq<Step>, p: Params)
    requires p.periodMs > 0 && Order(s) && CanRun(s, steps, p)
    ensures Order(Run(s, steps, p))
    decreases |steps|
  {
    hide Order, Apply;
    if steps != [] {
      StepKeepsOrder(s, steps[0], p);
      RunKeepsOrder(Apply(s, steps[0], p), steps[1..], p);
    }
  }

  /** Clock order: a sample is never older than the stamp its worker read. Progress: a state
      CAS fails only if another worker changed the word since it was read, and a worker that
      gives up has seen 16 writes, all by others, within its call. */
  predicate OrderAndProgress(s: State) {
    && (forall w :: 0 <= w < |s.locals| && s.locals[w].AtCas? ==>
          && s.locals[w].seen.since <= s.locals[w].now <= s.clock
          && (!CasWins(s, w) ==> s.locals[w].at < |s.log| && s.log[s.locals[w].at] != w))
    && (forall w :: 0 <= w < |s.locals| && s.locals[w].Starved? ==>
          && s.locals[w].base + CAS_MAX <= |s.log|
          && forall j :: s.locals[w].base <= j < |s.log| ==> s.log[j] != w)
  }

  lemma OrderImpliesProgress(s: State)
    requires Order(s)
    ensures OrderAndProgress(s)
  {
    hide Word;
    forall w | 0 <= w < |s.locals| && s.locals[w].AtCas?
      ensures s.locals[w].seen.since <= s.locals[w].now <= s.clock
      ensures !CasWins(s, w) ==> s.locals[w].at < |s.log| && s.log[s.locals[w].at] != w
    {
      assert LocalOrder(s, w);
    }
    forall w | 0 <= w < |s.locals| && s.locals[w].Starved?
      ensures s.locals[w].base + CAS_MAX <= |s.log|
      ensures forall j :: s.locals[w].base <= j < |s.log| ==> s.log[j] != w
    {
      assert LocalOrder(s, w);
    }
  }

  /** Clock order and lock-free progress hold at the end of every run, hence in every reachable
      state, with no assumption on how long a call takes. */
  lemma ClockOrderAndProgress(s: State, steps: seq<Step>, p: Params)
    requires p.periodMs > 0 && Init(s, p) && CanRun(s, steps, p)
    ensures OrderAndProgress(Run(s, steps, p))
  {
    RunKeepsOrder(s, steps, p);
    OrderImpliesProgress(Run(s, steps, p));
  }

  // ---- the rate bound ----

  /** The CAS is tried less than d ms after the stamp it read, or nothing was written since. */
  predicate OnTime(s: State, step: Step, d: nat)
    requires Enabled(s, step)
  {
    step.Cas? ==>
      var l := s.locals[step.w];
      l.at == |s.log| || s.clock < l.seen.since + d
  }

  predicate RunsOnTime(s: State, steps: seq<Step>, d: nat, p: Params)
    requires p.periodMs > 0 && CanRun(s, steps, p)
    decreases |steps|
  {
    steps == [] || (OnTime(s, steps[0], d) && RunsOnTime(Apply(s, steps[0], p), steps[1..], d, p))
  }

  /** Stamps go up; under one stamp tokens only go down. */
  predicate Before(a: Bucket, b: Bucket) {
    a.since < b.since || (a.since == b.since && a.tok > b.tok)
  }

  /** A write from an up-to-date read moves the bucket strictly forward, or rewrites it. */
  lemma WriteAdvances(b: Bucket, now: nat, p: Params)
    requires Accepted(p) && b.tok <= p.burstFp && b.since <= now
    ensures var b' := Written(b, b, now, p); var spend := Spent(b, now, p);
            var added := Refill(Elapsed(now, b.since % WRAP), p);
            && b'.tok + (if spend.allow then SCALE else 0) <= Min(b.tok + added, p.burstFp)
            && (b' == b || Before(b, b'))
            && (Word(b') == Word(b) ==> b' == b)
            && (spend.allow ==> b' != b)
            && b'.since == (if added > 0 then now else b.since)
            && Refill(Elapsed(now, b'.since % WRAP), p) == 0
  {
    hide SpendMachine, Refill;
    PackRoundTrip(b.since % WRAP, b.tok);
    SpendParts(Word(b), now, p);
    var b' := Written(b, b, now, p);
    PackRoundTrip(b'.since % WRAP, b'.tok);
    RefillZero(p);
    assert Elapsed(now, now % WRAP) == 0;
  }

  lemma RefillZero(p: Params)
    requires p.periodMs > 0
    ensures Refill(0, p) == 0
  {
  }

  /** What on-time runs keep on top of Order: a worker that is up to date holds the bucket
      itself and a sample no older than the last change; any other holds a strictly older one. */
  predicate LocalFresh(s: State, w: nat)
    requires w < |s.locals|
  {
    var l := s.locals[w];
    (l.AtClock? || l.AtCas?) ==>
      && l.at <= |s.log|
      && (if l.at == |s.log| then l.seen == s.bucket else Before(l.seen, s.bucket))
      && (l.AtCas? && l.at == |s.log| ==> s.last <= l.now)
      && l.seen.tok < WRAP
  }

  predicate Steady(s: State, p: Params)
    requires p.periodMs > 0
  {
    && Order(s)
    && s.bucket.tok <= p.burstFp && s.bucket.since <= s.last <= s.clock
    && Refill(Elapsed(s.last, s.bucket.since % WRAP), p) == 0
    && forall w :: 0 <= w < |s.locals| ==> LocalFresh(s, w)
  }

  lemma InitSteady(s: State, p: Params)
    requires Accepted(p) && Init(s, p)
    ensures Steady(s, p)
  {
    RefillZero(p);
  }

  /** An on-time CAS can only win with an up-to-date read: no ABA. */
  lemma NoAba(s: State, w: nat, p: Params)
    requires Accepted(p) && Steady(s, p) && Enabled(s, Cas(w)) && OnTime(s, Cas(w), WRAP) && CasWins(s, w)
    ensures s.locals[w].at == |s.log| && s.locals[w].seen == s.bucket
  {
    assert LocalOrder(s, w) && LocalFresh(s, w);
    var seen := s.locals[w].seen;
    PackRoundTrip(seen.since % WRAP, seen.tok);
    PackRoundTrip(s.bucket.since % WRAP, s.bucket.tok);
    if Before(seen, s.bucket) && s.clock < seen.since + WRAP {
      SameResidue(seen.since, s.bucket.since);
    }
  }

  lemma SameResidue(a: nat, b: nat)
    requires a < b && a % WRAP == b % WRAP
    ensures a + WRAP <= b
  {
  }

  lemma SampleOrder(s: State, w: nat)
    requires Order(s) && Enabled(s, Cas(w))
    ensures s.locals[w].seen.since <= s.locals[w].now <= s.clock
  {
    assert LocalOrder(s, w);
  }

  lemma StepKeepsSteady(s: State, step: Step, p: Params)
    requires Accepted(p) && Steady(s, p) && Enabled(s, step) && OnTime(s, step, WRAP)
    ensures Steady(Apply(s, step, p), p)
  {
    hide Word, SpendMachine, Refill, Elapsed, Spent, Written, LocalOrder;
    StepKeepsOrder(s, step, p);
    var s' := Apply(s, step, p);
    if !step.Tick? {
      assert LocalFresh(s, step.w) && LocalOrder(s, step.w);
    }
    if step.Cas? && CasWins(s, step.w) {
      NoAba(s, step.w, p);
      SampleOrder(s, step.w);
      WriteAdvances(s.bucket, s.locals[step.w].now, p);
    }
    forall w | 0 <= w < |s'.locals| ensures LocalFresh(s', w) {
      assert LocalFresh(s, w) && LocalOrder(s, w);
    }
  }

  /** Without a wrap between a read and its CAS the bucket only moves forward: every step of the
      run rewrites it or advances it, so an old word never returns under the same stamp. */
  lemma {:induction false} RunAdvances(s: State, steps: seq<Step>, p: Params)
    requires Accepted(p) && Steady(s, p) && CanRun(s, steps, p) && RunsOnTime(s, steps, WRAP, p)
    ensures var e := Run(s, steps, p);
            Steady(e, p) && (e.bucket == s.bucket || Before(s.bucket, e.bucket))
    decreases |steps|
  {
    hide Steady, Apply, OnTime;
    if steps != [] {
      StepKeepsSteady(s, steps[0], p);
      StepAdvances(s, steps[0], p);
      RunAdvances(Apply(s, steps[0], p), steps[1..], p);
    }
  }

  lemma StepAdvances(s: State, step: Step, p: Params)
    requires Accepted(p) && Steady(s, p) && Enabled(s, step) && OnTime(s, step, WRAP)
    ensures Apply(s, step, p).bucket == s.bucket || Before(s.bucket, Apply(s, step, p).bucket)
  {
    hide Word, SpendMachine, Refill, Elapsed, Spent, Written, LocalOrder;
    if step.Cas? && CasWins(s, step.w) {
      NoAba(s, step.w, p);
      SampleOrder(s, step.w);
      WriteAdvances(s.bucket, s.locals[step.w].now, p);
    }
  }

  /** How many of the samples lie in [t0, t1]. */
  function Count(samples: seq<nat>, t0: nat, t1: nat): nat {
    if samples == [] then 0
    else
      Count(samples[..|samples| - 1], t0, t1) + if t0 <= samples[|samples| - 1] <= t1 then 1 else 0
  }

  lemma CountPush(samples: seq<nat>, x: nat, t0: nat, t1: nat)
    ensures Count(samples + [x], t0, t1) == Count(samples, t0, t1) + if t0 <= x <= t1 then 1 else 0
  {
    assert (samples + [x])[..|samples|] == samples;
  }

  /** What a slot may grant in [t0, t1], in fixed-point units. */
  function Budget(t0: nat, t1: nat, p: Params): nat
    requires p.periodMs > 0 && t0 <= t1
  {
    p.burstFp + Refill(t1 - t0, p) + 1
  }

  /** With `spent` units granted in the window so far: the bucket and the spending together
      never exceed the burst plus the refill since t0, up to one unit for a refill that began
      before t0. */
  predicate WithinBudget(spent: nat, b: Bucket, last: nat, t0: nat, p: Params)
    requires p.periodMs > 0
  {
    if b.since < t0 then
      spent + b.tok <= p.burstFp && (spent > 0 ==> t0 <= last)
    else
      p.periodMs * (spent + b.tok - p.burstFp) <= p.rateFp * (b.since - t0) + p.periodMs
  }

  lemma ModPlus(x: int, k: int)
    ensures (x + k * WRAP) % WRAP == x % WRAP
  {
  }

  lemma ModGrows(x: nat, d: nat)
    ensures x % WRAP <= x
    ensures (x + d) % WRAP <= x % WRAP + d
  {
  }

  lemma ElapsedIs(now: nat, since: nat)
    ensures Elapsed(now, since % WRAP) == (now - since) % WRAP
  {
    var k := since / WRAP - now / WRAP;
    assert now % WRAP - since % WRAP == (now - since) + k * WRAP;
    ModPlus(now - since, k);
  }

  /** 32-bit elapsed time never runs ahead of real time, whatever has wrapped. */
  lemma ElapsedGrows(since: nat, last: nat, now: nat)
    requires since <= last <= now
    ensures Elapsed(now, since % WRAP) <= now - since
    ensures Elapsed(now, since % WRAP) <= Elapsed(last, since % WRAP) + (now - last)
  {
    hide Elapsed;
    ElapsedIs(now, since);
    ElapsedIs(last, since);
    ModGrows(now - since, 0);
    ModGrows(last - since, now - last);
  }

  lemma RefillFloor(e: nat, p: Params)
    requires p.periodMs > 0
    ensures Refill(e, p) * p.periodMs <= p.rateFp * e < (Refill(e, p) + 1) * p.periodMs
  {
    FloorBounds(e * p.rateFp, p.periodMs);
  }

  /** A refill is worth at most the real time it covers, and at most one more unit than the time
      since an earlier sample that earned nothing. */
  lemma RefillWorth(since: nat, last: nat, now: nat, p: Params)
    requires Accepted(p) && since <= last <= now
    requires Refill(Elapsed(last, since % WRAP), p) == 0
    ensures var a := Refill(Elapsed(now, since % WRAP), p);
            && a * p.periodMs <= p.rateFp * (now - since)
            && a * p.periodMs <= p.rateFp * (now - last) + p.periodMs
  {
    hide Elapsed, Refill;
    var e, r := Elapsed(now, since % WRAP), Elapsed(last, since % WRAP);
    ElapsedGrows(since, last, now);
    RefillFloor(e, p);
    RefillFloor(r, p);
    ScaleUp(e, now - since, p.rateFp);
    ScaleUp(e, r + (now - last), p.rateFp);
    Distribute(p.rateFp, r, now - last);
  }

  lemma ScaleUp(x: int, y: int, d: nat)
    requires x <= y
    ensures d * x <= d * y
  {
  }

  /** One change of the word keeps the budget. */
  lemma WriteKeepsBudget(spent: nat, b: Bucket, last: nat, now: nat, t0: nat, t1: nat, p: Params)
    requires Accepted(p) && b.tok <= p.burstFp && b.since <= last <= now && t0 <= t1
    requires Refill(Elapsed(last, b.since % WRAP), p) == 0
    requires WithinBudget(spent, b, last, t0, p)
    ensures var grant := if Spent(b, now, p).allow && t0 <= now <= t1 then SCALE else 0;
            WithinBudget(spent + grant, Written(b, b, now, p), now, t0, p)
  {
    hide Spent, Written, Word, Refill, Elapsed;
    WriteAdvances(b, now, p);
    RefillWorth(b.since, last, now, p);
    var b' := Written(b, b, now, p);
    var a := Refill(Elapsed(now, b.since % WRAP), p);
    var grant := if Spent(b, now, p).allow && t0 <= now <= t1 then SCALE else 0;
    var x, x' := spent + b.tok - p.burstFp, spent + grant + b'.tok - p.burstFp;
    if t0 <= b.since {
      Distribute(p.rateFp, now - b.since, b.since - t0);
      AddScaled(p.periodMs, x, x', a, p.rateFp * (b.since - t0) + p.periodMs, p.rateFp * (now - b.since));
    } else if t0 <= b'.since {
      ScaleUp(0, now - t0, p.rateFp);
      if spent == 0 {
        ScaleUp(x', 0, p.periodMs);
      } else {
        ScaleUp(x, 0, p.periodMs);
        ScaleUp(now - last, now - t0, p.rateFp);
        AddScaled(p.periodMs, x, x', a, 0, p.rateFp * (now - t0) + p.periodMs);
      }
    }
  }

  lemma Distribute(d: nat, x: int, y: int)
    ensures d * (x + y) == d * x + d * y
  {
  }

  lemma AddScaled(d: nat, x: int, x': int, a: nat, u: int, v: int)
    requires x' <= x + a && d * x <= u && a * d <= v
    ensures d * x' <= u + v
  {
    ScaleUp(x', x + a, d);
    Distribute(d, x, a);
  }

  /** The budget caps the spending up to any moment of the window. */
  lemma BudgetCaps(spent: nat, b: Bucket, last: nat, t0: nat, t1: nat, p: Params)
    requires Accepted(p) && WithinBudget(spent, b, last, t0, p) && t0 <= t1 && b.since <= t1
    ensures spent <= Budget(t0, t1, p)
  {
    hide Refill;
    if t0 <= b.since {
      ScaleUp(spent - p.burstFp, spent + b.tok - p.burstFp, p.periodMs);
      ScaleUp(b.since - t0, t1 - t0, p.rateFp);
      if spent > p.burstFp {
        EarnedAtLeast(spent - p.burstFp, t1 - t0, p);
      }
    }
  }

  lemma EarnedAtLeast(x: nat, span: nat, p: Params)
    requires p.periodMs > 0 && p.periodMs * x <= p.rateFp * span + p.periodMs
    ensures x <= Refill(span, p) + 1
  {
    if x > 0 {
      Distribute(p.periodMs, x, -1);
      QuotientAtLeast(span * p.rateFp, x - 1, p.periodMs);
    }
  }

  predicate InBudget(s: State, t0: nat, t1: nat, p: Params)
    requires p.periodMs > 0 && t0 <= t1
  {
    var spent := SCALE * Count(s.granted, t0, t1);
    WithinBudget(spent, s.bucket, s.last, t0, p) && spent <= Budget(t0, t1, p)
  }

  lemma StepKeepsBudget(s: State, step: Step, t0: nat, t1: nat, p: Params)
    requires Accepted(p) && Steady(s, p) && Enabled(s, step) && OnTime(s, step, WRAP)
    requires t0 <= t1 && InBudget(s, t0, t1, p)
    ensures InBudget(Apply(s, step, p), t0, t1, p)
  {
    hide Word, SpendMachine, Refill, Elapsed, Spent, Written, LocalOrder, WithinBudget, Budget;
    if step.Cas? && CasWins(s, step.w) {
      var now := s.locals[step.w].now;
      NoAba(s, step.w, p);
      SampleOrder(s, step.w);
      assert LocalFresh(s, step.w);
      WriteAdvances(s.bucket, now, p);
      CountPush(s.granted, now, t0, t1);
      var spent := SCALE * Count(s.granted, t0, t1);
      WriteKeepsBudget(spent, s.bucket, s.last, now, t0, t1, p);
      var s' := Apply(s, step, p);
      if s'.bucket.since <= t1 {
        BudgetCaps(SCALE * Count(s'.granted, t0, t1), s'.bucket, s'.last, t0, t1, p);
      }
    }
  }

  lemma {:induction false} RunKeepsBudget(s: State, steps: seq<Step>, t0: nat, t1: nat, p: Params)
    requires Accepted(p) && Steady(s, p) && CanRun(s, steps, p) && RunsOnTime(s, steps, WRAP, p)
    requires t0 <= t1 && InBudget(s, t0, t1, p)
    ensures InBudget(Run(s, steps, p), t0, t1, p)
    decreases |steps|
  {
    hide Steady, Apply, OnTime, InBudget;
    if steps != [] {
      StepKeepsSteady(s, steps[0], p);
      StepKeepsBudget(s, steps[0], t0, t1, p);
      RunKeepsBudget(Apply(s, steps[0], p), steps[1..], t0, t1, p);
    }
  }

  /** The concurrent rate bound: in every interleaving of any number of workers in which no CAS
      comes 2^32 ms after the stamp it read (unless nothing was written since), SCALE
      times the allowing CASes with a sample in [t0, t1] stay within the burst, plus what the
      rate earns over the window, plus one unit. */
  lemma RateBound(s: State, steps: seq<Step>, t0: nat, t1: nat, p: Params)
    requires Accepted(p) && Init(s, p) && CanRun(s, steps, p) && RunsOnTime(s, steps, WRAP, p) && t0 <= t1
    ensures SCALE * Count(Run(s, steps, p).granted, t0, t1) <= p.burstFp + Refill(t1 - t0, p) + 1
  {
    InitSteady(s, p);
    InitBudget(s, t0, t1, p);
    RunKeepsBudget(s, steps, t0, t1, p);
  }

  lemma InitBudget(s: State, t0: nat, t1: nat, p: Params)
    requires Accepted(p) && Init(s, p) && t0 <= t1
    ensures InBudget(s, t0, t1, p)
  {
    if t0 <= s.bucket.since {
      ScaleUp(s.bucket.tok - p.burstFp, 0, p.periodMs);
      ScaleUp(0, s.bucket.since - t0, p.rateFp);
    }
  }
}
