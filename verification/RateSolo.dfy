/** The step machine of the limiter against the table it implements: a call that is not interfered with is
    one step of RateTable, and no interference can keep a call from ending. */
module RateSolo {
  import opened RateBucket
  import opened RateTable
  import RateSteps
  import opened RateClaims

  /** The table in memory: the keys and the packed words. */
  function Contents(s: State): (t: Table)
    requires Sized(s)
    ensures |t.keys| == |t.words| == |s.keys|
  {
    Table(s.keys, seq(|s.cells|, i requires 0 <= i < |s.cells| => RateSteps.Word(s.cells[i].bucket)))
  }

  /** Every count fits 32 bits. */
  predicate Narrow(s: State) {
    forall i :: 0 <= i < |s.cells| ==> s.cells[i].bucket.tok < WRAP
  }

  lemma ContentsShaped(s: State)
    requires Sized(s) && Narrow(s)
    ensures Shape(Contents(s))
  {
    forall i | 0 <= i < |s.cells| ensures RateSteps.Word(s.cells[i].bucket) < WORD {
      PackRoundTrip(s.cells[i].bucket.since % WRAP, s.cells[i].bucket.tok);
    }
  }

  /** Worker w is at no slot's CAS loop. */
  predicate Away(s: State, w: nat) {
    forall i :: 0 <= i < |s.cells| ==> w < |s.cells[i].locals| && s.cells[i].locals[w].Idle?
  }

  /** The next access of a worker in a call. */
  function Next(l: Local, w: nat): Step
    requires !l.Idle?
  {
    match l
    case Loading(_, _, _, _) => Load(w)
    case Claiming(_, _, _, _) => Claim(w)
    case Rereading(_, _, _, _) => Reread(w)
    case Aging(_, _, _, _, _) => Age(w)
    case Evicting(_, _, _) => Evict(w)
    case Clearing(_, _) => Clear(w)
    case Spending(_, _) => Step.Spend(w)
  }

  /** Up to n accesses of worker w alone, until its call ends or it can go no further. */
  function Alone(s: State, w: nat, n: nat, p: Params): State
    requires Sized(s) && w < |s.locals| && p.periodMs > 0
    decreases n
  {
    if n == 0 || s.locals[w].Idle? || !Enabled(s, Next(s.locals[w], w)) then s
    else
      StepKeepsSized(s, Next(s.locals[w], w), p);
      Alone(Apply(s, Next(s.locals[w], w), p), w, n - 1, p)
  }

  /** What the call has led to: the table's step, the worker idle again, and a grant if a token was spent. */
  predicate Finished(s: State, e: State, w: nat, h: nat, r: StepResult)
    requires Sized(s)
  {
    && Sized(e) && Contents(e) == r.table && w < |s.locals| && e.locals == s.locals[w := Idle] && e.clock == s.clock
    && e.allowed == s.allowed + if r.verdict == Ok && r.overflow == 0 then [Grant(h, s.clock)] else []
  }

  lemma AloneGoes(s: State, w: nat, n: nat, p: Params)
    requires Sized(s) && w < |s.locals| && p.periodMs > 0 && n > 0
    requires !s.locals[w].Idle? && Enabled(s, Next(s.locals[w], w))
    ensures var s' := Apply(s, Next(s.locals[w], w), p);
            Sized(s') && |s'.locals| == |s.locals| && Alone(s, w, n, p) == Alone(s', w, n - 1, p)
  {
    hide Apply;
    StepKeepsSized(s, Next(s.locals[w], w), p);
  }

  // ---- the spend ----

  /** A worker at the CAS loop of its slot, unhindered: four accesses. */
  lemma SpinsAlone(s: State, w: nat, n: nat, p: Params)
    requires Accepted(p) && Sized(s) && Narrow(s) && w < |s.locals| && s.locals[w].Spending? && n >= 4
    requires var i := s.locals[w].index; i < |s.cells| && s.cells[i].locals[w].Idle?
    requires Shape(Contents(s))
    ensures var l := s.locals[w]; var t := Contents(s);
            Finished(s, Alone(s, w, n, p), w, l.h, SpendAt(t, l.index, t.keys[l.index], t.words[l.index], s.clock, p))
  {
    hide RateSteps.Word, RateSteps.Spent, RateSteps.Written, SpendMachine, Alone;
    var l := s.locals[w];
    var i, b := l.index, s.cells[l.index].bucket;
    AloneGoes(s, w, n, p);
    var e1 := Apply(s, Step.Spend(w), p);
    AloneGoes(e1, w, n - 1, p);
    var e2 := Apply(e1, Step.Spend(w), p);
    AloneGoes(e2, w, n - 2, p);
    var e3 := Apply(e2, Step.Spend(w), p);
    AloneGoes(e3, w, n - 3, p);
    var e := Apply(e3, Step.Spend(w), p);
    assert e == s.(cells := s.cells[i := e.cells[i]], locals := s.locals[w := Idle], allowed := e.allowed);
    assert e.cells[i].bucket == RateSteps.Written(b, b, s.clock, p);
    AloneStops(e, w, n - 4, p);
    RateSteps.WrittenIsStored(b, b, s.clock, p);
    SpentWord(s, i, s.clock, p);
    assert Contents(e).words == Contents(s).words[i := RateSteps.Word(e.cells[i].bucket)];
    assert s.keys[i := s.keys[i]] == s.keys;
  }

  lemma AloneStops(s: State, w: nat, n: nat, p: Params)
    requires Sized(s) && w < |s.locals| && p.periodMs > 0 && s.locals[w].Idle?
    ensures Alone(s, w, n, p) == s
  {
  }

  lemma SpentWord(s: State, i: nat, now: nat, p: Params)
    requires Sized(s) && i < |s.cells| && p.periodMs > 0
    ensures RateSteps.Spent(s.cells[i].bucket, now, p) == SpendMachine(Contents(s).words[i], now, p)
  {
    hide RateSteps.Word, SpendMachine;
  }

  // ---- the probe ----

  /** The machine's candidate is the table's. */
  predicate Agrees(t: Table, best: Chosen, c: Candidate)
    requires Shape(t)
  {
    match best
    case Nobody => c.NoVictim?
    case Best(i, age, key) => c == Victim(i, age) && i < |t.keys| && key == t.keys[i]
  }

  lemma StillAgrees(s: State, h: nat, q: nat, best: Chosen, p: Params)
    requires Sized(s) && Shape(Contents(s)) && p.periodMs > 0
    requires Agrees(Contents(s), best, Oldest(Contents(s), h, s.clock, p, q))
    ensures var i := Slot(h, |s.keys|, q);
            Agrees(Contents(s), Better(best, p, AgeOf(s, s.clock, i), i, s.keys[i]), Oldest(Contents(s), h, s.clock, p, q + 1))
  {
    hide RateSteps.Word, Slot, Elapsed, Stamp;
  }

  /** The first stop of the probe, if the q slots before it belong to others. */
  lemma StopIs(t: Table, h: nat, q: nat)
    requires Shape(t) && q <= PROBE_MAX && forall r :: 0 <= r < q ==> KeyAt(t, h, r) != 0 && KeyAt(t, h, r) != h
    requires q < PROBE_MAX ==> KeyAt(t, h, q) == 0 || KeyAt(t, h, q) == h
    ensures FirstStop(t, h, 0) == q
  {
    hide KeyAt;
  }

  /** A worker that has got its slot, under its key h and with the word there `word`. */
  lemma SpendsAlone(s: State, t: Table, w: nat, h: nat, i: nat, word: nat, n: nat, p: Params)
    requires Accepted(p) && Sized(s) && Narrow(s) && Shape(t) && Away(s, w) && n >= 4
    requires w < |s.locals| && s.locals[w] == Spending(h, i) && i < |t.keys| && i < |s.keys|
    requires Contents(s).keys == t.keys[i := h] && Contents(s).words == t.words[i := word]
    ensures Finished(s, Alone(s, w, n, p), w, h, SpendAt(t, i, h, word, s.clock, p))
  {
    hide SpendMachine, Alone, Contents;
    ContentsShaped(s);
    SpinsAlone(s, w, n, p);
    assert t.keys[i := h][i := h] == t.keys[i := h];
    var x := SpendMachine(word, s.clock, p).word;
    assert t.words[i := word][i := x] == t.words[i := x];
  }

  lemma SettlesAlone(s: State, w: nat, n: nat, p: Params)
    requires Accepted(p) && Sized(s) && Narrow(s) && Away(s, w) && w < |s.locals| && s.locals[w].Loading? && n >= 6
    requires var l := s.locals[w]; var k := s.keys[Slot(l.h, |s.keys|, l.q)]; k == 0 || k == l.h
    requires Shape(Contents(s))
    ensures var l := s.locals[w]; var t := Contents(s); var i := Slot(l.h, |s.keys|, l.q);
            Finished(s, Alone(s, w, n, p), w, l.h, SpendAt(t, i, l.h, t.words[i], s.clock, p))
  {
    hide SpendMachine, Alone, Slot, RateSteps.Word;
    var l, t := s.locals[w], Contents(s);
    var i := Slot(l.h, |s.keys|, l.q);
    AloneGoes(s, w, n, p);
    var a, m := Apply(s, Load(w), p), n - 1;
    if s.keys[i] == 0 {
      AloneGoes(a, w, m, p);
      a, m := Apply(a, Claim(w), p), m - 1;
    } else {
      assert s.keys[i := l.h] == s.keys;
    }
    assert a == s.(keys := s.keys[i := l.h], locals := s.locals[w := Spending(l.h, i)]);
    assert t.words[i := t.words[i]] == t.words;
    SpendsAlone(a, t, w, l.h, i, t.words[i], m, p);
    assert a.locals[w := Idle] == s.locals[w := Idle];
  }

  lemma EvictsAlone(s: State, w: nat, n: nat, p: Params)
    requires Accepted(p) && Sized(s) && Narrow(s) && Away(s, w) && w < |s.locals| && s.locals[w].Evicting? && n >= 6
    requires var l := s.locals[w]; l.index < |s.keys| && s.keys[l.index] == l.key
    requires Shape(Contents(s))
    ensures var l := s.locals[w];
            Finished(s, Alone(s, w, n, p), w, l.h, SpendAt(Contents(s), l.index, l.h, 0, s.clock, p))
  {
    hide SpendMachine, Alone;
    var l, t := s.locals[w], Contents(s);
    AloneGoes(s, w, n, p);
    var a := Apply(s, Evict(w), p);
    AloneGoes(a, w, n - 1, p);
    var b := Apply(a, Clear(w), p);
    assert b == s.(keys := s.keys[l.index := l.h], cells := s.cells[l.index := b.cells[l.index]],
                   locals := s.locals[w := Spending(l.h, l.index)]);
    assert RateSteps.Word(b.cells[l.index].bucket) == 0;
    assert Contents(b).words == t.words[l.index := 0];
    SpendsAlone(b, t, w, l.h, l.index, 0, n - 2, p);
    assert b.locals[w := Idle] == s.locals[w := Idle];
  }

  /** From the q-th probe on. */
  lemma {:induction false} ProbesAlone(s: State, w: nat, q: nat, n: nat, p: Params)
    requires Accepted(p) && Sized(s) && Narrow(s) && Away(s, w) && w < |s.locals| && Shape(Contents(s))
    requires s.locals[w].Loading? && s.locals[w].q == q < PROBE_MAX && s.locals[w].now == s.clock
    requires forall r :: 0 <= r < q ==> KeyAt(Contents(s), s.locals[w].h, r) != 0 && KeyAt(Contents(s), s.locals[w].h, r) != s.locals[w].h
    requires Agrees(Contents(s), s.locals[w].best, Oldest(Contents(s), s.locals[w].h, s.clock, p, q))
    requires n >= 2 * (PROBE_MAX - q) + 6
    ensures var h := s.locals[w].h; Finished(s, Alone(s, w, n, p), w, h, TableStep(Contents(s), h, s.clock, p))
    decreases PROBE_MAX - q
  {
    hide SpendAt, Alone, Slot, Oldest, FirstStop, AgeOf;
    var l, t := s.locals[w], Contents(s);
    var i := Slot(l.h, |s.keys|, q);
    assert KeyAt(t, l.h, q) == s.keys[i] && WordAt(t, l.h, q) == t.words[i];
    if s.keys[i] == 0 || s.keys[i] == l.h {
      StopIs(t, l.h, q);
      SettlesAlone(s, w, n, p);
    } else {
      AloneGoes(s, w, n, p);
      var a := Apply(s, Load(w), p);
      AloneGoes(a, w, n - 1, p);
      var b := Apply(a, Age(w), p);
      var best := Better(l.best, p, AgeOf(s, s.clock, i), i, s.keys[i]);
      SameAge(s, a, i);
      assert b == s.(locals := s.locals[w := Further(l.h, s.clock, q, best)]);
      assert Contents(b) == t;
      StillAgrees(s, l.h, q, l.best, p);
      if q + 1 < PROBE_MAX {
        ProbesAlone(b, w, q + 1, n - 2, p);
      } else {
        StopIs(t, l.h, PROBE_MAX);
        if best.Best? {
          EvictsAlone(b, w, n - 2, p);
        } else {
          AloneStops(b, w, n - 2, p);
        }
      }
      assert b.locals[w := Idle] == s.locals[w := Idle];
    }
  }

  lemma SameAge(s: State, a: State, i: nat)
    requires s.cells == a.cells && i < |s.cells|
    ensures forall now :: AgeOf(s, now, i) == AgeOf(a, now, i)
  {
  }

  /** A call of worker w for key h that nobody interferes with, wherever the others stand: after at most 70
      accesses the table is what one step of the table makes of it, the worker is idle, and a grant is
      recorded exactly when a token was spent. */
  lemma CallIsTableStep(s: State, w: nat, h: nat, n: nat, p: Params)
    requires Accepted(p) && Sized(s) && Narrow(s) && Away(s, w) && w < |s.locals| && s.locals[w].Idle? && h > 0 && n >= 70
    ensures Shape(Contents(s)) && Sized(Apply(s, Begin(w, h), p))
    ensures Finished(s, Alone(Apply(s, Begin(w, h), p), w, n, p), w, h, RateCheck(Contents(s), h, s.clock, p))
  {
    hide TableStep, Alone;
    ContentsShaped(s);
    StepKeepsSized(s, Begin(w, h), p);
    var a := Apply(s, Begin(w, h), p);
    assert Contents(a) == Contents(s);
    assert Oldest(Contents(a), h, a.clock, p, 0) == NoVictim;
    ProbesAlone(a, w, 0, n, p);
    assert a.locals[w := Idle] == s.locals[w := Idle];
  }

  // ---- no call can be kept from ending ----

  /** How many accesses a worker in the CAS loop has left at most. */
  function LoopRank(l: RateSteps.Local): nat {
    match l
    case Idle => 50
    case AtLoad(tries, _) => if tries < 16 then 3 * (16 - tries) + 1 else 0
    case AtClock(tries, _, _, _) => if tries < 16 then 3 * (16 - tries) else 0
    case AtCas(tries, _, _, _, _) => if tries < 16 then 3 * (16 - tries) - 1 else 0
    case Starved(_) => 1
  }

  /** The worker stands where a call can stand: its probes and tries within their limits, its slot in the table. */
  predicate Within(s: State, w: nat)
    requires Sized(s) && w < |s.locals|
  {
    match s.locals[w]
    case Idle => true
    case Loading(_, _, q, best) => q < 32 && (best.Best? ==> best.index < |s.keys|)
    case Claiming(_, _, q, best) => q < 32 && (best.Best? ==> best.index < |s.keys|)
    case Rereading(_, _, q, best) => q < 32 && (best.Best? ==> best.index < |s.keys|)
    case Aging(_, _, q, best, _) => q < 32 && (best.Best? ==> best.index < |s.keys|)
    case Evicting(_, i, _) => i < |s.keys|
    case Clearing(_, i) => i < |s.keys|
    case Spending(_, i) => i < |s.keys|
  }

  /** The worker is in the CAS loop of the slot it spends from, at one of its 16 tries, and in no other. */
  predicate Fit(s: State, w: nat)
    requires Sized(s) && w < |s.locals|
  {
    && Within(s, w)
    && (s.locals[w].Spending? ==> LoopRank(s.cells[s.locals[w].index].locals[w]) > 0)
    && forall i :: 0 <= i < |s.cells| && !(s.locals[w].Spending? && s.locals[w].index == i) ==> s.cells[i].locals[w].Idle?
  }

  predicate AllFit(s: State) {
    Sized(s) && forall w :: 0 <= w < |s.locals| ==> Fit(s, w)
  }

  function Probes(q: nat): nat {
    if q < 32 then 32 - q else 0
  }

  /** How many accesses a worker's call has left at most. */
  function Rank(s: State, w: nat): nat
    requires Sized(s) && w < |s.locals|
  {
    match s.locals[w]
    case Idle => 0
    case Loading(_, _, q, _) => 4 * Probes(q) + 52
    case Claiming(_, _, q, _) => 4 * Probes(q) + 51
    case Rereading(_, _, q, _) => 4 * Probes(q) + 50
    case Aging(_, _, q, _, _) => 4 * Probes(q) + 49
    case Evicting(_, _, _) => 52
    case Clearing(_, _) => 51
    case Spending(_, i) => if i < |s.cells| then LoopRank(s.cells[i].locals[w]) else 0
  }

  /** One access in the CAS loop ends the loop or leaves less to do, and moves nobody else. */
  lemma LoopStep(c: RateSteps.State, v: nat, p: Params)
    requires p.periodMs > 0 && v < |c.locals| && LoopRank(c.locals[v]) > 0
    ensures var c' := RateSteps.Apply(c, Inner(c, v), p);
            && c'.clock == c.clock && |c'.locals| == |c.locals|
            && (forall w :: 0 <= w < |c.locals| && w != v ==> c'.locals[w] == c.locals[w])
            && (c'.locals[v].Idle? || 0 < LoopRank(c'.locals[v]) < LoopRank(c.locals[v]))
            && (c.locals[v].Idle? ==> !c'.locals[v].Idle?)
  {
    hide RateSteps.Written, RateSteps.Spent, RateSteps.CasWins;
  }

  /** A lost CAS sends the worker to its next try, the sixteenth out of the loop, and changes nothing else. */
  lemma LostCas(c: RateSteps.State, v: nat, p: Params)
    requires p.periodMs > 0 && v < |c.locals| && c.locals[v].AtCas? && !RateSteps.CasWins(c, v)
    ensures var l := c.locals[v];
            RateSteps.Apply(c, Inner(c, v), p)
            == c.(locals := c.locals[v := if l.tries == 15 then RateSteps.Starved(l.base) else RateSteps.AtLoad(l.tries + 1, l.base)])
  {
    hide RateSteps.CasWins;
  }

  /** What a step leaves of where worker w stands, if the step is not its own. */
  predicate SameFor(s: State, s': State, w: nat)
    requires Sized(s) && w < |s.locals|
  {
    && Sized(s') && |s'.locals| == |s.locals| && s'.locals[w] == s.locals[w] && |s'.keys| == |s.keys|
    && forall i :: 0 <= i < |s.cells| ==> s'.cells[i].locals[w] == s.cells[i].locals[w]
  }

  lemma OtherStep(s: State, step: Step, w: nat, p: Params)
    requires p.periodMs > 0 && Sized(s) && w < |s.locals| && Enabled(s, step) && (step.Tick? || step.w != w)
    requires step.Tick? || Fit(s, step.w)
    ensures SameFor(s, Apply(s, step, p), w)
  {
    hide RateSteps.Apply, AgeOf, Slot, LoopRank;
    StepKeepsSized(s, step, p);
    if step.Spend? {
      LoopStep(s.cells[s.locals[step.w].index], step.w, p);
    }
  }

  lemma SameIsFit(s: State, s': State, w: nat)
    requires Sized(s) && w < |s.locals| && Fit(s, w) && SameFor(s, s', w)
    ensures Fit(s', w) && Rank(s', w) == Rank(s, w)
  {
    hide LoopRank;
  }

  lemma SpendStep(s: State, w: nat, p: Params)
    requires p.periodMs > 0 && Sized(s) && w < |s.locals| && Fit(s, w) && s.locals[w].Spending?
    ensures var s' := Apply(s, Step.Spend(w), p);
            Sized(s') && |s'.locals| == |s.locals| && Fit(s', w) && Rank(s', w) < Rank(s, w)
  {
    hide RateSteps.Apply, AgeOf, Slot, LoopRank;
    StepKeepsSized(s, Step.Spend(w), p);
    var i := s.locals[w].index;
    LoopStep(s.cells[i], w, p);
    var s' := Apply(s, Step.Spend(w), p);
    assert s'.cells == s.cells[i := s'.cells[i]];
  }

  lemma ProbeStep(s: State, step: Step, w: nat, p: Params)
    requires p.periodMs > 0 && Sized(s) && w < |s.locals| && Fit(s, w) && Enabled(s, step)
    requires !step.Tick? && step.w == w && !step.Spend?
    ensures var s' := Apply(s, step, p);
            && Sized(s') && |s'.locals| == |s.locals| && Fit(s', w)
            && (if step.Begin? then Rank(s', w) == 180 else Rank(s', w) < Rank(s, w))
  {
    hide AgeOf, Slot;
    StepKeepsSized(s, step, p);
  }

  /** An access of a worker brings its call nearer to its end, whatever it meets; no other step changes how
      far it has to go. */
  lemma StepLowersRank(s: State, step: Step, p: Params)
    requires p.periodMs > 0 && AllFit(s) && Enabled(s, step)
    ensures var s' := Apply(s, step, p);
            && AllFit(s') && |s'.locals| == |s.locals|
            && forall w :: 0 <= w < |s.locals| ==>
                 if step.Tick? || step.w != w then Rank(s', w) == Rank(s, w)
                 else if step.Begin? then Rank(s', w) == 180
                 else Rank(s', w) < Rank(s, w)
  {
    hide Apply, Fit, Rank, Enabled;
    var s' := Apply(s, step, p);
    StepKeepsSized(s, step, p);
    forall w | 0 <= w < |s.locals|
      ensures Fit(s', w)
      ensures if step.Tick? || step.w != w then Rank(s', w) == Rank(s, w)
              else if step.Begin? then Rank(s', w) == 180
              else Rank(s', w) < Rank(s, w)
    {
      StepIs(s, step);
      if step.Tick? || step.w != w {
        OtherStep(s, step, w, p);
        SameIsFit(s, s', w);
      } else if step.Spend? {
        SpendStep(s, w, p);
      } else {
        ProbeStep(s, step, w, p);
      }
    }
  }

  lemma StepIs(s: State, step: Step)
    requires Enabled(s, step)
    ensures step.Tick? || step.w < |s.locals|
    ensures step.Spend? ==> s.locals[step.w].Spending? && step == Step.Spend(step.w)
  {
  }

  function OwnSteps(steps: seq<Step>, w: nat): nat {
    if steps == [] then 0 else (if !steps[0].Tick? && steps[0].w == w then 1 else 0) + OwnSteps(steps[1..], w)
  }

  lemma {:induction false} RunLowersRank(s: State, steps: seq<Step>, w: nat, p: Params)
    requires p.periodMs > 0 && AllFit(s) && CanRun(s, steps, p) && w < |s.locals|
    ensures AllFit(Run(s, steps, p)) && |Run(s, steps, p).locals| == |s.locals|
    ensures (forall k :: 0 <= k < |steps| ==> !(steps[k].Begin? && steps[k].w == w)) ==>
              OwnSteps(steps, w) + Rank(Run(s, steps, p), w) <= Rank(s, w)
    decreases |steps|
  {
    hide AllFit, Apply, Rank, Enabled;
    if steps != [] {
      StepLowersRank(s, steps[0], p);
      FitOf(s, w);
      FitOf(Apply(s, steps[0], p), w);
      RunLowersRank(Apply(s, steps[0], p), steps[1..], w, p);
    }
  }

  lemma FitOf(s: State, w: nat)
    requires AllFit(s) && w < |s.locals|
    ensures Sized(s) && Fit(s, w) && Within(s, w)
  {
  }

  /** Every call ends after at most 180 accesses of its own, whatever the other workers do and however often
      they get in its way, and a worker in a call always has its next access to make. */
  lemma CallsEnd(s: State, before: seq<Step>, during: seq<Step>, w: nat, p: Params)
    requires p.periodMs > 0 && Init(s) && CanRun(s, before, p) && CanRun(Run(s, before, p), during, p) && w < |s.locals|
    requires forall k :: 0 <= k < |during| ==> !(during[k].Begin? && during[k].w == w)
    ensures OwnSteps(during, w) <= 180
    ensures var e := Run(Run(s, before, p), during, p);
            |e.locals| == |s.locals| && (!e.locals[w].Idle? ==> Enabled(e, Next(e.locals[w], w)))
  {
    hide Run, CanRun, OwnSteps;
    RunLowersRank(s, before, w, p);
    RunLowersRank(Run(s, before, p), during, w, p);
    var e := Run(Run(s, before, p), during, p);
    FitOf(e, w);
    FitOf(Run(s, before, p), w);
    RankBound(Run(s, before, p), w);
  }

  lemma RankBound(s: State, w: nat)
    requires Sized(s) && w < |s.locals|
    ensures Rank(s, w) <= 180
  {
  }
}
