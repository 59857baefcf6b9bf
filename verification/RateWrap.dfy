/** The table against the map once the clock has wrapped, and the exact reach of the refinement. */
module RateWrap {
  import opened RateBucket
  import opened RateTable
  import opened RateRefinement
  import opened RateConverse

  /** The last moment whose buckets are stale when the clock reaches 2^32. */
  function Eve(p: Params): (t: nat)
    requires Accepted(p)
    ensures t < WRAP && t + p.periodMs + 1 == WRAP
  {
    WRAP - p.periodMs - 1
  }

  /** Keys 1 to c own slots 1 to c, all written on the eve. */
  predicate Dressed(t: Table, n: nat, c: nat, p: Params)
    requires Accepted(p)
  {
    && Shape(t) && |t.keys| == n && c <= PROBE_MAX
    && (forall i :: 1 <= i <= c ==> t.keys[i] == i && Holding(t.words[i], Eve(p)))
    && (forall i :: c < i <= PROBE_MAX ==> t.keys[i] == 0 && t.words[i] == 0)
  }

  predicate Holding(w: nat, stamp: nat) {
    w != 0 && w < WORD && Stamp(w) == stamp
  }

  /** A first touch on the eve. */
  lemma TouchOnEve(p: Params)
    requires Accepted(p)
    ensures Holding(SpendMachine(0, Eve(p), p).word, Eve(p))
  {
    hide SpendMachine, Refill;
    SpendParts(0, Eve(p), p);
    FreshStamp();
    ElapsedNoWrap(Eve(p), 0);
    EveEarns(p);
  }

  lemma EveEarns(p: Params)
    requires Accepted(p)
    ensures Refill(Eve(p), p) > 0
  {
    hide Refill;
    OnePeriod(p);
    RefillMonotone(p.periodMs, Eve(p), p);
  }

  lemma {:induction false} Dresses(n: nat, p: Params, c: nat) returns (t: Table, m: map<nat, nat>)
    requires n >= MIN_SLOTS && Accepted(p) && c <= PROBE_MAX
    ensures Dressed(t, n, c, p) && Reach(n, p, t, m, Eve(p))
    ensures c > 0 ==> Holding(Lookup(m, 1), Eve(p))
    ensures forall i :: i in m ==> i <= c
  {
    hide SpendMachine, Reach, Slot, FirstStop, Accepted;
    if c == 0 {
      t, m := Empty(n), map[];
      EmptyShape(n);
      ReachLater(n, p);
    } else {
      t, m := Dresses(n, p, c - 1);
      TouchOnEve(p);
      StopsHome(t, n, c);
      PeriodPositive(p);
      Next(n, p, t, m, Eve(p), c, Eve(p));
      m := m[c := SpendMachine(Lookup(m, c), Eve(p), p).word];
      t := TableStep(t, c, Eve(p), p).table;
    }
  }

  lemma PeriodPositive(p: Params)
    requires Accepted(p)
    ensures p.periodMs > 0
  {
  }

  lemma ReachLater(n: nat, p: Params)
    requires n >= MIN_SLOTS && Accepted(p)
    ensures Reach(n, p, Empty(n), map[], Eve(p))
  {
    assert RunTable(Empty(n), [], p).table == Empty(n) && Until([], Eve(p)) && MapAfter(map[], [], p) == map[];
  }

  // ---- at the wrap ----

  /** A fresh bucket at clock 2^32 has nothing, and stays unwritten. */
  lemma FreshAtWrap(p: Params)
    requires Accepted(p)
    ensures SpendMachine(0, WRAP, p) == Spend(false, 0)
  {
    hide SpendMachine, Refill;
    SpendParts(0, WRAP, p);
    NothingYet(p);
    SameParts(SpendMachine(0, WRAP, p).word, 0);
  }

  lemma NothingYet(p: Params)
    requires Accepted(p)
    ensures Refill(Elapsed(WRAP, Stamp(0)), p) == 0 && Tokens(0) == 0 && Stamp(0) == 0
  {
  }

  /** A bucket of the eve has earned a token by then. */
  lemma StaleAtWrap(w: nat, p: Params)
    requires Accepted(p) && Holding(w, Eve(p))
    ensures Elapsed(WRAP, Stamp(w)) == p.periodMs + 1
    ensures SpendMachine(w, WRAP, p).allow
  {
    hide SpendMachine, Refill;
    SpendParts(w, WRAP, p);
    OnePeriod(p);
    RefillMonotone(p.periodMs, p.periodMs + 1, p);
    WrapElapsed(p);
  }

  lemma WrapElapsed(p: Params)
    requires Accepted(p)
    ensures Elapsed(WRAP, Eve(p)) == p.periodMs + 1 && p.periodMs + 1 < SIGN_BIT
  {
  }

  /** The window at the wrap: `done` slots taken over from fresh buckets that stay unwritten. */
  predicate Turning(t: Table, n: nat, done: nat, p: Params)
    requires Accepted(p)
  {
    && Shape(t) && |t.keys| == n && done <= PROBE_MAX
    && (forall i :: 1 <= i <= done ==> t.words[i] == 0)
    && (forall i :: done < i <= PROBE_MAX ==> Holding(t.words[i], Eve(p)))
  }

  lemma {:induction false} OldestTurning(t: Table, n: nat, h: nat, done: nat, p: Params, q: nat)
    requires Accepted(p) && Turning(t, n, done, p) && q <= PROBE_MAX && (h == 1 || h == n + 1)
    ensures Oldest(t, h, WRAP, p, q) == if q <= done then NoVictim else Victim(done + 1, p.periodMs + 1)
  {
    hide Slot, Stamp, Elapsed, Accepted;
    if q > 0 {
      OldestTurning(t, n, h, done, p, q - 1);
      Home(n, h, q - 1);
      WrapElapsed(p);
      PeriodPositive(p);
    }
  }

  lemma TakesOverAtWrap(t: Table, n: nat, h: nat, done: nat, p: Params)
    requires Accepted(p) && Turning(t, n, done, p) && done < PROBE_MAX && (h == 1 || h == n + 1)
    requires forall i :: 1 <= i <= PROBE_MAX ==> t.keys[i] != 0 && t.keys[i] != h
    ensures TableStep(t, h, WRAP, p) == SpendAt(t, done + 1, h, 0, WRAP, p)
  {
    hide SpendAt, Stamp, Oldest, FirstStop;
    StopsAt(t, n, h, PROBE_MAX);
    OldestTurning(t, n, h, done, p, PROBE_MAX);
  }

  /** At clock 2^32 a new key evicts key 1, and key 1 comes back to a bucket that has earned nothing
      yet, where the map kept one worth a token. */
  lemma WrapDiverges(n: nat, p: Params, limit: nat)
    requires MIN_SLOTS <= n < WORD - 1 && Accepted(p) && limit > WRAP
    ensures !RefinesMap(n, p, limit)
  {
    hide SpendMachine, Reach, RefinesMap, Slot, FirstStop, Oldest, TableStep, Refill, Accepted;
    PeriodPositive(p);
    var t, m := Dresses(n, p, PROBE_MAX);
    FreshAtWrap(p);
    TakesOverAtWrap(t, n, n + 1, 0, p);
    Next(n, p, t, m, Eve(p), n + 1, WRAP);
    m := m[n + 1 := SpendMachine(Lookup(m, n + 1), WRAP, p).word];
    t := TableStep(t, n + 1, WRAP, p).table;
    TakesOverAtWrap(t, n, 1, 1, p);
    StaleAtWrap(Lookup(m, 1), p);
    Next(n, p, t, m, WRAP, 1, WRAP);
  }

  // ---- the exact reach ----

  lemma SmallerLimit(n: nat, p: Params, a: nat, b: nat)
    requires n >= MIN_SLOTS && p.periodMs > 0 && a <= b && RefinesMap(n, p, b)
    ensures RefinesMap(n, p, a)
  {
    hide Timeline, RunTable, RunMap;
    forall reqs | Timeline(reqs, 0) && Below(reqs, a) && RunTable(Empty(n), reqs, p).overflow == 0
      ensures RunTable(Empty(n), reqs, p).verdicts == RunMap(map[], reqs, p)
    {
      assert Below(reqs, b);
    }
  }

  /** From an empty zone of any size, over clocks below the limit: the bounded table answers like the
      map exactly for the rules whose evictions forget nothing, and exactly up to the clock's wrap. */
  lemma RefinesMapIff(n: nat, p: Params, limit: nat)
    requires MIN_SLOTS <= n < WORD - 1 && Accepted(p) && limit > 2 * p.periodMs + 1
    ensures RefinesMap(n, p, limit) <==> p.burstFp <= p.rateFp + p.rateFp / p.periodMs && limit <= WRAP
  {
    hide RefinesMap;
    FloorRefill(p);
    if limit > WRAP {
      WrapDiverges(n, p, limit);
    } else if Lossless(p) {
      TableRefinesMap(n, p);
      SmallerLimit(n, p, limit, WRAP);
    } else {
      LossyDiverges(n, p, limit);
    }
  }

  /** An eviction on a clock below the limit forgets nothing: a bucket that may be evicted answers like
      a fresh one. */
  ghost predicate EvictionForgetsNothing(p: Params, limit: nat)
    requires p.periodMs > 0
  {
    forall w: nat, clock: nat :: w < WORD && Stamp(w) <= clock < limit && Evictable(w, clock, p) ==>
      SpendMachine(w, clock, p) == SpendMachine(0, clock, p)
  }

  /** A bucket of the eve, evicted at the wrap. */
  lemma WrapForgets(p: Params)
    requires Accepted(p)
    ensures var w := Pack(Eve(p), 0);
            && w < WORD && Stamp(w) <= WRAP && Evictable(w, WRAP, p)
            && SpendMachine(w, WRAP, p) != SpendMachine(0, WRAP, p)
  {
    hide SpendMachine, Elapsed;
    PackRoundTrip(Eve(p), 0);
    PackedEve(p);
    StaleAtWrap(Pack(Eve(p), 0), p);
    WrapElapsed(p);
    FreshAtWrap(p);
  }

  lemma PackedEve(p: Params)
    requires Accepted(p)
    ensures Holding(Pack(Eve(p), 0), Eve(p))
  {
    PackRoundTrip(Eve(p), 0);
  }

  /** Evictions forget nothing exactly for the rules with a burst of at most what period + 1 ms refill,
      and exactly up to the clock's wrap. */
  lemma EvictionForgetsNothingBelowIff(p: Params, limit: nat)
    requires Accepted(p) && limit > 2 * p.periodMs + 1
    ensures EvictionForgetsNothing(p, limit) <==> p.burstFp <= p.rateFp + p.rateFp / p.periodMs && limit <= WRAP
  {
    hide SpendMachine, Evictable, Stamp;
    if limit > WRAP {
      WrapForgets(p);
    } else if p.burstFp <= p.rateFp + p.rateFp / p.periodMs {
      EvictionForgetsNothingIff(p);
    } else {
      EvictionForgets(p);
    }
  }
}
