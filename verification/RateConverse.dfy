/** The other half of the table refinement: with a larger burst than an eviction may forget, some
    run on the bounded table and on the unbounded map gives different verdicts. */
module RateConverse {
  import opened RateBucket
  import opened RateTable
  import opened RateRefinement

  /** The map a run leaves. */
  function MapAfter(m: map<nat, nat>, reqs: seq<Req>, p: Params): map<nat, nat>
    requires p.periodMs > 0
    decreases |reqs|
  {
    if reqs == [] then m
    else MapAfter(m[reqs[0].key := SpendMachine(Lookup(m, reqs[0].key), reqs[0].clock, p).word], reqs[1..], p)
  }

  predicate Until(reqs: seq<Req>, clock: nat) {
    forall i :: 0 <= i < |reqs| ==> reqs[i].clock <= clock
  }

  /** Some run with no overflow, up to this clock, leaves this table and this map. */
  ghost predicate Reach(n: nat, p: Params, t: Table, m: map<nat, nat>, clock: nat)
    requires n >= MIN_SLOTS && p.periodMs > 0
  {
    exists reqs :: Timeline(reqs, 0) && Until(reqs, clock)
                   && RunTable(Empty(n), reqs, p).overflow == 0
                   && RunTable(Empty(n), reqs, p).table == t && MapAfter(map[], reqs, p) == m
  }

  lemma {:induction false} TimelineSnoc(reqs: seq<Req>, from: nat, r: Req)
    requires Timeline(reqs, from) && Until(reqs, r.clock) && 0 < r.key < WORD && from <= r.clock
    ensures Timeline(reqs + [r], from)
    decreases |reqs|
  {
    if reqs != [] {
      assert (reqs + [r])[1..] == reqs[1..] + [r];
      assert reqs[0].clock <= r.clock;
      TimelineSnoc(reqs[1..], reqs[0].clock, r);
    }
  }

  lemma {:induction false} TableSnoc(t: Table, reqs: seq<Req>, r: Req, p: Params)
    requires Shape(t)
    ensures var a, b := RunTable(t, reqs, p), RunTable(t, reqs + [r], p);
            var s := RateCheck(a.table, r.key, r.clock, p);
            b.verdicts == a.verdicts + [s.verdict] && b.overflow == a.overflow + s.overflow && b.table == s.table
    decreases |reqs|
  {
    hide RateCheck, Shape;
    var all := reqs + [r];
    if reqs == [] {
      assert all[1..] == [];
    } else {
      assert all[1..] == reqs[1..] + [r];
      StepKeepsShape(t, reqs[0].key, reqs[0].clock, p);
      TableSnoc(RateCheck(t, reqs[0].key, reqs[0].clock, p).table, reqs[1..], r, p);
    }
  }

  lemma {:induction false} MapSnoc(m: map<nat, nat>, reqs: seq<Req>, r: Req, p: Params)
    requires p.periodMs > 0
    ensures var a := MapAfter(m, reqs, p);
            var s := SpendMachine(Lookup(a, r.key), r.clock, p);
            && RunMap(m, reqs + [r], p) == RunMap(m, reqs, p) + [if s.allow then Ok else Busy]
            && MapAfter(m, reqs + [r], p) == a[r.key := s.word]
    decreases |reqs|
  {
    hide SpendMachine;
    var all := reqs + [r];
    if reqs == [] {
      assert all[1..] == [];
    } else {
      assert all[1..] == reqs[1..] + [r];
      MapSnoc(m[reqs[0].key := SpendMachine(Lookup(m, reqs[0].key), reqs[0].clock, p).word], reqs[1..], r, p);
    }
  }

  lemma EmptyShape(n: nat)
    requires n >= MIN_SLOTS
    ensures Shape(Empty(n))
  {
  }

  /** Any request the table has room for extends the run; if table and map answer it differently,
      the table does not refine the map. */
  lemma Next(n: nat, p: Params, t: Table, m: map<nat, nat>, from: nat, h: nat, clock: nat)
    requires n >= MIN_SLOTS && Accepted(p) && Shape(t)
    requires Reach(n, p, t, m, from) && from <= clock && 0 < h < WORD
    requires TableStep(t, h, clock, p).overflow == 0
    ensures var s := SpendMachine(Lookup(m, h), clock, p);
            && Reach(n, p, TableStep(t, h, clock, p).table, m[h := s.word], clock)
            && forall limit: nat :: clock < limit && RefinesMap(n, p, limit) ==>
                 TableStep(t, h, clock, p).verdict == if s.allow then Ok else Busy
  {
    hide SpendMachine, TableStep, RateTable.Shape, Timeline;
    EmptyShape(n);
    var reqs :| Timeline(reqs, 0) && Until(reqs, from)
                && RunTable(Empty(n), reqs, p).overflow == 0
                && RunTable(Empty(n), reqs, p).table == t && MapAfter(map[], reqs, p) == m;
    var r := Req(h, clock);
    TimelineSnoc(reqs, 0, r);
    TableSnoc(Empty(n), reqs, r, p);
    MapSnoc(map[], reqs, r, p);
    assert Until(reqs + [r], clock);
    forall limit: nat | clock < limit && RefinesMap(n, p, limit)
      ensures TableStep(t, h, clock, p).verdict == if SpendMachine(Lookup(m, h), clock, p).allow then Ok else Busy
    {
      assert Below(reqs + [r], limit);
      var verdicts := RunTable(Empty(n), reqs + [r], p).verdicts;
      assert verdicts[|verdicts| - 1] == RunMap(map[], reqs + [r], p)[|verdicts| - 1];
    }
  }

  // ---- buckets along the run ----

  predicate Holds(w: nat, stamp: nat, tokens: nat) {
    w < WORD && Stamp(w) == stamp && Tokens(w) == tokens
  }

  /** Spending from a bucket touched at this very millisecond. */
  lemma SpendAgain(w: nat, clock: nat, tokens: nat, p: Params)
    requires Accepted(p) && clock < WRAP && tokens <= p.burstFp && Holds(w, clock, tokens)
    ensures var s := SpendMachine(w, clock, p);
            s.allow == (tokens >= SCALE) && Holds(s.word, clock, if tokens >= SCALE then tokens - SCALE else tokens)
  {
    hide SpendMachine;
    SpendParts(w, clock, p);
    ElapsedNoWrap(clock, clock);
  }

  /** Spending from a bucket that holds tok once refilled. */
  lemma SpendAfter(w: nat, stamp: nat, tokens: nat, clock: nat, tok: nat, p: Params)
    requires Accepted(p) && Holds(w, stamp, tokens) && stamp <= clock < WRAP && Refill(clock - stamp, p) > 0
    requires tok == Min(tokens + Refill(clock - stamp, p), p.burstFp) >= SCALE
    ensures var s := SpendMachine(w, clock, p); s.allow && Holds(s.word, clock, tok - SCALE)
  {
    hide SpendMachine, Refill, Elapsed, Stamp, Tokens;
    SpendParts(w, clock, p);
    ElapsedNoWrap(clock, stamp);
    ModSmall(clock, WRAP);
  }

  lemma FreshHolds()
    ensures Holds(0, 0, 0)
  {
  }

  /** A first touch one period after the clock's zero earns exactly the rate. */
  lemma SpendFirst(p: Params)
    requires Accepted(p) && p.rateFp <= p.burstFp
    ensures var s := SpendMachine(0, p.periodMs, p); s.allow && Holds(s.word, p.periodMs, p.rateFp - SCALE)
  {
    hide Refill, Holds, Accepted, SpendMachine, Min, Lossless;
    FreshHolds();
    OnePeriod(p);
    LesserFirst(p.rateFp, p.burstFp);
    SpendAfter(0, 0, 0, p.periodMs, p.rateFp, p);
  }

  lemma OnePeriod(p: Params)
    requires Accepted(p)
    ensures Refill(p.periodMs, p) == p.rateFp && p.rateFp >= SCALE && 0 < p.periodMs <= 3600000
  {
    AddMultiple(p.rateFp, 0, p.periodMs);
  }

  lemma LesserFirst(a: nat, b: nat)
    requires a <= b
    ensures Min(a, b) == a
  {
  }

  lemma MinAtLeast(a: nat, b: nat, x: nat)
    requires x <= a && x <= b
    ensures Min(a, b) >= x
  {
  }

  lemma LateRefills(p: Params)
    requires Accepted(p) && !Lossless(p)
    ensures 0 < p.periodMs <= 3600000 && SCALE <= Refill(p.periodMs + 1, p) < p.burstFp
    ensures Refill(2 * p.periodMs + 1, p) == p.rateFp + Refill(p.periodMs + 1, p)
  {
    hide Refill;
    OnePeriod(p);
    RefillMonotone(p.periodMs, p.periodMs + 1, p);
    FloorRefill(p);
    DoubleRefill(p);
  }

  /** One millisecond past the staleness floor: a bucket drained at the period's end... */
  lemma SpendLate(w: nat, clock: nat, r: nat, p: Params)
    requires Accepted(p) && !Lossless(p) && Holds(w, p.periodMs, 0)
    requires clock == 2 * p.periodMs + 1 && r == Refill(p.periodMs + 1, p)
    ensures SpendMachine(w, clock, p).allow && Holds(SpendMachine(w, clock, p).word, clock, r - SCALE)
  {
    hide Refill, Holds, Accepted, SpendMachine, Min, Lossless;
    LateRefills(p);
    LesserFirst(r, p.burstFp);
    assert clock - p.periodMs == p.periodMs + 1;
    SpendAfter(w, p.periodMs, 0, clock, r, p);
  }

  /** ... and a fresh one. */
  lemma SpendLateFresh(clock: nat, tok: nat, p: Params)
    requires Accepted(p) && !Lossless(p) && clock == 2 * p.periodMs + 1
    requires tok == Min(p.rateFp + Refill(p.periodMs + 1, p), p.burstFp)
    ensures tok >= SCALE && SpendMachine(0, clock, p).allow
    ensures Holds(SpendMachine(0, clock, p).word, clock, tok - SCALE)
  {
    hide Refill, Holds, Accepted, SpendMachine, Min, Lossless;
    LateRefills(p);
    FreshHolds();
    MinAtLeast(p.rateFp + Refill(p.periodMs + 1, p), p.burstFp, SCALE);
    SpendAfter(0, 0, 0, clock, tok, p);
  }

  // ---- the window of slot 0 ----

  /** Keys 1 and n + 1 probe slots 1 to 32 in order. */
  lemma Home(n: nat, h: nat, r: nat)
    requires n >= MIN_SLOTS && (h == 1 || h == n + 1) && r < PROBE_MAX
    ensures Slot(h, n, r) == 1 + r
  {
    RateBucket.ModSmall(1, n);
    RateBucket.ModSmall(1 + r, n);
    if h == n + 1 {
      AddMultiple(1, 1, n);
      DivSmall(n);
      assert h % n == h - n * (h / n);
    }
  }

  lemma DivSmall(n: nat)
    requires n > 1
    ensures 1 / n == 0
  {
  }

  /** The probe loop of such a key stops where those slots first hold it or nothing. */
  lemma StopsAt(t: Table, n: nat, h: nat, q: nat)
    requires Shape(t) && |t.keys| == n && (h == 1 || h == n + 1) && q <= PROBE_MAX
    requires forall i :: 1 <= i <= q ==> t.keys[i] != 0 && t.keys[i] != h
    requires q < PROBE_MAX ==> t.keys[1 + q] == 0 || t.keys[1 + q] == h
    ensures FirstStop(t, h, 0) == q
  {
    hide Slot;
    forall r: nat | r < q ensures KeyAt(t, h, r) != 0 && KeyAt(t, h, r) != h {
      Home(n, h, r);
    }
    if q < PROBE_MAX {
      Home(n, h, q);
    }
    StopIs(t, h, 0, q);
  }

  /** Each key from 1 to 32 finds its first slot empty or its own. */
  lemma StopsHome(t: Table, n: nat, c: nat)
    requires Shape(t) && |t.keys| == n && 1 <= c <= PROBE_MAX && (t.keys[c] == 0 || t.keys[c] == c)
    ensures FirstStop(t, c, 0) == 0 && Slot(c, n, 0) == c
  {
    RateBucket.ModSmall(c, n);
  }

  /** The table after keys 1 to c arrived one period after the clock's zero. */
  predicate Row(t: Table, n: nat, c: nat, p: Params) {
    && Shape(t) && |t.keys| == n && c <= PROBE_MAX
    && (forall i :: 1 <= i <= c ==> t.keys[i] == i && t.words[i] != 0 && Stamp(t.words[i]) == p.periodMs)
    && (forall i :: c < i <= PROBE_MAX ==> t.keys[i] == 0 && t.words[i] == 0)
  }

  /** Stage one: the first key spends until its bucket is empty. */
  lemma {:induction false} Drain(n: nat, p: Params, j: nat) returns (t: Table, m: map<nat, nat>)
    requires n >= MIN_SLOTS && Accepted(p) && p.rateFp <= p.burstFp
    requires 1 <= j && SCALE * j <= p.rateFp
    ensures Row(t, n, 1, p) && Reach(n, p, t, m, p.periodMs)
    ensures Holds(t.words[1], p.periodMs, p.rateFp - SCALE * j) && Lookup(m, 1) == t.words[1]
  {
    hide SpendMachine, Reach, Slot, FirstStop;
    var from: nat;
    if j == 1 {
      t, m, from := Empty(n), map[], 0;
      ReachEmpty(n, p);
      SpendFirst(p);
    } else {
      t, m := Drain(n, p, j - 1);
      from := p.periodMs;
      SpendAgain(t.words[1], p.periodMs, p.rateFp - SCALE * (j - 1), p);
    }
    StopsHome(t, n, 1);
    Next(n, p, t, m, from, 1, p.periodMs);
    m := m[1 := SpendMachine(Lookup(m, 1), p.periodMs, p).word];
    t := TableStep(t, 1, p.periodMs, p).table;
  }

  lemma ReachEmpty(n: nat, p: Params)
    requires n >= MIN_SLOTS && p.periodMs > 0
    ensures Reach(n, p, Empty(n), map[], 0)
  {
    assert RunTable(Empty(n), [], p).table == Empty(n) && Until([], 0);
  }

  /** Stage two: other keys take the rest of the window. */
  lemma {:induction false} FillRow(n: nat, p: Params, c: nat) returns (t: Table, m: map<nat, nat>)
    requires n >= MIN_SLOTS && Accepted(p) && p.rateFp <= p.burstFp
    requires 1 <= c <= PROBE_MAX
    ensures Row(t, n, c, p) && Reach(n, p, t, m, p.periodMs)
    ensures Holds(Lookup(m, 1), p.periodMs, 0)
  {
    hide SpendMachine, Reach, Slot, FirstStop;
    if c == 1 {
      t, m := Drain(n, p, p.rateFp / SCALE);
    } else {
      t, m := FillRow(n, p, c - 1);
      SpendFirst(p);
      StopsHome(t, n, c);
      Next(n, p, t, m, p.periodMs, c, p.periodMs);
      m := m[c := SpendMachine(Lookup(m, c), p.periodMs, p).word];
      t := TableStep(t, c, p.periodMs, p).table;
    }
  }

  /** The window at one period past the floor: `done` slots taken over at that moment, the rest
      untouched since stage two. */
  predicate Waiting(t: Table, n: nat, done: nat, clock: nat, p: Params) {
    && Shape(t) && |t.keys| == n && done <= PROBE_MAX
    && (forall i :: 1 <= i <= done ==> Stamp(t.words[i]) == clock)
    && (forall i :: done < i <= PROBE_MAX ==> t.words[i] != 0 && Stamp(t.words[i]) == p.periodMs)
  }

  /** The oldest bucket of the window is then the first untouched one. */
  lemma {:induction false} OldestWaiting(t: Table, n: nat, h: nat, done: nat, clock: nat, p: Params, q: nat)
    requires Accepted(p) && clock == 2 * p.periodMs + 1 && Waiting(t, n, done, clock, p) && q <= PROBE_MAX
    requires h == 1 || h == n + 1
    ensures Oldest(t, h, clock, p, q) == if q <= done then NoVictim else Victim(done + 1, p.periodMs + 1)
  {
    hide Slot, Stamp, Elapsed;
    ElapsedNoWrap(clock, clock);
    ElapsedNoWrap(clock, p.periodMs);
    if q > 0 {
      OldestWaiting(t, n, h, done, clock, p, q - 1);
      Home(n, h, q - 1);
    }
  }

  /** A key that is not in such a window takes the first untouched slot from a fresh bucket. */
  lemma TakesOver(t: Table, n: nat, h: nat, done: nat, clock: nat, p: Params)
    requires Accepted(p) && clock == 2 * p.periodMs + 1 && Waiting(t, n, done, clock, p) && done < PROBE_MAX
    requires h == 1 || h == n + 1
    requires forall i :: 1 <= i <= PROBE_MAX ==> t.keys[i] != 0 && t.keys[i] != h
    ensures TableStep(t, h, clock, p) == SpendAt(t, done + 1, h, 0, clock, p)
  {
    hide SpendAt, Stamp, Oldest, FirstStop;
    StopsAt(t, n, h, PROBE_MAX);
    OldestWaiting(t, n, h, done, clock, p, PROBE_MAX);
  }

  lemma RateBelowBurst(p: Params)
    requires Accepted(p) && !Lossless(p)
    ensures p.rateFp <= p.burstFp
  {
    FloorRefill(p);
    DivNonNegative(p.rateFp, p.periodMs);
  }

  /** Stage three: one new key past the floor evicts the drained bucket. */
  lemma Evict(n: nat, p: Params) returns (t: Table, m: map<nat, nat>)
    requires n >= MIN_SLOTS && n + 1 < WORD && Accepted(p) && !Lossless(p)
    ensures Reach(n, p, t, m, 2 * p.periodMs + 1) && Waiting(t, n, 1, 2 * p.periodMs + 1, p)
    ensures forall i :: 1 <= i <= PROBE_MAX ==> t.keys[i] != 0 && t.keys[i] != 1
    ensures Holds(Lookup(m, 1), p.periodMs, 0)
  {
    hide SpendMachine, Reach, Slot, FirstStop, Oldest, TableStep, Refill, Stamp;
    var clock, h := 2 * p.periodMs + 1, n + 1;
    RateBelowBurst(p);
    t, m := FillRow(n, p, PROBE_MAX);
    TakesOver(t, n, h, 0, clock, p);
    SpendLateFresh(clock, Min(p.rateFp + Refill(p.periodMs + 1, p), p.burstFp), p);
    Next(n, p, t, m, p.periodMs, h, clock);
    m := m[h := SpendMachine(Lookup(m, h), clock, p).word];
    t := TableStep(t, h, clock, p).table;
  }

  /** Slot 2 is the slot of key 1 now. */
  predicate Back(t: Table, n: nat) {
    Shape(t) && |t.keys| == n && t.keys[1] != 0 && t.keys[1] != 1 && t.keys[2] == 1
  }

  /** Stage four: the first key returns to a fresh bucket, worth at least a token more than the
      one the map kept. */
  lemma Return(n: nat, p: Params) returns (t: Table, m: map<nat, nat>, a: nat, b: nat)
    requires n >= MIN_SLOTS && n + 1 < WORD && Accepted(p) && !Lossless(p)
    ensures Reach(n, p, t, m, 2 * p.periodMs + 1) && Back(t, n)
    ensures Holds(t.words[2], 2 * p.periodMs + 1, a) && Holds(Lookup(m, 1), 2 * p.periodMs + 1, b)
    ensures b / SCALE < a / SCALE && a <= p.burstFp && b <= p.burstFp
  {
    hide SpendMachine, Reach, Slot, FirstStop, Oldest, TableStep, Refill, Stamp, Lossless;
    var clock := 2 * p.periodMs + 1;
    t, m := Evict(n, p);
    TakesOver(t, n, 1, 1, clock, p);
    var r := Refill(p.periodMs + 1, p);
    var tok := Min(p.rateFp + r, p.burstFp);
    LateRefills(p);
    SpendLate(Lookup(m, 1), clock, r, p);
    SpendLateFresh(clock, tok, p);
    Next(n, p, t, m, clock, 1, clock);
    m := m[1 := SpendMachine(Lookup(m, 1), clock, p).word];
    t := TableStep(t, 1, clock, p).table;
    a, b := tok - SCALE, r - SCALE;
    WholeToken(r, p);
  }

  lemma WholeToken(r: nat, p: Params)
    requires Accepted(p) && SCALE <= r < p.burstFp
    ensures (r - SCALE) / SCALE < (Min(p.rateFp + r, p.burstFp) - SCALE) / SCALE
  {
  }

  /** Stage five: the two buckets spend side by side until only one has a token left. */
  lemma {:induction false} Diverges(n: nat, p: Params, t: Table, m: map<nat, nat>, clock: nat, a: nat, b: nat, limit: nat)
    requires n >= MIN_SLOTS && Accepted(p) && Reach(n, p, t, m, clock) && Back(t, n)
    requires clock < WRAP && Holds(t.words[2], clock, a) && Holds(Lookup(m, 1), clock, b)
    requires b / SCALE < a / SCALE && a <= p.burstFp && b <= p.burstFp && clock < limit
    ensures !RefinesMap(n, p, limit)
    decreases b
  {
    hide SpendMachine, RefinesMap, Reach, Slot, FirstStop, Oldest, Stamp;
    StopsAt(t, n, 1, 1);
    Home(n, 1, 1);
    SpendAgain(t.words[2], clock, a, p);
    SpendAgain(Lookup(m, 1), clock, b, p);
    Next(n, p, t, m, clock, 1, clock);
    if b >= SCALE {
      Diverges(n, p, TableStep(t, 1, clock, p).table, m[1 := SpendMachine(Lookup(m, 1), clock, p).word],
               clock, a - SCALE, b - SCALE, limit);
    }
  }

  /** A larger burst than an eviction may forget: the refinement fails two periods after the clock's
      zero, whatever the size of the zone. */
  lemma LossyDiverges(n: nat, p: Params, limit: nat)
    requires MIN_SLOTS <= n < WORD - 1 && Accepted(p) && !Lossless(p) && limit > 2 * p.periodMs + 1
    ensures !RefinesMap(n, p, limit)
  {
    hide RefinesMap, Holds, Back, Reach;
    var t, m, a, b := Return(n, p);
    Diverges(n, p, t, m, 2 * p.periodMs + 1, a, b, limit);
  }
}
