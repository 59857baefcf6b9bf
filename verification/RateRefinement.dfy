/** The bounded, evicting table against an unbounded map from keys to buckets. */
module RateRefinement {
  import opened RateBucket
  import opened RateTable

  datatype Req = Req(key: nat, clock: nat)

  /** A clock that never runs back; keys are 64-bit and never 0. */
  predicate Timeline(reqs: seq<Req>, from: nat) {
    reqs == [] || (0 < reqs[0].key < WORD && from <= reqs[0].clock && Timeline(reqs[1..], reqs[0].clock))
  }

  predicate Below(reqs: seq<Req>, limit: nat) {
    forall i :: 0 <= i < |reqs| ==> reqs[i].clock < limit
  }

  datatype Run = Run(verdicts: seq<Verdict>, overflow: nat, table: Table)

  /** A run of requests under one rule on the bounded table. */
  function RunTable(t: Table, reqs: seq<Req>, p: Params): (r: Run)
    requires Shape(t)
    ensures Shape(r.table)
    decreases |reqs|
  {
    if reqs == [] then Run([], 0, t)
    else
      var s := RateCheck(t, reqs[0].key, reqs[0].clock, p);
      StepKeepsShape(t, reqs[0].key, reqs[0].clock, p);
      var rest := RunTable(s.table, reqs[1..], p);
      Run([s.verdict] + rest.verdicts, s.overflow + rest.overflow, rest.table)
  }

  function Lookup(m: map<nat, nat>, k: nat): nat {
    if k in m then m[k] else 0
  }

  /** The same requests on a map that has room for every key. */
  function RunMap(m: map<nat, nat>, reqs: seq<Req>, p: Params): seq<Verdict>
    requires p.periodMs > 0
    decreases |reqs|
  {
    if reqs == [] then []
    else
      var s := SpendMachine(Lookup(m, reqs[0].key), reqs[0].clock, p);
      [if s.allow then Ok else Busy] + RunMap(m[reqs[0].key := s.word], reqs[1..], p)
  }

  /** A bucket older than the staleness floor always refills to a full burst. */
  predicate Lossless(p: Params)
    requires p.periodMs > 0
  {
    p.burstFp <= Refill(p.periodMs + 1, p)
  }

  /** Refill over period + 1 ms is the rate plus whatever one more millisecond earns. */
  lemma FloorRefill(p: Params)
    requires p.periodMs > 0
    ensures Refill(p.periodMs + 1, p) == p.rateFp + p.rateFp / p.periodMs
  {
    assert (p.periodMs + 1) * p.rateFp == p.rateFp * p.periodMs + p.rateFp;
    AddMultiple(p.rateFp, p.rateFp, p.periodMs);
  }

  /** An evictable bucket that a full refill awaits behaves like a fresh one. */
  lemma StaleIsFresh(w: nat, clock: nat, p: Params)
    requires Accepted(p) && w < WORD && clock < WRAP
    requires Lossless(p) && Stamp(w) + p.periodMs < clock
    ensures SpendMachine(w, clock, p) == SpendMachine(0, clock, p)
  {
    hide SpendMachine, Refill, Elapsed;
    SpendParts(w, clock, p);
    SpendParts(0, clock, p);
    FloorRefill(p);
    ElapsedNoWrap(clock, Stamp(w));
    ElapsedNoWrap(clock, 0);
    RefillMonotone(p.periodMs + 1, clock - Stamp(w), p);
    RefillMonotone(p.periodMs + 1, clock, p);
    SameParts(SpendMachine(w, clock, p).word, SpendMachine(0, clock, p).word);
  }

  lemma SameParts(w: nat, v: nat)
    requires w < WORD && v < WORD && Stamp(w) == Stamp(v) && Tokens(w) == Tokens(v)
    ensures w == v
  {
    UnpackRoundTrip(w);
    UnpackRoundTrip(v);
  }

  /** Evicting a stale bucket forgets nothing, whatever it holds, exactly when the burst is at
      most what period + 1 ms refill. (A burst up to the rate always is; rate=10r/s burst=20
      is not.) */
  lemma EvictionForgetsNothingIff(p: Params)
    requires Accepted(p)
    ensures (forall w: nat, clock: nat ::
               w < WORD && Stamp(w) <= clock < WRAP && Evictable(w, clock, p) ==>
                 SpendMachine(w, clock, p) == SpendMachine(0, clock, p))
            <==> p.burstFp <= p.rateFp + p.rateFp / p.periodMs
  {
    FloorRefill(p);
    if Lossless(p) {
      forall w: nat, clock: nat | w < WORD && Stamp(w) <= clock < WRAP && Evictable(w, clock, p)
        ensures SpendMachine(w, clock, p) == SpendMachine(0, clock, p)
      {
        StaleIsFresh(w, clock, p);
      }
    } else {
      EvictionForgets(p);
    }
  }

  /** With a larger burst, a drained bucket evicted one millisecond past the floor comes back
      fuller than it would have been. */
  lemma EvictionForgets(p: Params)
    requires Accepted(p) && p.burstFp > p.rateFp + p.rateFp / p.periodMs
    ensures var w := Pack(p.periodMs, 0); var clock := 2 * p.periodMs + 1;
            && w < WORD && Stamp(w) <= clock < WRAP && Evictable(w, clock, p)
            && SpendMachine(w, clock, p) != SpendMachine(0, clock, p)
  {
    hide SpendMachine, Refill, Elapsed;
    var w, clock := Pack(p.periodMs, 0), 2 * p.periodMs + 1;
    PackRoundTrip(p.periodMs, 0);
    FloorRefill(p);
    ElapsedNoWrap(clock, p.periodMs);
    ElapsedNoWrap(clock, 0);
    SpendParts(w, clock, p);
    SpendParts(0, clock, p);
    DoubleRefill(p);
  }

  lemma DoubleRefill(p: Params)
    requires p.periodMs > 0
    ensures Refill(2 * p.periodMs + 1, p) == 2 * p.rateFp + p.rateFp / p.periodMs
  {
    assert (2 * p.periodMs + 1) * p.rateFp == (2 * p.rateFp) * p.periodMs + p.rateFp;
    AddMultiple(2 * p.rateFp, p.rateFp, p.periodMs);
  }

  /** Key k owns slot i at some offset of its probe window, and no slot probed before it is
      empty. */
  ghost predicate Reachable(t: Table, i: nat)
    requires Shape(t) && i < |t.keys|
  {
    exists p: nat :: p < PROBE_MAX && Slot(t.keys[i], |t.keys|, p) == i
                     && forall q :: 0 <= q < p ==> KeyAt(t, t.keys[i], q) != 0
  }

  /** What every reachable table keeps. */
  ghost predicate TableInv(t: Table)
    requires Shape(t)
  {
    && (forall i :: 0 <= i < |t.keys| && t.keys[i] == 0 ==> t.words[i] == 0)
    && (forall i :: 0 <= i < |t.keys| && t.keys[i] != 0 ==> Reachable(t, i))
    && (forall i, j :: 0 <= i < |t.keys| && 0 <= j < |t.keys| && t.keys[i] == t.keys[j] != 0 ==> i == j)
  }

  /** A probe that stops short of a slot of h cannot exist: the window search is complete. */
  lemma ProbeFindsOwner(t: Table, h: nat, i: nat)
    requires Shape(t) && TableInv(t) && h > 0 && i < |t.keys| && t.keys[i] == h
    ensures var q := FirstStop(t, h, 0); q < PROBE_MAX && Slot(h, |t.keys|, q) == i
  {
    hide Slot, FirstStop;
    var p: nat :| p < PROBE_MAX && Slot(h, |t.keys|, p) == i && forall q :: 0 <= q < p ==> KeyAt(t, h, q) != 0;
    var q := FirstStop(t, h, 0);
    assert KeyAt(t, h, p) == h;
    if q < p {
      assert KeyAt(t, h, q) == h;
    }
  }

  /** Slot i may become the slot of h: it lies in the window of h behind non-empty slots, it is
      not empty-and-used, and h owns no other slot. */
  ghost predicate CanOwn(t: Table, i: nat, h: nat)
    requires Shape(t) && i < |t.keys|
  {
    && h > 0
    && (exists q: nat :: q < PROBE_MAX && Slot(h, |t.keys|, q) == i && forall r :: 0 <= r < q ==> KeyAt(t, h, r) != 0)
    && (forall j :: 0 <= j < |t.keys| && t.keys[j] == h ==> j == i)
  }

  lemma OwnKeepsInv(t: Table, i: nat, h: nat, w: nat)
    requires Shape(t) && TableInv(t) && i < |t.keys| && CanOwn(t, i, h) && w < WORD
    ensures var t' := Table(t.keys[i := h], t.words[i := w]); Shape(t') && TableInv(t')
  {
    hide Slot;
    var t' := Table(t.keys[i := h], t.words[i := w]);
    forall j | 0 <= j < |t'.keys| && t'.keys[j] != 0 ensures Reachable(t', j) {
      var q: nat :| q < PROBE_MAX && Slot(t'.keys[j], |t.keys|, q) == j
                    && forall r :: 0 <= r < q ==> KeyAt(t, t'.keys[j], r) != 0;
      forall r | 0 <= r < q ensures KeyAt(t', t'.keys[j], r) != 0 {
        assert KeyAt(t, t'.keys[j], r) != 0;
      }
    }
  }

  /** The bounded table represents the map: every bucket in the table is the map's bucket, and
      every bucket that is not is fresh or due for a full refill. */
  ghost predicate Represents(t: Table, m: map<nat, nat>, now: nat, p: Params) {
    && Shape(t) && TableInv(t)
    && (forall i :: 0 <= i < |t.keys| ==> Stamp(t.words[i]) <= now)
    && (forall i :: 0 <= i < |t.keys| && t.keys[i] != 0 ==> t.words[i] == Lookup(m, t.keys[i]))
    && (forall k :: k > 0 && k !in t.keys ==> FreshOrDue(Lookup(m, k), now, p))
  }

  ghost predicate FreshOrDue(w: nat, now: nat, p: Params) {
    w == 0 || (w < WORD && Stamp(w) + p.periodMs < now)
  }

  lemma SpendStamp(w: nat, clock: nat, p: Params)
    requires Accepted(p) && w < WORD && Stamp(w) <= clock < WRAP
    ensures SpendMachine(w, clock, p).word < WORD && Stamp(SpendMachine(w, clock, p).word) <= clock
  {
    hide SpendMachine, Refill, Elapsed;
    SpendParts(w, clock, p);
  }

  lemma StillThere(keys: seq<nat>, i: nat, h: nat, k: nat)
    requires i < |keys| && keys[i] != k
    ensures k in keys ==> k in keys[i := h]
  {
    if k in keys {
      var j :| 0 <= j < |keys| && keys[j] == k;
      assert keys[i := h][j] == k;
    }
  }

  /** Handing slot i to h and spending from w keeps the representation, when w answers like the
      map's bucket of h and the key that loses the slot is due. */
  lemma OwnKeepsRepresents(t: Table, m: map<nat, nat>, now: nat, i: nat, h: nat, w: nat, clock: nat, p: Params)
    requires Accepted(p) && Represents(t, m, now, p) && now <= clock < WRAP
    requires i < |t.keys| && CanOwn(t, i, h) && w < WORD && Stamp(w) <= clock
    requires t.keys[i] == 0 || t.keys[i] == h || FreshOrDue(t.words[i], clock, p)
    requires SpendMachine(w, clock, p) == SpendMachine(Lookup(m, h), clock, p)
    ensures var s := SpendMachine(w, clock, p);
            Represents(SpendAt(t, i, h, w, clock, p).table, m[h := s.word], clock, p)
  {
    hide SpendMachine, Slot, Reachable, Stamp;
    SpendStamp(w, clock, p);
    var s := SpendMachine(w, clock, p);
    OwnKeepsInv(t, i, h, s.word);
    var t' := Table(t.keys[i := h], t.words[i := s.word]);
    var m' := m[h := s.word];
    forall k | k > 0 && k !in t'.keys ensures FreshOrDue(Lookup(m', k), clock, p) {
      assert t'.keys[i] == h;
      if t.keys[i] != k {
        StillThere(t.keys, i, h, k);
      }
    }
  }

  /** Where the probe loop stops, h may own the slot; at an empty stop h owns no slot at all. */
  lemma OwnerHere(t: Table, h: nat, q: nat)
    requires Shape(t) && TableInv(t) && h > 0 && q == FirstStop(t, h, 0) < PROBE_MAX
    ensures CanOwn(t, Slot(h, |t.keys|, q), h)
    ensures KeyAt(t, h, q) == 0 ==> h !in t.keys
  {
    hide Slot;
    forall j | 0 <= j < |t.keys| && t.keys[j] == h ensures j == Slot(h, |t.keys|, q) {
      ProbeFindsOwner(t, h, j);
    }
  }

  /** A probe loop that never stops proves the window full of other keys. */
  lemma OwnerNowhere(t: Table, h: nat)
    requires Shape(t) && TableInv(t) && h > 0 && FirstStop(t, h, 0) == PROBE_MAX
    ensures h !in t.keys
    ensures forall r: nat :: r < PROBE_MAX ==> CanOwn(t, Slot(h, |t.keys|, r), h)
  {
    hide Slot;
    forall j | 0 <= j < |t.keys| ensures t.keys[j] != h {
      if t.keys[j] == h {
        ProbeFindsOwner(t, h, j);
      }
    }
  }

  lemma FreshAnswers(w: nat, now: nat, clock: nat, p: Params)
    requires Accepted(p) && Lossless(p) && FreshOrDue(w, now, p) && now <= clock < WRAP
    ensures SpendMachine(w, clock, p) == SpendMachine(0, clock, p)
  {
    if w != 0 {
      StaleIsFresh(w, clock, p);
    }
  }

  lemma VictimIsDue(w: nat, clock: nat, p: Params)
    requires Accepted(p) && Evictable(w, clock, p) && w < WORD && Stamp(w) <= clock < WRAP
    ensures FreshOrDue(w, clock, p)
  {
  }

  lemma HitSimulates(t: Table, m: map<nat, nat>, now: nat, h: nat, clock: nat, p: Params, q: nat)
    requires Accepted(p) && Lossless(p) && Represents(t, m, now, p) && h > 0 && now <= clock < WRAP
    requires q == FirstStop(t, h, 0) < PROBE_MAX
    ensures WordAt(t, h, q) < WORD
    ensures var r := SpendAt(t, Slot(h, |t.keys|, q), h, WordAt(t, h, q), clock, p);
            var s := SpendMachine(Lookup(m, h), clock, p);
            && r.verdict == (if s.allow then Ok else Busy)
            && Represents(r.table, m[h := s.word], clock, p)
  {
    hide SpendMachine, Slot, Reachable, Stamp, Elapsed, Refill;
    var i := Slot(h, |t.keys|, q);
    OwnerHere(t, h, q);
    if t.keys[i] == 0 {
      FreshAnswers(Lookup(m, h), now, clock, p);
    }
    OwnKeepsRepresents(t, m, now, i, h, t.words[i], clock, p);
  }

  lemma FreshStamp()
    ensures Stamp(0) == 0
  {
  }

  lemma EvictionSimulates(t: Table, m: map<nat, nat>, now: nat, h: nat, clock: nat, p: Params)
    requires Accepted(p) && Lossless(p) && Represents(t, m, now, p) && h > 0 && now <= clock < WRAP
    requires FirstStop(t, h, 0) == PROBE_MAX && Oldest(t, h, clock, p, PROBE_MAX).Victim?
    ensures var r := SpendAt(t, Oldest(t, h, clock, p, PROBE_MAX).index, h, 0, clock, p);
            var s := SpendMachine(Lookup(m, h), clock, p);
            && r.verdict == (if s.allow then Ok else Busy)
            && Represents(r.table, m[h := s.word], clock, p)
  {
    hide SpendMachine, Slot, Reachable, Stamp, Elapsed, Refill, TableInv;
    OldestIsOldest(t, h, clock, p, PROBE_MAX);
    var i := Oldest(t, h, clock, p, PROBE_MAX).index;
    OwnerNowhere(t, h);
    VictimIsDue(t.words[i], clock, p);
    FreshAnswers(Lookup(m, h), now, clock, p);
    FreshStamp();
    OwnKeepsRepresents(t, m, now, i, h, 0, clock, p);
  }

  /** One step of the table and one step of the map give the same verdict and keep the
      representation, unless the table counted an overflow. */
  lemma StepSimulates(t: Table, m: map<nat, nat>, now: nat, h: nat, clock: nat, p: Params)
    requires Accepted(p) && Lossless(p) && Represents(t, m, now, p) && h > 0 && now <= clock < WRAP
    requires TableStep(t, h, clock, p).overflow == 0
    ensures var r := TableStep(t, h, clock, p); var s := SpendMachine(Lookup(m, h), clock, p);
            && r.verdict == (if s.allow then Ok else Busy)
            && Represents(r.table, m[h := s.word], clock, p)
  {
    hide SpendAt, SpendMachine, Slot, TableInv, Refill;
    var q := FirstStop(t, h, 0);
    if q < PROBE_MAX {
      HitSimulates(t, m, now, h, clock, p, q);
    } else {
      EvictionSimulates(t, m, now, h, clock, p);
    }
  }

  /** On tables of n slots every run, on a clock that never runs back and stays below the limit, that
      counts no overflow gives the verdicts of the unbounded map. */
  ghost predicate RefinesMap(n: nat, p: Params, limit: nat)
    requires n >= MIN_SLOTS && p.periodMs > 0
  {
    forall reqs :: Timeline(reqs, 0) && Below(reqs, limit) && RunTable(Empty(n), reqs, p).overflow == 0 ==>
      RunTable(Empty(n), reqs, p).verdicts == RunMap(map[], reqs, p)
  }

  /** The refinement up to the clock's 2^32 ms wrap, for every accepted rule whose evictions forget
      nothing. */
  lemma TableRefinesMap(n: nat, p: Params)
    requires n >= MIN_SLOTS && Accepted(p) && p.burstFp <= p.rateFp + p.rateFp / p.periodMs
    ensures RefinesMap(n, p, WRAP)
  {
    hide RunTable, RunMap, Timeline, Below, Represents;
    FloorRefill(p);
    forall reqs | Timeline(reqs, 0) && Below(reqs, WRAP) && RunTable(Empty(n), reqs, p).overflow == 0
      ensures RunTable(Empty(n), reqs, p).verdicts == RunMap(map[], reqs, p)
    {
      EmptyRepresents(n, p);
      RunsAgree(Empty(n), map[], 0, reqs, p);
    }
  }

  lemma EmptyRepresents(n: nat, p: Params)
    requires n >= MIN_SLOTS
    ensures Represents(Empty(n), map[], 0, p)
  {
  }

  lemma {:induction false} RunsAgree(t: Table, m: map<nat, nat>, now: nat, reqs: seq<Req>, p: Params)
    requires Accepted(p) && Lossless(p) && Represents(t, m, now, p) && Timeline(reqs, now) && Below(reqs, WRAP)
    requires RunTable(t, reqs, p).overflow == 0
    ensures RunTable(t, reqs, p).verdicts == RunMap(m, reqs, p)
    decreases |reqs|
  {
    hide SpendMachine, TableStep, Lossless, TableInv, RateTable.Shape;
    if reqs != [] {
      var h, clock := reqs[0].key, reqs[0].clock;
      StepSimulates(t, m, now, h, clock, p);
      var m' := m[h := SpendMachine(Lookup(m, h), clock, p).word];
      RunsAgree(TableStep(t, h, clock, p).table, m', clock, reqs[1..], p);
    }
  }

  /** Every table a run reaches keeps each key in one slot, behind no empty slot of its probe
      order, and its empty slots unwritten. */
  lemma {:induction false} RunsKeepInv(t: Table, reqs: seq<Req>, p: Params)
    requires Shape(t) && TableInv(t)
    ensures TableInv(RunTable(t, reqs, p).table)
    decreases |reqs|
  {
    hide SpendMachine, TableInv, Shape;
    if reqs != [] {
      var h, clock := reqs[0].key, reqs[0].clock;
      StepKeepsShape(t, h, clock, p);
      StepKeepsInv(t, h, clock, p);
      RunsKeepInv(RateCheck(t, h, clock, p).table, reqs[1..], p);
    }
  }

  lemma StepKeepsInv(t: Table, h: nat, clock: nat, p: Params)
    requires Shape(t) && TableInv(t)
    ensures Shape(RateCheck(t, h, clock, p).table) && TableInv(RateCheck(t, h, clock, p).table)
  {
    hide SpendMachine, Slot, TableInv;
    if h != 0 && p.periodMs != 0 && p.burstFp != 0 {
      var q := FirstStop(t, h, 0);
      if q < PROBE_MAX {
        OwnerHere(t, h, q);
        MachineFits(WordAt(t, h, q), clock, p);
        OwnKeepsInv(t, Slot(h, |t.keys|, q), h, SpendMachine(WordAt(t, h, q), clock, p).word);
      } else {
        OldestIsOldest(t, h, clock, p, PROBE_MAX);
        OwnerNowhere(t, h);
        MachineFits(0, clock, p);
        var c := Oldest(t, h, clock, p, PROBE_MAX);
        if c.Victim? {
          OwnKeepsInv(t, c.index, h, SpendMachine(0, clock, p).word);
        }
      }
    }
  }
}
