/** The fixed-size per-IP slot table of heavybag_rate.c: its specification as a function on
    sequences, and the array code proved against it. */
module RateTable {
  import opened RateBucket

  const PROBE_MAX: nat := 32
  const MIN_SLOTS: nat := 64
  const SIGN_BIT: nat := 0x8000_0000

  datatype Table = Table(keys: seq<nat>, words: seq<nat>)

  /** nslots >= 64 is what rate_hdr_valid and rate_init_zone leave behind. */
  predicate Shape(t: Table) {
    && |t.keys| == |t.words| >= MIN_SLOTS
    && forall i :: 0 <= i < |t.words| ==> t.words[i] < WORD
  }

  function Slot(h: nat, n: nat, p: nat): (i: nat)
    requires n > 0
    ensures i < n
  {
    (h % n + p) % n
  }

  /** The key at offset p of the probe window of h. */
  function KeyAt(t: Table, h: nat, p: nat): nat
    requires Shape(t)
  {
    t.keys[Slot(h, |t.keys|, p)]
  }

  function WordAt(t: Table, h: nat, p: nat): nat
    requires Shape(t)
  {
    t.words[Slot(h, |t.keys|, p)]
  }

  /** First offset >= p where the probe loop stops: an empty slot or the slot of h. */
  function FirstStop(t: Table, h: nat, p: nat): (q: nat)
    requires Shape(t) && p <= PROBE_MAX
    ensures p <= q <= PROBE_MAX
    ensures forall r :: p <= r < q ==> KeyAt(t, h, r) != 0 && KeyAt(t, h, r) != h
    ensures q < PROBE_MAX ==> KeyAt(t, h, q) == 0 || KeyAt(t, h, q) == h
    decreases PROBE_MAX - p
  {
    if p == PROBE_MAX || KeyAt(t, h, p) == 0 || KeyAt(t, h, p) == h then p else FirstStop(t, h, p + 1)
  }

  /** A slot the probe loop may evict: written before, its age positive as a signed 32-bit
      number, and strictly older than one period. */
  predicate Evictable(w: nat, clock: nat, p: Params) {
    && w != 0
    && Elapsed(clock, Stamp(w)) < SIGN_BIT
    && Elapsed(clock, Stamp(w)) > p.periodMs
  }

  datatype Candidate = NoVictim | Victim(index: nat, age: nat)

  function Floor(c: Candidate, p: Params): nat {
    if c.Victim? then c.age else p.periodMs
  }

  /** The candidate kept after the first q probes. */
  function Oldest(t: Table, h: nat, clock: nat, p: Params, q: nat): (c: Candidate)
    requires Shape(t)
    ensures c.Victim? ==> c.index < |t.keys|
  {
    if q == 0 then NoVictim
    else
      var c := Oldest(t, h, clock, p, q - 1);
      var w := WordAt(t, h, q - 1);
      var age := Elapsed(clock, Stamp(w));
      if w != 0 && 0 < age < SIGN_BIT && age > Floor(c, p) then Victim(Slot(h, |t.keys|, q - 1), age) else c
  }

  /** The victim is an evictable slot of the window, no evictable slot of the window is older,
      and there is none only when nothing in the window may be evicted. */
  lemma {:induction false} OldestIsOldest(t: Table, h: nat, clock: nat, p: Params, q: nat)
    requires Shape(t)
    ensures var c := Oldest(t, h, clock, p, q);
            && (c.Victim? ==>
                  && c.age == Elapsed(clock, Stamp(t.words[c.index]))
                  && Evictable(t.words[c.index], clock, p)
                  && exists r :: 0 <= r < q && c.index == Slot(h, |t.keys|, r))
            && (forall r :: 0 <= r < q && Evictable(WordAt(t, h, r), clock, p) ==>
                  c.Victim? && Elapsed(clock, Stamp(WordAt(t, h, r))) <= c.age)
  {
    if q > 0 {
      OldestIsOldest(t, h, clock, p, q - 1);
    }
  }

  datatype Verdict = Ok | Busy

  datatype StepResult = StepResult(table: Table, verdict: Verdict, overflow: nat)

  /** Spend from slot i, now owned by h, whose bucket holds w. */
  function SpendAt(t: Table, i: nat, h: nat, w: nat, clock: nat, p: Params): StepResult
    requires Shape(t) && i < |t.keys| && p.periodMs > 0
  {
    var s := SpendMachine(w, clock, p);
    StepResult(Table(t.keys[i := h], t.words[i := s.word]), if s.allow then Ok else Busy, 0)
  }

  /** One call of rate_check on a live table: reuse or claim a slot, else evict the oldest
      stale one, else count an overflow and let the request through. */
  function TableStep(t: Table, h: nat, clock: nat, p: Params): StepResult
    requires Shape(t) && p.periodMs > 0
  {
    var q := FirstStop(t, h, 0);
    if q < PROBE_MAX then
      SpendAt(t, Slot(h, |t.keys|, q), h, WordAt(t, h, q), clock, p)
    else
      match Oldest(t, h, clock, p, PROBE_MAX)
      case NoVictim => StepResult(t, Ok, 1)
      case Victim(i, _) => SpendAt(t, i, h, 0, clock, p)
  }

  /** rate_check with its fail-open guards; h is the hashed address, 0 for a family the
      limiter does not know. */
  function RateCheck(t: Table, h: nat, clock: nat, p: Params): StepResult
    requires Shape(t)
  {
    if h == 0 || p.periodMs == 0 || p.burstFp == 0 then StepResult(t, Ok, 0) else TableStep(t, h, clock, p)
  }

  lemma MachineFits(w: nat, clock: nat, p: Params)
    requires w < WORD && p.periodMs > 0
    ensures SpendMachine(w, clock, p).word < WORD
  {
    hide Settle;
    var added := Elapsed(clock, Stamp(w)) * p.rateFp % WORD / p.periodMs;
    var sum := (Tokens(w) + added) % WORD;
    var tok := (if sum > p.burstFp then p.burstFp else sum) % WRAP;
    UnpackRoundTrip(w);
    SettleParts(tok, if added > 0 then clock % WRAP else Stamp(w));
  }

  lemma StepKeepsShape(t: Table, h: nat, clock: nat, p: Params)
    requires Shape(t)
    ensures Shape(RateCheck(t, h, clock, p).table)
    ensures |RateCheck(t, h, clock, p).table.keys| == |t.keys|
  {
    hide SpendAt, Slot;
    if h != 0 && p.periodMs != 0 && p.burstFp != 0 {
      var q := FirstStop(t, h, 0);
      var c := Oldest(t, h, clock, p, PROBE_MAX);
      if q < PROBE_MAX {
        SpendKeepsShape(t, Slot(h, |t.keys|, q), h, WordAt(t, h, q), clock, p);
      } else if c.Victim? {
        SpendKeepsShape(t, c.index, h, 0, clock, p);
      }
    }
  }

  lemma SpendKeepsShape(t: Table, i: nat, h: nat, w: nat, clock: nat, p: Params)
    requires Shape(t) && i < |t.keys| && w < WORD && p.periodMs > 0
    ensures Shape(SpendAt(t, i, h, w, clock, p).table)
    ensures |SpendAt(t, i, h, w, clock, p).table.keys| == |t.keys|
  {
    hide SpendMachine;
    MachineFits(w, clock, p);
  }

  /** The zone in shared memory, with the probe loop and the spend step on its arrays. */
  class RateZone {
    const keys: array<nat>
    const words: array<nat>
    var overflow: nat

    ghost predicate Valid()
      reads this, keys, words
    {
      keys != words && Shape(Contents())
    }

    ghost function Contents(): Table
      reads keys, words
    {
      Table(keys[..], words[..])
    }

    constructor (nslots: nat)
      requires nslots >= MIN_SLOTS
      ensures Valid() && fresh(keys) && fresh(words) && overflow == 0
      ensures Contents() == Empty(nslots)
    {
      keys := new nat[nslots](_ => 0);
      words := new nat[nslots](_ => 0);
      overflow := 0;
      new;
      assert keys[..] == seq(nslots, _ => 0);
      assert words[..] == seq(nslots, _ => 0);
    }

    /** The probe loop: stops on the slot of h or claims the first empty one (s), otherwise
        reports the eviction candidate. The array length stands for a null slot pointer. */
    method Probe(h: nat, clock: nat, p: Params) returns (s: nat, oldest: nat)
      requires Valid()
      modifies keys
      ensures var t := old(Contents());
              var q := FirstStop(t, h, 0);
              if q < PROBE_MAX then
                s == Slot(h, keys.Length, q) && keys[..] == t.keys[s := h]
              else
                var c := Oldest(t, h, clock, p, PROBE_MAX);
                s == keys.Length && keys[..] == t.keys && oldest == if c.Victim? then c.index else keys.Length
    {
      ghost var t := Contents();
      var n := keys.Length;
      var bestAge := p.periodMs;
      s, oldest := n, n;
      var i := 0;
      while i < PROBE_MAX
        invariant 0 <= i <= PROBE_MAX && oldest <= n && s == n
        invariant keys[..] == t.keys
        invariant forall r :: 0 <= r < i ==> KeyAt(t, h, r) != 0 && KeyAt(t, h, r) != h
        invariant bestAge == Floor(Oldest(t, h, clock, p, i), p)
        invariant oldest == if Oldest(t, h, clock, p, i).Victim? then Oldest(t, h, clock, p, i).index else n
      {
        var cand := Slot(h, n, i);
        assert keys[cand] == KeyAt(t, h, i) && words[cand] == WordAt(t, h, i);
        var k := keys[cand];
        if k == 0 || k == h {
          StopIs(t, h, 0, i);
          s := cand;
        }
        if k == 0 {
          keys[cand] := h;              // the claim
          return;
        }
        if k == h {
          return;
        }
        var age := Elapsed(clock, Stamp(words[cand]));
        if words[cand] != 0 && 0 < age < SIGN_BIT && age > bestAge {
          bestAge, oldest := age, cand;
        }
        i := i + 1;
      }
      StopIs(t, h, 0, PROBE_MAX);
    }

    /** The spend step on the packed word of slot s. */
    method SpendSlot(s: nat, clock: nat, p: Params) returns (v: Verdict)
      requires words.Length > s && p.periodMs > 0
      modifies words
      ensures var r := SpendMachine(old(words[s]), clock, p);
              words[..] == old(words[..])[s := r.word] && v == if r.allow then Ok else Busy
    {
      var spend := SpendMachine(words[s], clock, p);
      words[s] := spend.word;
      v := if spend.allow then Ok else Busy;
    }

    /** rate_check run by one worker alone: a claim CAS and a state CAS then always succeed. */
    method Check(h: nat, clock: nat, p: Params) returns (v: Verdict)
      requires Valid()
      modifies `overflow, keys, words
      ensures Valid()
      ensures var r := RateCheck(old(Contents()), h, clock, p);
              Contents() == r.table && v == r.verdict && overflow == old(overflow) + r.overflow
    {
      ghost var t := Contents();
      StepKeepsShape(t, h, clock, p);
      if h == 0 || p.periodMs == 0 || p.burstFp == 0 {
        return Ok;
      }
      var s, oldest := Probe(h, clock, p);
      if s == keys.Length {
        if oldest == keys.Length {
          overflow := overflow + 1;
          return Ok;
        }
        s := oldest;
        keys[s] := h;
        words[s] := 0;
      }
      v := SpendSlot(s, clock, p);
    }
  }

  lemma {:induction false} StopIs(t: Table, h: nat, p: nat, q: nat)
    requires Shape(t) && p <= q <= PROBE_MAX
    requires forall r :: p <= r < q ==> KeyAt(t, h, r) != 0 && KeyAt(t, h, r) != h
    requires q < PROBE_MAX ==> KeyAt(t, h, q) == 0 || KeyAt(t, h, q) == h
    ensures FirstStop(t, h, p) == q
    decreases q - p
  {
    if p < q {
      StopIs(t, h, p + 1, q);
    }
  }

  function Empty(n: nat): Table {
    Table(seq(n, _ => 0), seq(n, _ => 0))
  }
}
