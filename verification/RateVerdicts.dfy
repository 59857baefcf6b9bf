/** What one call of the limiter answers, and what it changes, on any table whatever. */
module RateVerdicts {
  import opened RateBucket
  import opened RateTable

  /** Slot i lies in the probe window of h. */
  predicate InWindow(t: Table, h: nat, i: nat)
    requires Shape(t)
  {
    exists r :: 0 <= r < PROBE_MAX && Slot(h, |t.keys|, r) == i
  }

  /** The call is one the limiter applies to at all. */
  predicate Live(h: nat, p: Params) {
    h != 0 && p.periodMs != 0 && p.burstFp != 0
  }

  /** Slot i is of use to h: empty, its own, or stale (written, and older than the period and younger
      than 2^31 ms by the 32-bit clock). */
  predicate Usable(t: Table, h: nat, i: nat, clock: nat, p: Params)
    requires Shape(t) && i < |t.keys|
  {
    t.keys[i] == 0 || t.keys[i] == h
    || (t.words[i] != 0 && p.periodMs < (clock % 0x1_0000_0000 - t.words[i] / 0x1_0000_0000) % 0x1_0000_0000 < 0x8000_0000)
  }

  /** No slot of the 32 in the window is of use. */
  predicate Saturated(t: Table, h: nat, clock: nat, p: Params)
    requires Shape(t)
  {
    forall r :: 0 <= r < 32 ==> !Usable(t, h, Slot(h, |t.keys|, r), clock, p)
  }

  lemma UsableIs(t: Table, h: nat, r: nat, clock: nat, p: Params)
    requires Shape(t) && r < PROBE_MAX
    ensures Usable(t, h, Slot(h, |t.keys|, r), clock, p)
            <==> KeyAt(t, h, r) == 0 || KeyAt(t, h, r) == h || Evictable(WordAt(t, h, r), clock, p)
  {
    hide Slot;
  }

  /** A key, period or burst of zero is let through and leaves the table alone. */
  lemma IdleLimiter(t: Table, h: nat, clock: nat, p: Params)
    requires Shape(t) && (h == 0 || p.periodMs == 0 || p.burstFp == 0)
    ensures RateCheck(t, h, clock, p) == StepResult(t, Ok, 0)
  {
  }

  /** An overflow is counted exactly when nothing in the window can be used; the call is then let
      through and the table unchanged. */
  lemma OverflowIff(t: Table, h: nat, clock: nat, p: Params)
    requires Shape(t) && Live(h, p)
    ensures var r := RateCheck(t, h, clock, p);
            && (r.overflow == 1 <==> Saturated(t, h, clock, p)) && (r.overflow == 0 || r.overflow == 1)
            && (r.overflow == 1 ==> r.verdict == Ok && r.table == t)
  {
    hide Slot, Stamp, Elapsed, SpendMachine, Usable, Evictable;
    OldestIsOldest(t, h, clock, p, PROBE_MAX);
    forall r | 0 <= r < 32
      ensures Usable(t, h, Slot(h, |t.keys|, r), clock, p)
              <==> KeyAt(t, h, r) == 0 || KeyAt(t, h, r) == h || Evictable(WordAt(t, h, r), clock, p)
    {
      UsableIs(t, h, r, clock, p);
    }
    var q := FirstStop(t, h, 0);
    var c := Oldest(t, h, clock, p, PROBE_MAX);
    if q < PROBE_MAX {
      assert Usable(t, h, Slot(h, |t.keys|, q), clock, p);
    } else if c.Victim? {
      var r :| 0 <= r < PROBE_MAX && c.index == Slot(h, |t.keys|, r);
      assert Evictable(WordAt(t, h, r), clock, p);
      assert Usable(t, h, Slot(h, |t.keys|, r), clock, p);
    } else {
      forall r | 0 <= r < 32 ensures !Usable(t, h, Slot(h, |t.keys|, r), clock, p) {
        assert KeyAt(t, h, r) != 0 && !Evictable(WordAt(t, h, r), clock, p);
      }
    }
  }

  /** The bucket a call that gets slot i spends from: the slot's own, or a fresh one after an eviction. */
  function SpentFrom(t: Table, h: nat, i: nat): nat
    requires Shape(t) && i < |t.keys|
  {
    if t.keys[i] == 0 || t.keys[i] == h then t.words[i] else 0
  }

  /** Slot i is a right choice for h: its own; the first empty one, none before it being its own; or, none
      being either, one that may be evicted and that no other such slot is older than. */
  predicate RightSlot(t: Table, h: nat, i: nat, clock: nat, p: Params)
    requires Shape(t) && i < |t.keys|
  {
    if t.keys[i] == 0 || t.keys[i] == h then
      exists q :: 0 <= q < 32 && Slot(h, |t.keys|, q) == i
                  && forall r :: 0 <= r < q ==> KeyAt(t, h, r) != 0 && KeyAt(t, h, r) != h
    else
      && InWindow(t, h, i) && Evictable(t.words[i], clock, p)
      && (forall r :: 0 <= r < 32 ==> KeyAt(t, h, r) != 0 && KeyAt(t, h, r) != h)
      && (forall r :: 0 <= r < 32 && Evictable(WordAt(t, h, r), clock, p) ==>
            Elapsed(clock, Stamp(WordAt(t, h, r))) <= Elapsed(clock, Stamp(t.words[i])))
  }

  /** What the rate has earned since the stamp in the word's high 32 bits, in the machine's 32 and 64 bits. */
  function Earned(w: nat, clock: nat, p: Params): nat
    requires p.periodMs > 0
  {
    (clock % 0x1_0000_0000 - w / 0x1_0000_0000) % 0x1_0000_0000 * p.rateFp % 0x1_0000_0000_0000_0000 / p.periodMs
  }

  /** What a bucket holds when it is spent from: its low 32 bits and what was earned, up to the burst. */
  function Held(w: nat, clock: nat, p: Params): nat
    requires p.periodMs > 0
  {
    var sum := (w % 0x1_0000_0000 + Earned(w, clock, p)) % 0x1_0000_0000_0000_0000;
    (if sum > p.burstFp then p.burstFp else sum) % 0x1_0000_0000
  }

  lemma SpendIs(w: nat, clock: nat, p: Params)
    requires p.periodMs > 0
    ensures var s, held := SpendMachine(w, clock, p), Held(w, clock, p);
            && (s.allow <==> held >= 1000)
            && s.word == (if Earned(w, clock, p) > 0 then clock % 0x1_0000_0000 else w / 0x1_0000_0000) * 0x1_0000_0000
                         + (if s.allow then held - 1000 else held)
  {
    EarnedIs(w, clock, p);
    hide Earned, Elapsed;
  }

  lemma EarnedIs(w: nat, clock: nat, p: Params)
    requires p.periodMs > 0
    ensures Earned(w, clock, p) == Elapsed(clock, Stamp(w)) * p.rateFp % WORD / p.periodMs
  {
  }

  /** Under an accepted rule no width is exceeded: the bucket holds what it would over unbounded numbers. */
  lemma HeldIs(w: nat, clock: nat, p: Params)
    requires Accepted(p) && w < WORD
    ensures var full := w % 0x1_0000_0000 + (clock % 0x1_0000_0000 - w / 0x1_0000_0000) % 0x1_0000_0000 * p.rateFp / p.periodMs;
            Held(w, clock, p) == if full <= p.burstFp then full else p.burstFp
  {
    AcceptedNeverOverflows(w, clock, p);
    ModSmall(Elapsed(clock, Stamp(w)) * p.rateFp, WORD);
    ModSmall(Tokens(w) + Refill(Elapsed(clock, Stamp(w)), p), WORD);
    ModSmall(Filled(w, clock, p), WRAP);
    assert Earned(w, clock, p) == Refill(Elapsed(clock, Stamp(w)), p);
  }

  /** Any other call gets a right slot, changes nothing but it, and is refused exactly when the bucket it
      spends from holds less than one token, whatever the rule. */
  lemma VerdictMeans(t: Table, h: nat, clock: nat, p: Params)
    requires Shape(t) && Live(h, p) && !Saturated(t, h, clock, p)
    ensures var r := RateCheck(t, h, clock, p);
            exists i :: 0 <= i < |t.keys| && RightSlot(t, h, i, clock, p)
              && r.table.keys == t.keys[i := h]
              && |r.table.words| == |t.words| && (forall j :: 0 <= j < |t.words| && j != i ==> r.table.words[j] == t.words[j])
              && var w := SpentFrom(t, h, i);
              && (r.verdict == Busy <==> Held(w, clock, p) < 1000)
              && r.table.words[i] == (if Earned(w, clock, p) > 0 then clock % 0x1_0000_0000 else w / 0x1_0000_0000) * 0x1_0000_0000
                                     + (if r.verdict == Busy then Held(w, clock, p) else Held(w, clock, p) - 1000)
  {
    hide Slot, Stamp, Elapsed, SpendMachine, Held, Earned;
    OverflowIff(t, h, clock, p);
    OldestIsOldest(t, h, clock, p, PROBE_MAX);
    var q := FirstStop(t, h, 0);
    var i := if q < PROBE_MAX then Slot(h, |t.keys|, q) else Oldest(t, h, clock, p, PROBE_MAX).index;
    if q < PROBE_MAX {
      assert KeyAt(t, h, q) == t.keys[i];
    } else {
      var r :| 0 <= r < PROBE_MAX && i == Slot(h, |t.keys|, r);
      assert KeyAt(t, h, r) == t.keys[i];
    }
    assert RightSlot(t, h, i, clock, p);
    SpendIs(SpentFrom(t, h, i), clock, p);
  }
}
