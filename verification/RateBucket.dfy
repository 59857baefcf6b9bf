/** The arithmetic of one token bucket (heavybag_rate.c): a 64-bit word that packs a
    32-bit millisecond stamp above a 32-bit fixed-point token count. */
module RateBucket {
  const SCALE: nat := 1000                       // one token
  const WRAP: nat := 0x1_0000_0000               // 2^32
  const WORD: nat := 0x1_0000_0000_0000_0000     // 2^64

  /** The numbers of one rule, as rate_check receives them. */
  datatype Params = Params(rateFp: nat, periodMs: nat, burstFp: nat)

  /** What rate_rule_add lets through. */
  predicate Accepted(p: Params) {
    && 0 < p.rateFp < WRAP && p.rateFp % SCALE == 0
    && 0 < p.burstFp < WRAP && p.burstFp % SCALE == 0
    && p.periodMs in {1000, 60000, 3600000}
  }

  function Pack(stamp: nat, tokens: nat): nat {
    stamp * WRAP + tokens
  }

  function Stamp(w: nat): nat {
    w / WRAP
  }

  function Tokens(w: nat): nat {
    w % WRAP
  }

  lemma PackRoundTrip(stamp: nat, tokens: nat)
    requires stamp < WRAP && tokens < WRAP
    ensures Pack(stamp, tokens) < WORD
    ensures Stamp(Pack(stamp, tokens)) == stamp && Tokens(Pack(stamp, tokens)) == tokens
  {
  }

  lemma UnpackRoundTrip(w: nat)
    requires w < WORD
    ensures Stamp(w) < WRAP && Tokens(w) < WRAP && Pack(Stamp(w), Tokens(w)) == w
  {
  }

  /** uint32 subtraction of a stored stamp from the low half of the clock. */
  function Elapsed(clock: nat, stamp: nat): nat {
    (clock % WRAP - stamp) % WRAP
  }

  lemma ElapsedNoWrap(clock: nat, stamp: nat)
    requires stamp <= clock < WRAP
    ensures Elapsed(clock, stamp) == clock - stamp
  {
  }

  datatype Spend = Spend(allow: bool, word: nat)

  /** Take one token if there is one, and pack what is left under the stamp. */
  function Settle(tok: nat, stamp: nat): Spend {
    if tok >= SCALE then Spend(true, Pack(stamp, tok - SCALE)) else Spend(false, Pack(stamp, tok))
  }

  /** One pass of the refill loop body, every machine width written out: the refill product
      and the sum are 64-bit, the clamped count is cut to 32 bits. */
  function SpendMachine(w: nat, clock: nat, p: Params): Spend
    requires p.periodMs > 0
  {
    var added := Elapsed(clock, Stamp(w)) * p.rateFp % WORD / p.periodMs;
    var sum := (Tokens(w) + added) % WORD;
    var tok := (if sum > p.burstFp then p.burstFp else sum) % WRAP;
    Settle(tok, if added > 0 then clock % WRAP else Stamp(w))
  }

  /** Whole fixed-point units earned over `elapsed` milliseconds. */
  function Refill(elapsed: nat, p: Params): nat
    requires p.periodMs > 0
  {
    elapsed * p.rateFp / p.periodMs
  }

  function Min(a: nat, b: nat): nat {
    if a <= b then a else b
  }

  /** The token count a step sees, over unbounded integers. */
  function Filled(w: nat, clock: nat, p: Params): nat
    requires p.periodMs > 0
  {
    Min(Tokens(w) + Refill(Elapsed(clock, Stamp(w)), p), p.burstFp)
  }

  /** The same step over unbounded integers. */
  function SpendExact(w: nat, clock: nat, p: Params): Spend
    requires p.periodMs > 0
  {
    Settle(Filled(w, clock, p), if Refill(Elapsed(clock, Stamp(w)), p) > 0 then clock % WRAP else Stamp(w))
  }

  lemma SettleParts(tok: nat, stamp: nat)
    requires tok < WRAP && stamp < WRAP
    ensures var s := Settle(tok, stamp);
            && s.word < WORD && Stamp(s.word) == stamp
            && s.allow == (tok >= SCALE)
            && Tokens(s.word) == if s.allow then tok - SCALE else tok
  {
    PackRoundTrip(stamp, tok);
    if tok >= SCALE {
      PackRoundTrip(stamp, tok - SCALE);
    }
  }

  lemma MulMonotone(a: nat, b: nat, x: nat, y: nat)
    requires a <= x && b <= y
    ensures a * b <= x * y
  {
    calc <= { a * b; x * b; x * y; }
  }

  /** A floor quotient: q = a / d exactly when q * d <= a < (q + 1) * d. */
  lemma FloorBounds(a: nat, d: nat)
    requires d > 0
    ensures 0 <= a / d
    ensures (a / d) * d <= a < (a / d + 1) * d
  {
    DivNonNegative(a, d);
  }

  lemma DivNonNegative(a: nat, d: nat)
    requires d > 0
    ensures 0 <= a / d
  {
  }

  lemma QuotientAtLeast(a: nat, q: nat, d: nat)
    requires d > 0 && q * d <= a
    ensures q <= a / d
  {
    FloorBounds(a, d);
    if q > a / d {
      MulMonotone(a / d + 1, d, q, d);
    }
  }

  lemma QuotientAtMost(a: nat, q: nat, d: nat)
    requires d > 0 && a < (q + 1) * d
    ensures a / d <= q
  {
    FloorBounds(a, d);
    if a / d >= q + 1 {
      MulMonotone(q + 1, d, a / d, d);
    }
  }

  lemma AddMultiple(q: nat, r: nat, d: nat)
    requires d > 0
    ensures (q * d + r) / d == q + r / d
  {
    FloorBounds(r, d);
    assert (q + r / d) * d == q * d + (r / d) * d;
    assert (q + r / d + 1) * d == q * d + (r / d + 1) * d;
    QuotientAtLeast(q * d + r, q + r / d, d);
    QuotientAtMost(q * d + r, q + r / d, d);
  }

  lemma QuotientBound(a: nat, d: nat)
    requires d > 0
    ensures a / d <= a
  {
    FloorBounds(a, d);
    MulMonotone(a / d, 1, a / d, d);
  }

  lemma ModSmall(a: nat, m: nat)
    requires a < m
    ensures a % m == a
  {
  }

  lemma RefillBound(elapsed: nat, p: Params)
    requires Accepted(p) && elapsed < WRAP
    ensures elapsed * p.rateFp <= (WRAP - 1) * (WRAP - 1)
    ensures Refill(elapsed, p) <= (WRAP - 1) * (WRAP - 1)
  {
    MulMonotone(elapsed, p.rateFp, WRAP - 1, WRAP - 1);
    QuotientBound(elapsed * p.rateFp, p.periodMs);
  }

  /** No accepted rule can overflow: the product and the sum fit 64 bits, the clamped count
      fits 32, so the machine arithmetic is the exact one and the packed word unpacks. */
  lemma AcceptedNeverOverflows(w: nat, clock: nat, p: Params)
    requires Accepted(p) && w < WORD
    ensures Elapsed(clock, Stamp(w)) * p.rateFp < WORD
    ensures Tokens(w) + Refill(Elapsed(clock, Stamp(w)), p) < WORD
    ensures Filled(w, clock, p) < WRAP
    ensures SpendMachine(w, clock, p) == SpendExact(w, clock, p)
    ensures SpendMachine(w, clock, p).word < WORD
  {
    hide Settle;
    var elapsed := Elapsed(clock, Stamp(w));
    UnpackRoundTrip(w);
    RefillBound(elapsed, p);
    ModSmall(elapsed * p.rateFp, WORD);
    ModSmall(Tokens(w) + Refill(elapsed, p), WORD);
    ModSmall(Filled(w, clock, p), WRAP);
    SettleParts(Filled(w, clock, p), if Refill(elapsed, p) > 0 then clock % WRAP else Stamp(w));
  }

  /** The parts of the word a step writes, without the packing. */
  lemma SpendParts(w: nat, clock: nat, p: Params)
    requires Accepted(p) && w < WORD
    ensures var s := SpendMachine(w, clock, p);
            var tok := Filled(w, clock, p);
            && s.word < WORD
            && s.allow == (tok >= SCALE)
            && Tokens(s.word) == (if s.allow then tok - SCALE else tok)
            && Stamp(s.word) == if Refill(Elapsed(clock, Stamp(w)), p) > 0 then clock % WRAP else Stamp(w)
  {
    hide Settle, SpendMachine, Refill;
    AcceptedNeverOverflows(w, clock, p);
    UnpackRoundTrip(w);
    SettleParts(Filled(w, clock, p), if Refill(Elapsed(clock, Stamp(w)), p) > 0 then clock % WRAP else Stamp(w));
  }

  lemma RefillMonotone(e1: nat, e2: nat, p: Params)
    requires p.periodMs > 0 && e1 <= e2
    ensures Refill(e1, p) <= Refill(e2, p)
  {
    MulMonotone(e1, p.rateFp, e2, p.rateFp);
    DivMonotone(e1 * p.rateFp, e2 * p.rateFp, p.periodMs);
  }

  lemma DivMonotone(a: nat, b: nat, d: nat)
    requires d > 0 && a <= b
    ensures a / d <= b / d
  {
    FloorBounds(a, d);
    QuotientAtLeast(b, a / d, d);
  }
}
