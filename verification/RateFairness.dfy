/** Rounding never starves a client: keeping the old stamp while a refill rounds to zero bounds
    how long consecutive requests can all be denied. */
module RateFairness {
  import opened RateBucket

  /** Tokens granted per period. */
  function PerPeriod(p: Params): nat {
    p.rateFp / SCALE
  }

  /** Poll times of one client, read off the unwrapped clock. */
  predicate Ordered(polls: seq<nat>) {
    forall i, j :: 0 <= i < j < |polls| ==> polls[i] <= polls[j]
  }

  function Span(polls: seq<nat>): int
    requires polls != []
  {
    polls[|polls| - 1] as int - polls[0] as int
  }

  /** Every one of the polls is denied, starting from the bucket w. */
  predicate AllDenied(w: nat, polls: seq<nat>, p: Params)
    requires p.periodMs > 0
    decreases |polls|
  {
    polls == [] ||
    (!SpendMachine(w, polls[0], p).allow && AllDenied(SpendMachine(w, polls[0], p).word, polls[1..], p))
  }

  /** The longest gap whose refill still rounds to zero. */
  function IdleGap(p: Params): nat
    requires Accepted(p)
  {
    (p.periodMs - 1) / p.rateFp
  }

  lemma IdleGapIs(e: nat, p: Params)
    requires Accepted(p)
    ensures Refill(e, p) == 0 <==> e <= IdleGap(p)
  {
    FloorBounds(p.periodMs - 1, p.rateFp);
    FloorBounds(e * p.rateFp, p.periodMs);
    if e <= IdleGap(p) {
      MulMonotone(e, p.rateFp, IdleGap(p), p.rateFp);
      QuotientAtMost(e * p.rateFp, 0, p.periodMs);
    } else {
      MulMonotone(IdleGap(p) + 1, p.rateFp, e, p.rateFp);
      QuotientAtLeast(e * p.rateFp, 1, p.periodMs);
    }
  }

  /** The bucket's stamp is the low half of the real time `since`. */
  predicate StampedAt(w: nat, since: int) {
    w < WORD && since % WRAP == Stamp(w)
  }

  lemma ElapsedSince(w: nat, since: int, clock: nat)
    requires StampedAt(w, since) && since <= clock < since + WRAP
    ensures Elapsed(clock, Stamp(w)) == clock - since
  {
  }

  /** Each denied poll that moves the stamp pays for at least half the time it consumes, and
      fewer than SCALE units fit below one token. */
  lemma {:induction false} DeniedSpan(w: nat, since: int, polls: seq<nat>, p: Params)
    requires Accepted(p) && polls != [] && Ordered(polls)
    requires StampedAt(w, since) && since <= polls[0] && polls[|polls| - 1] < since + WRAP
    requires Tokens(w) < SCALE && AllDenied(w, polls, p)
    ensures (polls[|polls| - 1] - since) * p.rateFp < p.periodMs * (2 * (SCALE - 1 - Tokens(w)) + 1)
    decreases |polls|
  {
    hide SpendMachine, Refill, Elapsed, Tokens;
    var t, last := polls[0], polls[|polls| - 1];
    var e := t - since;
    var w' := SpendMachine(w, t, p).word;
    var added := Refill(e, p);
    DeniedPoll(w, since, t, p);
    if added == 0 {
      if |polls| > 1 {
        DeniedSpan(w', since, polls[1..], p);
      } else {
        MulMonotone(1, p.periodMs, 2 * (SCALE - 1 - Tokens(w)) + 1, p.periodMs);
      }
    } else {
      if |polls| > 1 {
        DeniedSpan(w', t, polls[1..], p);
      }
      SplitSpan(e, last - t, added, Tokens(w), p);
    }
  }

  /** One denied poll: what it earned stays in the bucket, and the stamp moves with it. */
  lemma DeniedPoll(w: nat, since: int, t: nat, p: Params)
    requires Accepted(p) && StampedAt(w, since) && since <= t < since + WRAP && !SpendMachine(w, t, p).allow
    ensures var w' := SpendMachine(w, t, p).word; var added := Refill(t - since, p);
            && p.periodMs > 0 && w' < WORD && Tokens(w') == Tokens(w) + added < SCALE
            && (t - since) * p.rateFp < (added + 1) * p.periodMs
            && StampedAt(w', if added > 0 then t else since)
  {
    hide SpendMachine, Refill, Elapsed, Tokens, Stamp;
    ElapsedSince(w, since, t);
    SpendParts(w, t, p);
    EarnedFloor(t - since, p);
  }

  lemma EarnedFloor(e: nat, p: Params)
    requires Accepted(p)
    ensures p.periodMs > 0 && e * p.rateFp < (Refill(e, p) + 1) * p.periodMs
  {
    FloorBounds(e * p.rateFp, p.periodMs);
  }

  lemma StampMoved(w: nat, clock: nat)
    requires w < WORD && Stamp(w) == clock % WRAP
    ensures StampedAt(w, clock)
  {
  }

  lemma SplitSpan(e: nat, rest: nat, added: nat, tok: nat, p: Params)
    requires p.periodMs > 0 && added >= 1 && tok + added < SCALE
    requires e * p.rateFp < (added + 1) * p.periodMs
    requires rest * p.rateFp < p.periodMs * (2 * (SCALE - 1 - tok - added) + 1)
    ensures (rest + e) * p.rateFp < p.periodMs * (2 * (SCALE - 1 - tok) + 1)
  {
    MulMonotone(added + 1, p.periodMs, 2 * added, p.periodMs);
    assert (rest + e) * p.rateFp == rest * p.rateFp + e * p.rateFp;
    assert p.periodMs * (2 * (SCALE - 1 - tok) + 1)
        == p.periodMs * (2 * (SCALE - 1 - tok - added) + 1) + 2 * added * p.periodMs;
  }

  /** A client denied on every one of its polls, whatever their times, has been denied for less
      than two periods per granted token, as long as no poll sees its stamp a whole 2^32 ms
      old. */
  lemma DenialIsShort(w: nat, polls: seq<nat>, p: Params)
    requires Accepted(p) && w < WORD && polls != [] && Ordered(polls) && AllDenied(w, polls, p)
    requires Span(polls) + IdleGap(p) < WRAP
    ensures Span(polls) * PerPeriod(p) < 2 * p.periodMs
  {
    hide SpendMachine, Elapsed, Refill, IdleGap, PerPeriod;
    if |polls| > 1 {
      var t, last := polls[0], polls[|polls| - 1];
      var w' := SpendMachine(w, t, p).word;
      var since := FirstPoll(w, t, p);
      DeniedSpan(w', since, polls[1..], p);
      MulMonotone(last - t, p.rateFp, last - since, p.rateFp);
      MulMonotone(2 * (SCALE - 1 - Tokens(w')) + 1, p.periodMs, 2 * SCALE - 1, p.periodMs);
      Descale(last - t, p);
    } else {
      assert Span(polls) == 0;
    }
  }

  /** After a denied poll the stamp is at most one idle gap old. */
  lemma FirstPoll(w: nat, t: nat, p: Params) returns (since: int)
    requires Accepted(p) && w < WORD && !SpendMachine(w, t, p).allow
    ensures var w' := SpendMachine(w, t, p).word;
            StampedAt(w', since) && Tokens(w') < SCALE
    ensures t - IdleGap(p) <= since <= t
  {
    hide SpendMachine, Elapsed, Refill;
    SpendParts(w, t, p);
    var w' := SpendMachine(w, t, p).word;
    var e := Elapsed(t, Stamp(w));
    IdleGapIs(e, p);
    if Refill(e, p) > 0 {
      since := t;
      StampMoved(w', t);
    } else {
      since := t - e;
      StampKept(w', t);
    }
  }

  lemma StampKept(w: nat, clock: nat)
    requires w < WORD
    ensures StampedAt(w, clock - Elapsed(clock, Stamp(w)))
  {
  }

  lemma Descale(span: nat, p: Params)
    requires Accepted(p) && span * p.rateFp < (2 * SCALE - 1) * p.periodMs
    ensures span * PerPeriod(p) < 2 * p.periodMs
  {
    assert p.rateFp == SCALE * PerPeriod(p);
    assert span * p.rateFp == SCALE * (span * PerPeriod(p));
  }

  /** No run of denials spanning at most d ms lasts two periods per token. */
  ghost predicate NeverStarves(d: nat, p: Params)
    requires Accepted(p)
  {
    forall w: nat, polls: seq<nat> ::
      w < WORD && polls != [] && Ordered(polls) && AllDenied(w, polls, p) && Span(polls) <= d ==>
        Span(polls) * PerPeriod(p) < 2 * p.periodMs
  }

  /** The guarantee covers exactly the spans that leave one idle gap short of the 2^32 ms wrap:
      it fails already for two polls that far apart. */
  lemma NeverStarvesIff(d: nat, p: Params)
    requires Accepted(p)
    ensures NeverStarves(d, p) <==> d + IdleGap(p) < WRAP
  {
    if d + IdleGap(p) < WRAP {
      forall w: nat, polls: seq<nat> |
        w < WORD && polls != [] && Ordered(polls) && AllDenied(w, polls, p) && Span(polls) <= d
        ensures Span(polls) * PerPeriod(p) < 2 * p.periodMs
      {
        DenialIsShort(w, polls, p);
      }
    } else {
      WrapStarves(p);
    }
  }

  /** Two polls 2^32 - gap ms apart, the first one gap after the stamp: the second sees the
      stamp as brand new. */
  lemma WrapStarves(p: Params)
    requires Accepted(p)
    ensures var gap := IdleGap(p); var polls := [gap, WRAP];
            && Ordered(polls) && AllDenied(0, polls, p) && Span(polls) == WRAP - gap
            && Span(polls) * PerPeriod(p) >= 2 * p.periodMs
  {
    hide SpendMachine;
    var gap := IdleGap(p);
    var polls := [gap, WRAP];
    QuotientBound(p.periodMs - 1, p.rateFp);
    IdleGapIs(gap, p);
    IdleGapIs(0, p);
    ElapsedSince(0, 0, gap);
    SpendParts(0, gap, p);
    var w := SpendMachine(0, gap, p).word;
    SpendParts(w, WRAP, p);
    assert Elapsed(WRAP, 0) == 0;
    assert polls[1..] == [WRAP] && polls[1..][1..] == [];
    assert AllDenied(SpendMachine(w, WRAP, p).word, [], p);
    assert AllDenied(w, polls[1..], p);
    assert PerPeriod(p) >= 1;
    MulMonotone(WRAP - gap, 1, WRAP - gap, PerPeriod(p));
  }

  // ---- the first touch ----

  lemma QuotientReachesIff(a: nat, q: nat, d: nat)
    requires d > 0
    ensures a / d >= q <==> a >= q * d
  {
    FloorBounds(a, d);
    if a >= q * d {
      QuotientAtLeast(a, q, d);
    }
    if a / d >= q {
      MulMonotone(q, d, a / d, d);
    }
  }

  /** A slot just claimed or evicted (word 0) holds a full burst, as its first touch is meant to
      find it, exactly when the low half of the clock has run long enough to earn one; the
      touch is allowed exactly when it has earned one token. */
  lemma FirstTouchIff(clock: nat, p: Params)
    requires Accepted(p)
    ensures Filled(0, clock, p) == p.burstFp <==> clock % WRAP * p.rateFp >= p.burstFp * p.periodMs
    ensures SpendMachine(0, clock, p).allow <==> clock % WRAP * p.rateFp >= SCALE * p.periodMs
  {
    hide SpendMachine;
    SpendParts(0, clock, p);
    QuotientReachesIff(clock % WRAP * p.rateFp, p.burstFp, p.periodMs);
    QuotientReachesIff(clock % WRAP * p.rateFp, SCALE, p.periodMs);
    FirstFill(clock, p);
  }

  lemma FirstFill(clock: nat, p: Params)
    requires Accepted(p)
    ensures Filled(0, clock, p) == Min(clock % WRAP * p.rateFp / p.periodMs, p.burstFp)
    ensures p.burstFp >= SCALE
  {
    hide SpendMachine;
    assert Stamp(0) == 0 && Tokens(0) == 0;
    ModSmall(clock % WRAP, WRAP);
  }
}
