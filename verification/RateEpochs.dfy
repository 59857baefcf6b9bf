/** A slot's cell across evictions. Each store of an unwritten word begins an epoch; workers of earlier
    owners may still hold words read before it. */
module RateEpochs {
  import opened RateBucket
  import RateSteps
  import opened RateClaims

  predicate InFlight(l: RateSteps.Local) {
    l.AtClock? || l.AtCas?
  }

  /** What a worker holds: a bucket not a wrap ahead of the present one, and the present one itself if
      nothing was written since the read. */
  predicate HoldsWord(c: RateSteps.State, v: nat, p: Params)
    requires v < |c.locals|
  {
    var l := c.locals[v];
    InFlight(l) ==>
      && l.at <= |c.log| && l.seen.tok <= p.burstFp
      && l.seen.since < c.bucket.since + WRAP && l.seen.since <= c.clock
      && (l.at == |c.log| ==> l.seen == c.bucket)
      && (l.AtCas? ==> l.seen.since <= l.now <= c.clock && (l.at == |c.log| ==> c.last <= l.now))
  }

  /** No worker holds a stamp newer than the sample of one that is up to date. */
  predicate Ordered(c: RateSteps.State, v: nat, w: nat)
    requires v < |c.locals| && w < |c.locals|
  {
    InFlight(c.locals[v]) && c.locals[w].AtCas? && c.locals[w].at == |c.log| ==>
      c.locals[v].seen.since <= c.locals[w].now
  }

  predicate Settled(c: RateSteps.State, p: Params)
    requires p.periodMs > 0
  {
    && c.bucket.tok <= p.burstFp && c.bucket.since <= c.last <= c.clock
    && Refill(Elapsed(c.last, c.bucket.since % WRAP), p) == 0
  }

  ghost predicate Epoch(c: RateSteps.State, p: Params)
    requires p.periodMs > 0
  {
    && Settled(c, p)
    && (forall v :: 0 <= v < |c.locals| ==> HoldsWord(c, v, p))
    && (forall v, w :: 0 <= v < |c.locals| && 0 <= w < |c.locals| ==> Ordered(c, v, w))
  }

  lemma NewEpoch(c: RateSteps.State, p: Params)
    requires p.periodMs > 0 && NewCell(c)
    ensures Epoch(c, p)
  {
    RateSteps.RefillZero(p);
  }

  lemma BurstFits(p: Params)
    requires Accepted(p)
    ensures p.burstFp < WRAP
  {
  }

  /** A punctual CAS wins only on the very bucket its worker read, whatever epochs went by. */
  lemma WinsOnSeen(c: RateSteps.State, w: nat, p: Params)
    requires Accepted(p) && Epoch(c, p) && w < |c.locals| && c.locals[w].AtCas? && RateSteps.CasWins(c, w)
    requires RateSteps.OnTime(c, RateSteps.Cas(w), WRAP)
    ensures c.locals[w].seen == c.bucket
  {
    hide Refill, Elapsed;
    BurstFits(p);
    assert HoldsWord(c, w, p);
    var seen := c.locals[w].seen;
    PackRoundTrip(seen.since % WRAP, seen.tok);
    PackRoundTrip(c.bucket.since % WRAP, c.bucket.tok);
    SameStamp(seen.since, c.bucket.since);
  }

  lemma SameStamp(a: nat, b: nat)
    requires a % WRAP == b % WRAP && a < b + WRAP && b < a + WRAP
    ensures a == b
  {
  }

  /** A sample older than the last change earns nothing since the stamp. */
  lemma NothingBefore(since: nat, now: nat, last: nat, p: Params)
    requires Accepted(p) && since <= now <= last < since + WRAP && Refill(Elapsed(last, since % WRAP), p) == 0
    ensures Refill(Elapsed(now, since % WRAP), p) == 0
  {
    hide Refill, Elapsed;
    RateSteps.ElapsedIs(now, since);
    RateSteps.ElapsedIs(last, since);
    ModSmall(now - since, WRAP);
    ModSmall(last - since, WRAP);
    RefillMonotone(now - since, last - since, p);
  }

  /** What a winning CAS does to the bucket: as for an up-to-date one, and with a sample older than the
      last change it moves no stamp. */
  lemma WinMoves(c: RateSteps.State, w: nat, p: Params)
    requires Accepted(p) && Epoch(c, p) && w < |c.locals| && c.locals[w].AtCas? && RateSteps.CasWins(c, w)
    requires RateSteps.OnTime(c, RateSteps.Cas(w), WRAP)
    ensures var now := c.locals[w].now; var c' := RateSteps.Apply(c, RateSteps.Cas(w), p);
            var spend := RateSteps.Spent(c.bucket, now, p);
            && c.locals[w].seen == c.bucket && c.bucket.since <= now <= c.clock
            && c'.bucket == RateSteps.Written(c.bucket, c.bucket, now, p)
            && c'.bucket.tok + (if spend.allow then SCALE else 0)
               <= Min(c.bucket.tok + Refill(Elapsed(now, c.bucket.since % WRAP), p), p.burstFp)
            && (|c'.log| == |c.log| ==> c' == c.(locals := c.locals[w := RateSteps.Idle]) && !spend.allow)
            && (|c'.log| != |c.log| ==> |c'.log| == |c.log| + 1)
            && (now < c.last ==> c'.bucket.since == c.bucket.since && Refill(Elapsed(now, c.bucket.since % WRAP), p) == 0)
            && (c'.bucket.since == c.bucket.since || c'.bucket.since == now)
            && Settled(c', p)
  {
    hide RateSteps.Word, RateSteps.Spent, RateSteps.Written, Refill, Elapsed, Ordered;
    var l := c.locals[w];
    WinsOnSeen(c, w, p);
    assert HoldsWord(c, w, p);
    RateSteps.WriteAdvances(c.bucket, l.now, p);
    if l.now < c.last {
      NothingBefore(c.bucket.since, l.now, c.last, p);
    }
  }

  lemma WinKeepsEpoch(c: RateSteps.State, w: nat, p: Params)
    requires Accepted(p) && Epoch(c, p) && w < |c.locals| && c.locals[w].AtCas? && RateSteps.CasWins(c, w)
    requires RateSteps.OnTime(c, RateSteps.Cas(w), WRAP)
    ensures Epoch(RateSteps.Apply(c, RateSteps.Cas(w), p), p)
  {
    hide RateSteps.Word, RateSteps.Spent, RateSteps.Written, Refill, Elapsed, Settled;
    var c' := RateSteps.Apply(c, RateSteps.Cas(w), p);
    WinMoves(c, w, p);
    assert HoldsWord(c, w, p);
    forall v | 0 <= v < |c'.locals| ensures HoldsWord(c', v, p) {
      assert HoldsWord(c, v, p) && Ordered(c, v, w);
    }
    forall v, u | 0 <= v < |c'.locals| && 0 <= u < |c'.locals| ensures Ordered(c', v, u) {
      assert HoldsWord(c, u, p) && Ordered(c, v, u);
    }
  }

  lemma ReadKeepsEpoch(c: RateSteps.State, step: RateSteps.Step, p: Params)
    requires Accepted(p) && Epoch(c, p) && RateSteps.Enabled(c, step)
    requires step.Cas? ==> !RateSteps.CasWins(c, step.w)
    ensures Epoch(RateSteps.Apply(c, step, p), p)
  {
    hide RateSteps.Word, RateSteps.Spent, RateSteps.Written, Refill, Elapsed, RateSteps.CasWins;
    var c' := RateSteps.Apply(c, step, p);
    forall v | 0 <= v < |c'.locals| ensures HoldsWord(c', v, p) {
      assert HoldsWord(c, v, p);
    }
    forall v, u | 0 <= v < |c'.locals| && 0 <= u < |c'.locals| ensures Ordered(c', v, u) {
      assert HoldsWord(c, u, p) && HoldsWord(c, v, p) && Ordered(c, v, u);
    }
  }

  lemma EpochStep(c: RateSteps.State, step: RateSteps.Step, p: Params)
    requires Accepted(p) && Epoch(c, p) && RateSteps.Enabled(c, step) && RateSteps.OnTime(c, step, WRAP)
    ensures Epoch(RateSteps.Apply(c, step, p), p)
  {
    hide Epoch, RateSteps.CasWins, RateSteps.Apply;
    if step.Cas? && RateSteps.CasWins(c, step.w) {
      WinKeepsEpoch(c, step.w, p);
    } else {
      ReadKeepsEpoch(c, step, p);
    }
  }

  /** The store of an unwritten word begins an epoch, whatever words are still held. */
  lemma StoreKeepsEpoch(c: RateSteps.State, w: nat, p: Params)
    requires Accepted(p) && Epoch(c, p)
    ensures Epoch(Unwritten(c, w), p)
  {
    hide Refill, Elapsed, Zero;
    var c', z := Unwritten(c, w), Zero(c.clock);
    RateSteps.ElapsedIs(z, z);
    RateSteps.RefillZero(p);
    forall v | 0 <= v < |c'.locals| ensures HoldsWord(c', v, p) {
      assert HoldsWord(c, v, p);
    }
    forall v, u | 0 <= v < |c'.locals| && 0 <= u < |c'.locals| ensures Ordered(c', v, u) {
      assert HoldsWord(c, u, p);
    }
  }

  // ---- the budget of an epoch ----

  /** A write that earns nothing keeps the budget, even with a sample older than the last change. */
  lemma NullWriteKeepsBudget(spent: nat, grant: nat, b: RateSteps.Bucket, b': RateSteps.Bucket, last: nat, now: nat,
                             t0: nat, p: Params)
    requires p.periodMs > 0 && RateSteps.WithinBudget(spent, b, last, t0, p) && b'.since == b.since
    requires b'.tok + grant <= b.tok && now <= last && (grant > 0 ==> t0 <= now)
    ensures RateSteps.WithinBudget(spent + grant, b', last, t0, p)
  {
    RateSteps.ScaleUp(spent + grant + b'.tok - p.burstFp, spent + b.tok - p.burstFp, p.periodMs);
  }

  lemma WinKeepsBudget(c: RateSteps.State, w: nat, t0: nat, t1: nat, p: Params)
    requires Accepted(p) && t0 <= t1 && Epoch(c, p) && RateSteps.InBudget(c, t0, t1, p)
    requires w < |c.locals| && c.locals[w].AtCas? && RateSteps.CasWins(c, w)
    requires RateSteps.OnTime(c, RateSteps.Cas(w), WRAP)
    ensures RateSteps.InBudget(RateSteps.Apply(c, RateSteps.Cas(w), p), t0, t1, p)
  {
    hide RateSteps.Word, RateSteps.Spent, RateSteps.Written, Refill, Elapsed, RateSteps.WithinBudget, RateSteps.Budget,
         RateSteps.Count, RateSteps.CasWins;
    var now := c.locals[w].now;
    var c' := RateSteps.Apply(c, RateSteps.Cas(w), p);
    WinMoves(c, w, p);
    RateSteps.CountPush(c.granted, now, t0, t1);
    var spent := SCALE * RateSteps.Count(c.granted, t0, t1);
    var grant := if RateSteps.Spent(c.bucket, now, p).allow && t0 <= now <= t1 then SCALE else 0;
    assert SCALE * RateSteps.Count(c'.granted, t0, t1) == spent + grant;
    if now < c.last {
      NullWriteKeepsBudget(spent, grant, c.bucket, c'.bucket, c.last, now, t0, p);
    } else {
      RateSteps.WriteKeepsBudget(spent, c.bucket, c.last, now, t0, t1, p);
      if |c'.log| == |c.log| {
        assert grant == 0;
      }
    }
    if c'.bucket.since <= t1 {
      RateSteps.BudgetCaps(spent + grant, c'.bucket, c'.last, t0, t1, p);
    }
  }

  ghost predicate EpochInv(c: RateSteps.State, t0: nat, t1: nat, p: Params)
    requires p.periodMs > 0 && t0 <= t1
  {
    Epoch(c, p) && RateSteps.InBudget(c, t0, t1, p)
  }

  lemma StepKeepsEpoch(c: RateSteps.State, step: RateSteps.Step, t0: nat, t1: nat, p: Params)
    requires Accepted(p) && t0 <= t1 && EpochInv(c, t0, t1, p)
    requires RateSteps.Enabled(c, step) && RateSteps.OnTime(c, step, WRAP)
    ensures EpochInv(RateSteps.Apply(c, step, p), t0, t1, p)
  {
    hide Epoch, RateSteps.CasWins, RateSteps.WithinBudget, RateSteps.Budget, RateSteps.Count, RateSteps.Written, RateSteps.Spent;
    EpochStep(c, step, p);
    if step.Cas? && RateSteps.CasWins(c, step.w) {
      WinKeepsBudget(c, step.w, t0, t1, p);
    }
  }

  lemma StoreKeepsBudget(c: RateSteps.State, w: nat, t0: nat, t1: nat, p: Params)
    requires Accepted(p) && t0 <= t1 && EpochInv(c, t0, t1, p)
    ensures EpochInv(Unwritten(c, w), t0, t1, p)
  {
    hide Epoch, Zero, Refill;
    StoreKeepsEpoch(c, w, p);
    var z := Zero(c.clock);
    if t0 <= z {
      RateSteps.ScaleUp(-(p.burstFp as int), 0, p.periodMs);
      RateSteps.ScaleUp(0, z - t0, p.rateFp);
    }
  }
}
