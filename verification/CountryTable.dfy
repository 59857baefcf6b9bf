/** stat_cc_bump on the table's arrays, run by one worker alone. */
module CountryTable {
  import opened CountrySteps

  class CountryTable {
    const keys: array<nat>
    const total: array<nat>
    const blocked: array<nat>
    var overflow: nat

    ghost predicate Valid()
      reads this, keys, total, blocked
    {
      && keys.Length == total.Length == blocked.Length == SLOTS
      && keys != total && keys != blocked && total != blocked
      && Chained(keys[..])
    }

    constructor ()
      ensures Valid() && fresh(keys) && fresh(total) && fresh(blocked)
      ensures overflow == 0 && forall i :: 0 <= i < SLOTS ==> keys[i] == total[i] == blocked[i] == 0
    {
      keys := new nat[SLOTS](_ => 0);
      total := new nat[SLOTS](_ => 0);
      blocked := new nat[SLOTS](_ => 0);
      overflow := 0;
    }

    /** A bump lands in the one slot its country owns, claiming the first empty slot of its probe
        order when it owns none; only when all 512 slots belong to others does it go to the
        overflow instead. Country 0 is no country. */
    method Bump(c: nat, b: bool)
      requires Valid()
      modifies `overflow, keys, total, blocked
      ensures Valid()
      ensures c == 0 ==> keys[..] == old(keys[..]) && total[..] == old(total[..])
                         && blocked[..] == old(blocked[..]) && overflow == old(overflow)
      ensures c != 0 && (c in old(keys[..]) || 0 in old(keys[..])) ==>
                exists i :: 0 <= i < SLOTS && (old(keys[i]) == c || (old(keys[i]) == 0 && c !in old(keys[..])))
                  && keys[..] == old(keys[..])[i := c]
                  && total[..] == old(total[..])[i := old(total[i]) + 1]
                  && blocked[..] == old(blocked[..])[i := old(blocked[i]) + if b then 1 else 0]
                  && overflow == old(overflow)
      ensures c != 0 && c !in old(keys[..]) && 0 !in old(keys[..]) ==>
                keys[..] == old(keys[..]) && total[..] == old(total[..]) && blocked[..] == old(blocked[..])
                && overflow == old(overflow) + 1
    {
      if c == 0 {
        return;
      }
      ghost var ks := keys[..];
      var probe := 0;
      while probe < SLOTS
        invariant 0 <= probe <= SLOTS && Passed(ks, c, probe)
        invariant keys[..] == ks && total[..] == old(total[..]) && blocked[..] == old(blocked[..])
        invariant overflow == old(overflow)
      {
        var i := Slot(c, probe);
        var cur := keys[i];
        if cur == 0 {
          ClaimerIsNew(ks, c, probe);
          ClaimKeepsKeys(ks, [Claiming(c, b, probe)], 0);
          keys[i] := c;
          cur := c;
        }
        if cur == c {
          total[i] := total[i] + 1;
          if b {
            blocked[i] := blocked[i] + 1;
          }
          assert keys[..] == ks[i := c];
          return;
        }
        probe := probe + 1;
      }
      forall i | 0 <= i < SLOTS ensures ks[i] != 0 && ks[i] != c {
        PassedAll(ks, c, i);
      }
      overflow := overflow + 1;
    }
  }
}
