/** The step machine of the per-country table: what a bump does that nobody interferes with, and that no
    interference can keep a bump from ending. */
module CountrySolo {
  import opened CountrySteps

  /** The next access of a worker in a bump. */
  function Next(l: Local, w: nat): Step
    requires !l.Idle?
  {
    match l
    case Loading(_, _, _) => Load(w)
    case Claiming(_, _, _) => Claim(w)
    case Rereading(_, _, _) => Reread(w)
    case Counting(_, _, _) => Count(w)
    case Blocking(_, _) => Block(w)
    case Dropping(_, _) => Drop(w)
  }

  lemma StepKeepsShape(s: State, step: Step)
    requires Shape(s) && Enabled(s, step)
    ensures Shape(Apply(s, step)) && |Apply(s, step).locals| == |s.locals|
  {
  }

  /** Up to n accesses of worker w alone, until its bump ends or it can go no further. */
  function Alone(s: State, w: nat, n: nat): State
    requires Shape(s) && w < |s.locals|
    decreases n
  {
    if n == 0 || s.locals[w].Idle? || !Enabled(s, Next(s.locals[w], w)) then s
    else
      StepKeepsShape(s, Next(s.locals[w], w));
      Alone(Apply(s, Next(s.locals[w], w)), w, n - 1)
  }

  lemma AloneGoes(s: State, w: nat, n: nat)
    requires Shape(s) && w < |s.locals| && n > 0 && !s.locals[w].Idle? && Enabled(s, Next(s.locals[w], w))
    ensures var s' := Apply(s, Next(s.locals[w], w));
            Shape(s') && |s'.locals| == |s.locals| && Alone(s, w, n) == Alone(s', w, n - 1)
  {
    hide Apply;
    StepKeepsShape(s, Next(s.locals[w], w));
  }

  lemma AloneStops(s: State, w: nat, n: nat)
    requires Shape(s) && w < |s.locals| && s.locals[w].Idle?
    ensures Alone(s, w, n) == s
  {
  }

  /** One bump in slot i, which is c's from now on. */
  predicate BumpedAt(s: State, e: State, i: nat, c: nat, b: bool)
    requires Shape(s) && i < SLOTS
  {
    && e.keys == s.keys[i := c] && e.total == s.total[i := s.total[i] + 1]
    && e.blocked == (if b then s.blocked[i := s.blocked[i] + 1] else s.blocked) && e.overflow == s.overflow
  }

  function Probed(c: nat, q: nat): nat {
    (c % 512 + q) % 512
  }

  /** Where c's bump goes: its own slot, or the first empty one in the order c % 512, c % 512 + 1, ... of its
      probes, or nowhere. */
  predicate GoesTo(keys: seq<nat>, c: nat, q: nat)
    requires |keys| == SLOTS
  {
    && q < 512 && (keys[Probed(c, q)] == 0 || keys[Probed(c, q)] == c)
    && forall r :: 0 <= r < q ==> keys[Probed(c, r)] != 0 && keys[Probed(c, r)] != c
  }

  predicate GoesNowhere(keys: seq<nat>, c: nat)
    requires |keys| == SLOTS
  {
    forall i :: 0 <= i < 512 ==> keys[i] != 0 && keys[i] != c
  }

  /** The outcome of a bump that nobody interfered with. */
  ghost predicate Bumped(s: State, e: State, c: nat, b: bool)
    requires Shape(s)
  {
    && (forall q :: GoesTo(s.keys, c, q) ==> BumpedAt(s, e, Probed(c, q), c, b))
    && (GoesNowhere(s.keys, c) ==>
          e.keys == s.keys && e.total == s.total && e.blocked == s.blocked && e.overflow == s.overflow + 1)
  }

  lemma CountsAlone(s: State, w: nat, n: nat)
    requires Shape(s) && w < |s.locals| && s.locals[w].Counting? && s.locals[w].i < SLOTS && n >= 2
    ensures var l := s.locals[w]; var e := Alone(s, w, n);
            && e.locals == s.locals[w := Idle] && e.keys == s.keys && e.total == s.total[l.i := s.total[l.i] + 1]
            && e.blocked == (if l.b then s.blocked[l.i := s.blocked[l.i] + 1] else s.blocked) && e.overflow == s.overflow
  {
    hide Alone;
    AloneGoes(s, w, n);
    var a := Apply(s, Count(w));
    if s.locals[w].b {
      AloneGoes(a, w, n - 1);
      AloneStops(Apply(a, Block(w)), w, n - 2);
    } else {
      AloneStops(a, w, n - 1);
    }
  }

  lemma {:induction false} ProbesAlone(s: State, w: nat, q: nat, n: nat)
    requires Shape(s) && w < |s.locals| && s.locals[w].Loading? && s.locals[w].p == q < SLOTS && s.locals[w].c > 0
    requires Passed(s.keys, s.locals[w].c, q) && n >= SLOTS - q + 3
    ensures var l := s.locals[w]; var e := Alone(s, w, n); e.locals == s.locals[w := Idle] && Bumped(s, e, l.c, l.b)
    decreases SLOTS - q
  {
    hide Alone, Slot, GoesTo, GoesNowhere;
    var l := s.locals[w];
    var i := Slot(l.c, q);
    AloneGoes(s, w, n);
    var a, m := Apply(s, Load(w)), n - 1;
    if s.keys[i] == 0 || s.keys[i] == l.c {
      if s.keys[i] == 0 {
        AloneGoes(a, w, m);
        a, m := Apply(a, Claim(w)), m - 1;
      }
      assert a == s.(keys := a.keys, locals := s.locals[w := Counting(l.c, l.b, i)]) && a.keys == s.keys[i := l.c];
      CountsAlone(a, w, m);
      Found(s, Alone(a, w, m), l.c, l.b, q);
      assert a.locals[w := Idle] == s.locals[w := Idle];
    } else if q + 1 < SLOTS {
      ProbesAlone(a, w, q + 1, m);
      assert a.locals[w := Idle] == s.locals[w := Idle];
      SameOutcome(s, a, Alone(a, w, m), l.c, l.b);
    } else {
      AloneGoes(a, w, m);
      var e := Apply(a, Drop(w));
      AloneStops(e, w, m - 1);
      assert a.locals[w := Idle] == s.locals[w := Idle];
      NotFound(s, e, l.c, l.b);
    }
  }

  lemma Found(s: State, e: State, c: nat, b: bool, q: nat)
    requires Shape(s) && q < SLOTS && Passed(s.keys, c, q)
    requires s.keys[Slot(c, q)] == 0 || s.keys[Slot(c, q)] == c
    requires BumpedAt(s, e, Slot(c, q), c, b)
    ensures Bumped(s, e, c, b)
  {
    hide BumpedAt;
    forall r: nat ensures Probed(c, r) == Slot(c, r) {
    }
    forall r | GoesTo(s.keys, c, r) ensures r == q {
      assert s.keys[Slot(c, r)] == 0 || s.keys[Slot(c, r)] == c;
    }
    assert 0 <= Slot(c, q) < 512;
  }

  lemma NotFound(s: State, e: State, c: nat, b: bool)
    requires Shape(s) && Passed(s.keys, c, SLOTS)
    requires e.keys == s.keys && e.total == s.total && e.blocked == s.blocked && e.overflow == s.overflow + 1
    ensures Bumped(s, e, c, b)
  {
    hide BumpedAt;
    forall r: nat ensures !GoesTo(s.keys, c, r) {
      assert Probed(c, r) == Slot(c, r);
    }
  }

  lemma SameOutcome(s: State, a: State, e: State, c: nat, b: bool)
    requires Shape(s) && Shape(a) && Bumped(a, e, c, b)
    requires a.keys == s.keys && a.total == s.total && a.blocked == s.blocked && a.overflow == s.overflow
    ensures Bumped(s, e, c, b)
  {
  }

  /** A bump of country c that nobody interferes with, wherever the others stand: one of the two outcomes
      there are, at most 515 accesses away. */
  lemma BumpAlone(s: State, w: nat, c: nat, b: bool, n: nat)
    requires Shape(s) && w < |s.locals| && s.locals[w].Idle? && c > 0 && n >= 515
    ensures Shape(Apply(s, Begin(w, c, b)))
    ensures var e := Alone(Apply(s, Begin(w, c, b)), w, n); e.locals == s.locals && Bumped(s, e, c, b)
    ensures (exists q :: GoesTo(s.keys, c, q)) || GoesNowhere(s.keys, c)
  {
    hide Alone, Bumped, GoesTo, GoesNowhere;
    var a := Apply(s, Begin(w, c, b));
    ProbesAlone(a, w, 0, n);
    assert a.locals[w := Idle] == s.locals;
    Somewhere(s.keys, c, 0);
    SameOutcome(s, a, Alone(a, w, n), c, b);
  }

  lemma {:induction false} Somewhere(keys: seq<nat>, c: nat, q: nat)
    requires |keys| == SLOTS && c > 0 && q <= SLOTS && Passed(keys, c, q)
    ensures (exists r :: GoesTo(keys, c, r)) || GoesNowhere(keys, c)
    decreases SLOTS - q
  {
    hide Slot;
    if q == SLOTS {
      forall i | 0 <= i < 512 ensures keys[i] != 0 && keys[i] != c {
        PassedAll(keys, c, i);
      }
    } else if keys[Slot(c, q)] == 0 || keys[Slot(c, q)] == c {
      SlotsAre(keys, c, q);
    } else {
      Somewhere(keys, c, q + 1);
    }
  }

  lemma SlotsAre(keys: seq<nat>, c: nat, q: nat)
    requires |keys| == SLOTS && q < SLOTS && Passed(keys, c, q) && (keys[Slot(c, q)] == 0 || keys[Slot(c, q)] == c)
    ensures GoesTo(keys, c, q)
  {
    forall r: nat ensures Probed(c, r) == Slot(c, r) {
    }
  }

  // ---- no bump can be kept from ending ----

  function Probes(p: nat): nat {
    if p < 512 then 512 - p else 0
  }

  /** How many accesses a worker's bump has left at most. */
  function Rank(l: Local): nat {
    match l
    case Idle => 0
    case Loading(_, _, p) => 3 * Probes(p) + 2
    case Claiming(_, _, p) => 3 * Probes(p) + 1
    case Rereading(_, _, p) => 3 * Probes(p)
    case Counting(_, _, _) => 2
    case Blocking(_, _) => 1
    case Dropping(_, _) => 1
  }

  lemma StepLowersRank(s: State, step: Step, w: nat)
    requires Inv(s) && Enabled(s, step) && w < |s.locals|
    ensures var s' := Apply(s, step);
            && |s'.locals| == |s.locals|
            && (step.w != w ==> s'.locals[w] == s.locals[w])
            && (step.w == w && !step.Begin? ==> Rank(s'.locals[w]) < Rank(s.locals[w]))
    ensures !s.locals[w].Idle? ==> Enabled(s, Next(s.locals[w], w))
  {
    hide Slot, Tallies, Chained, Passed;
    assert LocalInv(s.keys, s.locals[w]);
  }

  function OwnSteps(steps: seq<Step>, w: nat): nat {
    if steps == [] then 0 else (if steps[0].w == w then 1 else 0) + OwnSteps(steps[1..], w)
  }

  lemma {:induction false} RunLowersRank(s: State, steps: seq<Step>, w: nat)
    requires Inv(s) && CanRun(s, steps) && w < |s.locals| && forall k :: 0 <= k < |steps| ==> !(steps[k].Begin? && steps[k].w == w)
    ensures var e := Run(s, steps);
            && |e.locals| == |s.locals| && OwnSteps(steps, w) + Rank(e.locals[w]) <= Rank(s.locals[w])
            && (!e.locals[w].Idle? ==> Enabled(e, Next(e.locals[w], w)))
    decreases |steps|
  {
    hide Apply, Inv, Rank, Next;
    if steps == [] {
      CanGoOn(s, w);
    } else {
      StepLowersRank(s, steps[0], w);
      StepKeepsInv(s, steps[0]);
      RunLowersRank(Apply(s, steps[0]), steps[1..], w);
    }
  }

  lemma CanGoOn(s: State, w: nat)
    requires Inv(s) && w < |s.locals|
    ensures !s.locals[w].Idle? ==> Enabled(s, Next(s.locals[w], w))
  {
    hide Slot, Tallies, Chained, Passed;
    assert LocalInv(s.keys, s.locals[w]);
  }

  /** Every bump ends after at most 1538 accesses of its own, whatever the other workers do, and a worker in
      a bump always has its next access to make. */
  lemma BumpsEnd(s: State, before: seq<Step>, during: seq<Step>, w: nat)
    requires Init(s) && CanRun(s, before) && CanRun(Run(s, before), during) && w < |Run(s, before).locals|
    requires forall k :: 0 <= k < |during| ==> !(during[k].Begin? && during[k].w == w)
    ensures OwnSteps(during, w) <= 1538
    ensures var e := Run(Run(s, before), during);
            |e.locals| > w && (!e.locals[w].Idle? ==> Enabled(e, Next(e.locals[w], w)))
  {
    hide Run, CanRun, OwnSteps, Inv;
    InitInv(s);
    RunKeepsInv(s, before);
    RunLowersRank(Run(s, before), during, w);
  }
}
