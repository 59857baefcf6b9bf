/** Pieces of runs of the whole machine: a probe through an occupied window, a call on an owned slot. */
module RateRuns {
  import opened RateBucket
  import opened RateTable
  import RateSteps
  import opened RateClaims

  /** The candidate after q probes of h at time now, while nothing changes. */
  function Choice(e: State, h: nat, now: nat, p: Params, q: nat): Chosen
    requires Sized(e)
  {
    if q == 0 then Nobody
    else
      var i := Slot(h, |e.keys|, q - 1);
      Better(Choice(e, h, now, p, q - 1), p, AgeOf(e, now, i), i, e.keys[i])
  }

  predicate Occupied(e: State, h: nat)
    requires Sized(e)
  {
    Passed(e.keys, h, PROBE_MAX)
  }

  /** One probe of a slot that belongs to another key. */
  lemma ProbesOn(s: State, e: State, w: nat, terms: Terms, p: Params) returns (e': State)
    requires p.periodMs > 0 && Leads(s, e, terms, p) && Sized(e) && w < |e.locals| && e.locals[w].Loading?
    requires var l := e.locals[w]; var k := e.keys[Slot(l.h, |e.keys|, l.q)]; k != 0 && k != l.h
    ensures var l := e.locals[w]; var i := Slot(l.h, |e.keys|, l.q);
            && Leads(s, e', terms, p) && Sized(e')
            && e' == e.(locals := e.locals[w := Further(l.h, l.now, l.q, Better(l.best, p, AgeOf(e, l.now, i), i, e.keys[i]))])
  {
    hide Leads, Slot, Further, Better, AgeOf;
    LeadsByStep(s, e, Load(w), terms, p);
    var a := Apply(e, Load(w), p);
    LeadsByStep(s, a, Age(w), terms, p);
    e' := Apply(a, Age(w), p);
    SameAges(e, a);
  }

  lemma SameAges(e: State, a: State)
    requires e.cells == a.cells
    ensures forall now, i: nat :: i < |e.cells| ==> AgeOf(e, now, i) == AgeOf(a, now, i)
  {
  }

  lemma {:induction false} Scans(s: State, e: State, w: nat, h: nat, q: nat, terms: Terms, p: Params) returns (e': State)
    requires p.periodMs > 0 && Leads(s, e, terms, p) && Sized(e) && Occupied(e, h) && q < PROBE_MAX
    requires w < |e.locals| && e.locals[w] == Loading(h, e.clock, 0, Nobody)
    ensures Leads(s, e', terms, p) && Sized(e')
    ensures e' == e.(locals := e.locals[w := Loading(h, e.clock, q, Choice(e, h, e.clock, p, q))])
    decreases q
  {
    hide Leads, Slot, AgeOf, Better;
    if q == 0 {
      e' := e;
    } else {
      var a := Scans(s, e, w, h, q - 1, terms, p);
      SameAges(e, a);
      e' := ProbesOn(s, a, w, terms, p);
    }
  }

  /** A call for h up to its eviction. */
  lemma Picks(s: State, e: State, w: nat, h: nat, terms: Terms, p: Params) returns (e': State)
    requires p.periodMs > 0 && Leads(s, e, terms, p) && Sized(e) && Occupied(e, h) && h > 0
    requires w < |e.locals| && e.locals[w].Idle? && Choice(e, h, e.clock, p, PROBE_MAX).Best?
    ensures Leads(s, e', terms, p) && Sized(e')
    ensures var best := Choice(e, h, e.clock, p, PROBE_MAX);
            e' == e.(locals := e.locals[w := Evicting(h, best.index, best.key)])
  {
    hide Leads, Slot, AgeOf, Better;
    LeadsByStep(s, e, Begin(w, h), terms, p);
    var a := Apply(e, Begin(w, h), p);
    SameChoice(e, a, h, e.clock, p, PROBE_MAX - 1);
    var b := Scans(s, a, w, h, PROBE_MAX - 1, terms, p);
    SameAges(e, b);
    e' := ProbesOn(s, b, w, terms, p);
  }

  lemma {:induction false} SameChoice(e: State, a: State, h: nat, now: nat, p: Params, q: nat)
    requires Sized(e) && Sized(a) && e.cells == a.cells && e.keys == a.keys
    ensures Choice(e, h, now, p, q) == Choice(a, h, now, p, q)
  {
    hide Slot, AgeOf, Better;
    if q > 0 {
      SameChoice(e, a, h, now, p, q - 1);
      SameAges(e, a);
    }
  }

  // ---- the window of keys 1 and n + 1 ----

  lemma Window(n: nat, h: nat, r: nat)
    requires n >= MIN_SLOTS && (h == 1 || h == n + 1) && r < PROBE_MAX
    ensures Slot(h, n, r) == 1 + r
  {
    WrapOnce(h, n);
    ModSmall(1 + r, n);
  }

  /** The candidate is the first of the window's slots that nobody is older than, all before it being
      too young. */
  lemma {:induction false} FirstOldest(e: State, h: nat, now: nat, d: nat, age: nat, q: nat, p: Params)
    requires Sized(e) && (h == 1 || h == |e.keys| + 1) && d < PROBE_MAX && q <= PROBE_MAX
    requires forall i :: 1 <= i <= d ==> AgeOf(e, now, i) <= p.periodMs
    requires forall i :: d < i <= PROBE_MAX ==> AgeOf(e, now, i) <= age
    requires AgeOf(e, now, d + 1) == age > p.periodMs
    ensures Choice(e, h, now, p, q) == if q <= d then Nobody else Best(d + 1, age, e.keys[d + 1])
  {
    hide Slot, AgeOf;
    if q > 0 {
      FirstOldest(e, h, now, d, age, q - 1, p);
      Window(|e.keys|, h, q - 1);
    }
  }

  lemma WindowOccupied(e: State, h: nat)
    requires Sized(e) && (h == 1 || h == |e.keys| + 1)
    requires forall i :: 1 <= i <= PROBE_MAX ==> e.keys[i] != 0 && e.keys[i] != h
    ensures Occupied(e, h)
  {
    hide Slot;
    forall r | 0 <= r < PROBE_MAX
      ensures e.keys[Slot(h, |e.keys|, r)] != 0 && e.keys[Slot(h, |e.keys|, r)] != h
    {
      Window(|e.keys|, h, r);
    }
  }

  // ---- a call on a slot ----

  predicate Quiet(e: State) {
    forall i, v :: 0 <= i < |e.cells| && 0 <= v < |e.cells[i].locals| ==> e.cells[i].locals[v].Idle?
  }

  /** A worker on its slot runs the CAS loop alone. */
  lemma Spins(s: State, e: State, w: nat, terms: Terms, p: Params) returns (e': State)
    requires p.periodMs > 0 && Leads(s, e, terms, p) && Sized(e) && w < |e.locals| && e.locals[w].Spending?
    requires e.locals[w].index < |e.cells| && e.cells[e.locals[w].index].locals[w].Idle?
    ensures Leads(s, e', terms, p) && Sized(e') && |e'.cells| == |e.cells|
    ensures var i := e.locals[w].index; var b := e.cells[i].bucket; var c' := e'.cells[i];
            && e' == e.(cells := e.cells[i := c'], locals := e.locals[w := Idle], allowed := e'.allowed)
            && c'.bucket == RateSteps.Written(b, b, e.clock, p) && c'.locals == e.cells[i].locals
            && c'.granted == e.cells[i].granted + if RateSteps.Spent(b, e.clock, p).allow then [e.clock] else []
  {
    hide Leads, RateSteps.Word, RateSteps.Spent, RateSteps.Written;
    LeadsByStep(s, e, Step.Spend(w), terms, p);
    var a := Apply(e, Step.Spend(w), p);
    LeadsByStep(s, a, Step.Spend(w), terms, p);
    var b := Apply(a, Step.Spend(w), p);
    LeadsByStep(s, b, Step.Spend(w), terms, p);
    var c := Apply(b, Step.Spend(w), p);
    LeadsByStep(s, c, Step.Spend(w), terms, p);
    e' := Apply(c, Step.Spend(w), p);
  }

  /** The state after an unhindered call spent from slot i. */
  predicate SpentAt(e: State, e': State, i: nat, key: nat, p: Params)
    requires p.periodMs > 0 && i < |e.cells|
  {
    && |e'.cells| == |e.cells| && i < |e.keys|
    && var b := e.cells[i].bucket; var c' := e'.cells[i];
    && e' == e.(keys := e.keys[i := key], cells := e.cells[i := c'], allowed := e'.allowed)
    && c'.bucket == RateSteps.Written(b, b, e.clock, p) && c'.locals == e.cells[i].locals
    && c'.granted == e.cells[i].granted + if RateSteps.Spent(b, e.clock, p).allow then [e.clock] else []
  }

  lemma HomeSlot(n: nat, c: nat)
    requires n >= MIN_SLOTS && 1 <= c <= PROBE_MAX
    ensures Slot(c, n, 0) == c
  {
    ModSmall(c, n);
  }

  /** A call of key c that finds its first slot empty or its own; an empty one it may claim. */
  lemma Settles(s: State, e: State, w: nat, c: nat, terms: Terms, p: Params) returns (e': State)
    requires p.periodMs > 0 && Leads(s, e, terms, p) && Sized(e) && Quiet(e)
    requires w < |e.locals| && e.locals[w].Idle? && 1 <= c <= PROBE_MAX
    requires e.keys[c] == 0 || e.keys[c] == c
    ensures Leads(s, e', terms, p) && Sized(e') && SpentAt(e, e', c, c, p) && Quiet(e')
  {
    hide Leads, RateSteps.Word, RateSteps.Spent, RateSteps.Written;
    HomeSlot(|e.keys|, c);
    hide Slot;
    LeadsByStep(s, e, Begin(w, c), terms, p);
    var a := Apply(e, Begin(w, c), p);
    LeadsByStep(s, a, Load(w), terms, p);
    var b := Apply(a, Load(w), p);
    if e.keys[c] == 0 {
      LeadsByStep(s, b, Claim(w), terms, p);
      b := Apply(b, Claim(w), p);
    }
    assert b == e.(keys := e.keys[c := c], locals := e.locals[w := Spending(c, c)]);
    e' := Spins(s, b, w, terms, p);
  }

  /** A new zone of n slots with m idle workers. */
  function NewZone(n: nat, m: nat, clock: nat): (s: State)
    requires n >= MIN_SLOTS
    ensures Init(s) && |s.keys| == n && |s.locals| == m && s.clock == clock && Quiet(s)
    ensures forall w :: 0 <= w < m ==> s.locals[w].Idle?
  {
    var idle := seq(m, _ => RateSteps.Idle);
    var cell := RateSteps.State(clock, RateSteps.Bucket(0, 0), idle, [], 0, []);
    State(seq(n, _ => 0), seq(n, _ => cell), clock, seq(m, _ => Idle), [])
  }

  /** The age of a bucket stamped at most half a wrap ago, when nothing hides its stamp. */
  lemma AgeIs(e: State, i: nat, since: nat, age: nat)
    requires i < |e.cells| && e.cells[i].bucket.since == since && e.cells[i].bucket.tok < WRAP
    requires e.clock == since + age && age < SIGN_BIT
    ensures AgeOf(e, e.clock, i) <= age
    ensures since % WRAP != 0 || e.cells[i].bucket.tok != 0 ==> AgeOf(e, e.clock, i) == age
  {
    var b := e.cells[i].bucket;
    PackRoundTrip(since % WRAP, b.tok);
    RateSteps.ElapsedIs(e.clock, since);
    ModSmall(age, WRAP);
  }
}
