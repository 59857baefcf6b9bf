/** stat_cc_bump as a step machine: any number of workers bumping the 512-slot per-country
    table, one atomic access at a time (heavybag_status.c). */
module CountrySteps {
  const SLOTS: nat := 512

  /** Slot probed at offset q on behalf of country c. */
  function Slot(c: nat, q: nat): (i: nat)
    ensures i < SLOTS
  {
    (c % SLOTS + q) % SLOTS
  }

  /** The offset at which c probes slot i. */
  function Offset(c: nat, i: nat): (q: nat)
    requires i < SLOTS
    ensures q < SLOTS && Slot(c, q) == i
  {
    (i - c) % SLOTS
  }

  lemma OffsetOfSlot(c: nat, q: nat)
    requires q < SLOTS
    ensures Offset(c, Slot(c, q)) == q
  {
  }

  /** Where a worker stands in its bump of country c. */
  datatype Local =
    | Idle
    | Loading(c: nat, b: bool, p: nat)
    | Claiming(c: nat, b: bool, p: nat)
    | Rereading(c: nat, b: bool, p: nat)
    | Counting(c: nat, b: bool, i: nat)
    | Blocking(c: nat, i: nat)
    | Dropping(c: nat, b: bool)

  /** The table and the workers; `begun`, `begunBlocked` and `dropped` record, per country, the
      bumps started, those started as blocked, and those that ended in cc_overflow. */
  datatype State = State(keys: seq<nat>, total: seq<nat>, blocked: seq<nat>, overflow: nat,
                         locals: seq<Local>,
                         begun: multiset<nat>, begunBlocked: multiset<nat>, dropped: multiset<nat>)

  datatype Step = Begin(w: nat, c: nat, b: bool) | Load(w: nat) | Claim(w: nat) | Reread(w: nat)
                | Count(w: nat) | Block(w: nat) | Drop(w: nat)

  predicate Shape(s: State) {
    |s.keys| == |s.total| == |s.blocked| == SLOTS
  }

  predicate Enabled(s: State, step: Step) {
    && step.w < |s.locals|
    && match step
       case Begin(w, c, b) => s.locals[w].Idle?
       case Load(w) => s.locals[w].Loading?
       case Claim(w) => s.locals[w].Claiming?
       case Reread(w) => s.locals[w].Rereading?
       case Count(w) => s.locals[w].Counting? && s.locals[w].i < SLOTS
       case Block(w) => s.locals[w].Blocking? && s.locals[w].i < SLOTS
       case Drop(w) => s.locals[w].Dropping?
  }

  /** The comparison after a load: use the slot, or go on to the next one. */
  function Compare(cur: nat, c: nat, b: bool, p: nat): Local {
    if cur == c then Counting(c, b, Slot(c, p))
    else if p + 1 == SLOTS then Dropping(c, b)
    else Loading(c, b, p + 1)
  }

  function Apply(s: State, step: Step): State
    requires Shape(s) && Enabled(s, step)
  {
    var w := step.w;
    var l := s.locals[w];
    match step
    case Begin(_, c, b) =>
      if c == 0 then s
      else
        s.(locals := s.locals[w := Loading(c, b, 0)], begun := s.begun + multiset{c},
           begunBlocked := if b then s.begunBlocked + multiset{c} else s.begunBlocked)
    case Load(_) =>
      var cur := s.keys[Slot(l.c, l.p)];
      s.(locals := s.locals[w := if cur == 0 then Claiming(l.c, l.b, l.p) else Compare(cur, l.c, l.b, l.p)])
    case Claim(_) =>
      var i := Slot(l.c, l.p);
      if s.keys[i] == 0 then s.(keys := s.keys[i := l.c], locals := s.locals[w := Counting(l.c, l.b, i)])
      else s.(locals := s.locals[w := Rereading(l.c, l.b, l.p)])
    case Reread(_) =>
      s.(locals := s.locals[w := Compare(s.keys[Slot(l.c, l.p)], l.c, l.b, l.p)])
    case Count(_) =>
      s.(total := s.total[l.i := s.total[l.i] + 1],
         locals := s.locals[w := if l.b then Blocking(l.c, l.i) else Idle])
    case Block(_) =>
      s.(blocked := s.blocked[l.i := s.blocked[l.i] + 1], locals := s.locals[w := Idle])
    case Drop(_) =>
      s.(overflow := s.overflow + 1, dropped := s.dropped + multiset{l.c}, locals := s.locals[w := Idle])
  }

  predicate CanRun(s: State, steps: seq<Step>)
    decreases |steps|
  {
    Shape(s) && (steps == [] || (Enabled(s, steps[0]) && CanRun(Apply(s, steps[0]), steps[1..])))
  }

  function Run(s: State, steps: seq<Step>): State
    requires CanRun(s, steps)
    decreases |steps|
  {
    if steps == [] then s else Run(Apply(s, steps[0]), steps[1..])
  }

  predicate Init(s: State) {
    && Shape(s)
    && (forall i :: 0 <= i < SLOTS ==> s.keys[i] == s.total[i] == s.blocked[i] == 0)
    && (forall w :: 0 <= w < |s.locals| ==> s.locals[w].Idle?)
    && s.overflow == 0 && s.begun == s.begunBlocked == s.dropped == multiset{}
  }

  // ---- pending work ----

  /** Bumps of c a worker still owes: to a total, to a blocked count, or the blocked count of a
      bump already in a total. */
  datatype Kind = Uncounted | Unblocked | Between

  function Owes(l: Local, c: nat, k: Kind): nat {
    match l
    case Idle => 0
    case Blocking(d, _) => if d == c && k != Uncounted then 1 else 0
    case _ => if l.c == c && (k == Uncounted || (k == Unblocked && l.b)) then 1 else 0
  }

  function Owed(ls: seq<Local>, c: nat, k: Kind): nat {
    if ls == [] then 0 else Owed(ls[..|ls| - 1], c, k) + Owes(ls[|ls| - 1], c, k)
  }

  lemma {:induction false} OwedUpdate(ls: seq<Local>, w: nat, l: Local, c: nat, k: Kind)
    requires w < |ls|
    ensures Owed(ls[w := l], c, k) == Owed(ls, c, k) - Owes(ls[w], c, k) + Owes(l, c, k)
    decreases |ls|
  {
    var n := |ls| - 1;
    if w < n {
      assert ls[w := l][..n] == ls[..n][w := l];
      OwedUpdate(ls[..n], w, l, c, k);
    } else {
      assert ls[w := l][..n] == ls[..n];
    }
  }

  lemma {:induction false} OwedNone(ls: seq<Local>, c: nat, k: Kind)
    requires forall w :: 0 <= w < |ls| ==> Owes(ls[w], c, k) == 0
    ensures Owed(ls, c, k) == 0
  {
    if ls != [] {
      OwedNone(ls[..|ls| - 1], c, k);
    }
  }

  // ---- the invariant ----

  /** The first n slots c probes belong to other countries. */
  predicate Passed(keys: seq<nat>, c: nat, n: nat)
    requires |keys| == SLOTS
  {
    forall q :: 0 <= q < n ==> keys[Slot(c, q)] != 0 && keys[Slot(c, q)] != c
  }

  predicate LocalInv(keys: seq<nat>, l: Local)
    requires |keys| == SLOTS
  {
    match l
    case Idle => true
    case Loading(c, _, p) => c > 0 && p < SLOTS && Passed(keys, c, p)
    case Claiming(c, _, p) => c > 0 && p < SLOTS && Passed(keys, c, p)
    case Rereading(c, _, p) => c > 0 && p < SLOTS && Passed(keys, c, p) && keys[Slot(c, p)] != 0
    case Counting(c, _, i) => c > 0 && i < SLOTS && keys[i] == c
    case Blocking(c, i) => c > 0 && i < SLOTS && keys[i] == c
    case Dropping(c, _) => c > 0 && Passed(keys, c, SLOTS)
  }

  /** Each owned slot lies behind slots of other countries in its owner's probe order. */
  predicate Chained(keys: seq<nat>)
    requires |keys| == SLOTS
  {
    forall i :: 0 <= i < SLOTS && keys[i] != 0 ==> Passed(keys, keys[i], Offset(keys[i], i))
  }

  ghost predicate Tallies(s: State)
    requires Shape(s)
  {
    && (forall i :: 0 <= i < SLOTS && s.keys[i] == 0 ==> s.total[i] == 0 && s.blocked[i] == 0)
    && (forall i :: 0 <= i < SLOTS && s.keys[i] != 0 ==> SlotTally(s, i))
    && (forall c :: c > 0 && c !in s.keys ==> NoSlotTally(s, c))
  }

  predicate SlotTally(s: State, i: nat)
    requires Shape(s) && i < SLOTS
  {
    var c := s.keys[i];
    && s.begun[c] == s.total[i] + Owed(s.locals, c, Uncounted)
    && s.begunBlocked[c] == s.blocked[i] + Owed(s.locals, c, Unblocked)
    && s.blocked[i] + Owed(s.locals, c, Between) <= s.total[i]
    && s.dropped[c] == 0
  }

  predicate NoSlotTally(s: State, c: nat)
    requires Shape(s)
  {
    && s.begun[c] == s.dropped[c] + Owed(s.locals, c, Uncounted)
    && (s.dropped[c] == 0 ==> s.begunBlocked[c] == Owed(s.locals, c, Unblocked))
    && (s.dropped[c] > 0 ==> Passed(s.keys, c, SLOTS))
  }

  ghost predicate Inv(s: State) {
    && Shape(s) && Chained(s.keys)
    && (forall w :: 0 <= w < |s.locals| ==> LocalInv(s.keys, s.locals[w]))
    && Tallies(s)
    && s.overflow == |s.dropped|
  }

  /** Two slots of one country would each have to lie before the other. */
  lemma OneSlotEach(keys: seq<nat>, i: nat, j: nat)
    requires |keys| == SLOTS && Chained(keys) && i < SLOTS && j < SLOTS && keys[i] == keys[j] != 0
    ensures i == j
  {
    var c := keys[i];
    var qi, qj := Offset(c, i), Offset(c, j);
    assert keys[Slot(c, qi)] == c && keys[Slot(c, qj)] == c;
    assert Passed(keys, c, qi) && Passed(keys, c, qj);
  }

  /** A probe order visits every slot. */
  lemma PassedAll(keys: seq<nat>, c: nat, i: nat)
    requires |keys| == SLOTS && Passed(keys, c, SLOTS) && i < SLOTS
    ensures keys[i] != 0 && keys[i] != c
  {
    assert keys[Slot(c, Offset(c, i))] == keys[i];
  }

  /** A claim takes an empty slot, so it lies in nobody's passed prefix. */
  lemma ClaimKeepsPassed(keys: seq<nat>, i: nat, c: nat, d: nat, n: nat)
    requires |keys| == SLOTS && i < SLOTS && keys[i] == 0 && Passed(keys, d, n)
    ensures Passed(keys[i := c], d, n)
  {
  }

  lemma ClaimKeepsKeys(keys: seq<nat>, ls: seq<Local>, w: nat)
    requires |keys| == SLOTS && Chained(keys) && w < |ls| && ls[w].Claiming?
    requires forall v :: 0 <= v < |ls| ==> LocalInv(keys, ls[v])
    requires keys[Slot(ls[w].c, ls[w].p)] == 0
    ensures var i := Slot(ls[w].c, ls[w].p); var keys' := keys[i := ls[w].c];
            Chained(keys') && forall v :: 0 <= v < |ls| ==> LocalInv(keys', ls[v])
  {
    hide Slot, Offset;
    var c, p := ls[w].c, ls[w].p;
    var i := Slot(c, p);
    var keys' := keys[i := c];
    assert LocalInv(keys, ls[w]);
    OffsetOfSlot(c, p);
    forall j | 0 <= j < SLOTS && keys'[j] != 0 ensures Passed(keys', keys'[j], Offset(keys'[j], j)) {
      ClaimKeepsPassed(keys, i, c, keys'[j], Offset(keys'[j], j));
    }
    forall v | 0 <= v < |ls| ensures LocalInv(keys', ls[v]) {
      var l := ls[v];
      assert LocalInv(keys, l);
      match l
      case Idle =>
      case Loading(d, _, q) => ClaimKeepsPassed(keys, i, c, d, q);
      case Claiming(d, _, q) => ClaimKeepsPassed(keys, i, c, d, q);
      case Rereading(d, _, q) => ClaimKeepsPassed(keys, i, c, d, q);
      case Counting(d, _, j) =>
      case Blocking(d, j) =>
      case Dropping(d, _) => ClaimKeepsPassed(keys, i, c, d, SLOTS);
    }
  }

  /** A comparison moves the worker on with what it has just seen. */
  lemma CompareInv(keys: seq<nat>, c: nat, b: bool, p: nat)
    requires |keys| == SLOTS && c > 0 && p < SLOTS && Passed(keys, c, p) && keys[Slot(c, p)] != 0
    ensures LocalInv(keys, Compare(keys[Slot(c, p)], c, b, p))
    ensures forall d, k :: Owes(Compare(keys[Slot(c, p)], c, b, p), d, k) == Owes(Loading(c, b, p), d, k)
  {
    hide Slot;
  }

  /** A step that only replaces one worker, by one that owes the same, keeps every tally. */
  lemma SameDebt(s: State, w: nat, l: Local)
    requires Inv(s) && w < |s.locals| && LocalInv(s.keys, l)
    requires forall d, k :: Owes(l, d, k) == Owes(s.locals[w], d, k)
    ensures Inv(s.(locals := s.locals[w := l]))
  {
    hide Slot, Passed;
    MoveOn(s, w, l);
    var s' := s.(locals := s.locals[w := l]);
    forall i | 0 <= i < SLOTS && s'.keys[i] != 0 ensures SlotTally(s', i) {
      assert SlotTally(s, i);
    }
    forall c | c > 0 && c !in s'.keys ensures NoSlotTally(s', c) {
      assert NoSlotTally(s, c);
    }
  }

  lemma BeginKeepsInv(s: State, w: nat, c: nat, b: bool)
    requires Inv(s) && Enabled(s, Begin(w, c, b))
    ensures Inv(Apply(s, Begin(w, c, b)))
  {
    hide Slot, Passed, Chained, SlotTally, NoSlotTally;
    if c > 0 {
      var s' := Apply(s, Begin(w, c, b));
      PassedNone(s.keys, c);
      forall i | 0 <= i < SLOTS && s'.keys[i] != 0 ensures SlotTally(s', i) {
        BeginSlot(s, w, c, b, i);
      }
      forall d | d > 0 && d !in s'.keys ensures NoSlotTally(s', d) {
        BeginNoSlot(s, w, c, b, d);
      }
    }
  }

  lemma BeginSlot(s: State, w: nat, c: nat, b: bool, i: nat)
    requires Shape(s) && Enabled(s, Begin(w, c, b)) && c > 0 && i < SLOTS && SlotTally(s, i)
    ensures SlotTally(Apply(s, Begin(w, c, b)), i)
  {
    hide Slot, Owed;
    MoveOne(s, w, Loading(c, b, 0), s.keys[i]);
  }

  lemma BeginNoSlot(s: State, w: nat, c: nat, b: bool, d: nat)
    requires Shape(s) && Enabled(s, Begin(w, c, b)) && c > 0 && NoSlotTally(s, d)
    ensures NoSlotTally(Apply(s, Begin(w, c, b)), d)
  {
    hide Slot, Owed, Passed;
    MoveOne(s, w, Loading(c, b, 0), d);
  }

  lemma PassedNone(keys: seq<nat>, c: nat)
    requires |keys| == SLOTS
    ensures Passed(keys, c, 0)
  {
  }

  lemma ProbeKeepsInv(s: State, step: Step)
    requires Inv(s) && Enabled(s, step)
    requires step.Load? || step.Reread? || (step.Claim? && s.keys[Slot(s.locals[step.w].c, s.locals[step.w].p)] != 0)
    ensures Inv(Apply(s, step))
  {
    hide Slot, Passed, Chained, Tallies;
    var l := s.locals[step.w];
    assert LocalInv(s.keys, l);
    if s.keys[Slot(l.c, l.p)] != 0 {
      CompareInv(s.keys, l.c, l.b, l.p);
    }
    SameDebt(s, step.w, Apply(s, step).locals[step.w]);
  }

  /** Nobody can owe a blocked count to a country that owns no slot. */
  lemma NoBetween(s: State, c: nat)
    requires Inv(s) && c > 0 && c !in s.keys
    ensures Owed(s.locals, c, Between) == 0
  {
    forall w | 0 <= w < |s.locals| ensures Owes(s.locals[w], c, Between) == 0 {
      assert LocalInv(s.keys, s.locals[w]);
    }
    OwedNone(s.locals, c, Between);
  }

  lemma ClaimKeepsInv(s: State, w: nat)
    requires Inv(s) && Enabled(s, Claim(w)) && s.keys[Slot(s.locals[w].c, s.locals[w].p)] == 0
    ensures Inv(Apply(s, Claim(w)))
  {
    hide Slot, Chained;
    var l := s.locals[w];
    var c, i := l.c, Slot(l.c, l.p);
    var s' := Apply(s, Claim(w));
    assert LocalInv(s.keys, l);
    ClaimerIsNew(s.keys, c, l.p);
    NoBetween(s, c);
    assert NoSlotTally(s, c);
    if s.dropped[c] > 0 {
      PassedAll(s.keys, c, i);
    }
    ClaimKeepsKeys(s.keys, s.locals, w);
    MoveOn(s, w, Counting(l.c, l.b, i));
    assert SlotTally(s', i);
    forall j | 0 <= j < SLOTS && s'.keys[j] != 0 ensures SlotTally(s', j) {
      if j != i { assert SlotTally(s, j); }
    }
    forall d | d > 0 && d !in s'.keys ensures NoSlotTally(s', d) {
      StillAbsent(s.keys, i, c, d);
      assert NoSlotTally(s, d);
      if s.dropped[d] > 0 { ClaimKeepsPassed(s.keys, i, c, d, SLOTS); }
    }
  }

  /** A country about to claim an empty slot of its probe order owns none yet. */
  lemma ClaimerIsNew(keys: seq<nat>, c: nat, p: nat)
    requires |keys| == SLOTS && Chained(keys) && c > 0 && p < SLOTS && Passed(keys, c, p) && keys[Slot(c, p)] == 0
    ensures c !in keys
  {
    forall j | 0 <= j < SLOTS ensures keys[j] != c {
      assert keys[Slot(c, Offset(c, j))] == keys[j];
      assert keys[j] != 0 ==> Passed(keys, keys[j], Offset(keys[j], j));
    }
  }

  lemma StillAbsent(keys: seq<nat>, i: nat, c: nat, d: nat)
    requires i < |keys| && keys[i] == 0 && d > 0 && d !in keys[i := c]
    ensures d !in keys && d != c
  {
    forall j | 0 <= j < |keys| ensures keys[j] != d {
      assert keys[i := c][j] != d;
    }
    assert keys[i := c][i] == c;
  }

  lemma CountKeepsInv(s: State, w: nat)
    requires Inv(s) && Enabled(s, Count(w))
    ensures Inv(Apply(s, Count(w)))
  {
    hide Slot, Chained, Passed, SlotTally, NoSlotTally;
    var s' := Apply(s, Count(w));
    assert LocalInv(s.keys, s.locals[w]);
    forall j | 0 <= j < SLOTS && s'.keys[j] != 0 ensures SlotTally(s', j) {
      CountSlot(s, w, j);
    }
    forall d | d > 0 && d !in s'.keys ensures NoSlotTally(s', d) {
      CountNoSlot(s, w, d);
    }
  }

  lemma CountSlot(s: State, w: nat, j: nat)
    requires Shape(s) && Chained(s.keys) && Enabled(s, Count(w)) && LocalInv(s.keys, s.locals[w])
    requires j < SLOTS && s.keys[j] != 0 && SlotTally(s, j)
    ensures SlotTally(Apply(s, Count(w)), j)
  {
    hide Slot, Owed, Chained;
    var l := s.locals[w];
    MoveOne(s, w, if l.b then Blocking(l.c, l.i) else Idle, s.keys[j]);
    if s.keys[j] == l.c {
      OneSlotEach(s.keys, j, l.i);
    }
  }

  lemma CountNoSlot(s: State, w: nat, d: nat)
    requires Shape(s) && Enabled(s, Count(w)) && LocalInv(s.keys, s.locals[w]) && d !in s.keys && NoSlotTally(s, d)
    ensures NoSlotTally(Apply(s, Count(w)), d)
  {
    hide Slot, Owed, Passed;
    var l := s.locals[w];
    MoveOne(s, w, if l.b then Blocking(l.c, l.i) else Idle, d);
  }

  lemma BlockKeepsInv(s: State, w: nat)
    requires Inv(s) && Enabled(s, Block(w))
    ensures Inv(Apply(s, Block(w)))
  {
    hide Slot, Chained, Passed, SlotTally, NoSlotTally;
    var s' := Apply(s, Block(w));
    assert LocalInv(s.keys, s.locals[w]);
    forall j | 0 <= j < SLOTS && s'.keys[j] != 0 ensures SlotTally(s', j) {
      BlockSlot(s, w, j);
    }
    forall d | d > 0 && d !in s'.keys ensures NoSlotTally(s', d) {
      BlockNoSlot(s, w, d);
    }
  }

  lemma BlockSlot(s: State, w: nat, j: nat)
    requires Shape(s) && Chained(s.keys) && Enabled(s, Block(w)) && LocalInv(s.keys, s.locals[w])
    requires j < SLOTS && s.keys[j] != 0 && SlotTally(s, j)
    ensures SlotTally(Apply(s, Block(w)), j)
  {
    hide Slot, Owed, Chained;
    MoveOne(s, w, Idle, s.keys[j]);
    if s.keys[j] == s.locals[w].c {
      OneSlotEach(s.keys, j, s.locals[w].i);
    }
  }

  lemma BlockNoSlot(s: State, w: nat, d: nat)
    requires Shape(s) && Enabled(s, Block(w)) && LocalInv(s.keys, s.locals[w]) && d !in s.keys && NoSlotTally(s, d)
    ensures NoSlotTally(Apply(s, Block(w)), d)
  {
    hide Slot, Owed, Passed;
    MoveOne(s, w, Idle, d);
  }

  /** Replacing one worker changes a country's debts by the difference. */
  lemma MoveOne(s: State, w: nat, l: Local, d: nat)
    requires w < |s.locals|
    ensures forall k :: Owed(s.locals[w := l], d, k) == Owed(s.locals, d, k) - Owes(s.locals[w], d, k) + Owes(l, d, k)
  {
    forall k {
      OwedUpdate(s.locals, w, l, d, k);
    }
  }

  /** Replacing one worker changes every debt by the difference. */
  lemma MoveOn(s: State, w: nat, l: Local)
    requires w < |s.locals|
    ensures forall d, k :: Owed(s.locals[w := l], d, k) == Owed(s.locals, d, k) - Owes(s.locals[w], d, k) + Owes(l, d, k)
  {
    forall d, k ensures Owed(s.locals[w := l], d, k) == Owed(s.locals, d, k) - Owes(s.locals[w], d, k) + Owes(l, d, k) {
      OwedUpdate(s.locals, w, l, d, k);
    }
  }

  lemma DropKeepsInv(s: State, w: nat)
    requires Inv(s) && Enabled(s, Drop(w))
    ensures Inv(Apply(s, Drop(w)))
  {
    hide Slot, Chained, Passed, SlotTally, NoSlotTally;
    var s' := Apply(s, Drop(w));
    assert LocalInv(s.keys, s.locals[w]);
    forall j | 0 <= j < SLOTS && s'.keys[j] != 0 ensures SlotTally(s', j) {
      DropSlot(s, w, j);
    }
    forall d | d > 0 && d !in s'.keys ensures NoSlotTally(s', d) {
      DropNoSlot(s, w, d);
    }
  }

  lemma DropSlot(s: State, w: nat, j: nat)
    requires Shape(s) && Enabled(s, Drop(w)) && LocalInv(s.keys, s.locals[w]) && j < SLOTS && SlotTally(s, j)
    ensures SlotTally(Apply(s, Drop(w)), j)
  {
    hide Slot, Owed, Passed;
    PassedAll(s.keys, s.locals[w].c, j);
    MoveOne(s, w, Idle, s.keys[j]);
  }

  lemma DropNoSlot(s: State, w: nat, d: nat)
    requires Shape(s) && Enabled(s, Drop(w)) && LocalInv(s.keys, s.locals[w]) && NoSlotTally(s, d)
    ensures NoSlotTally(Apply(s, Drop(w)), d)
  {
    hide Slot, Owed, Passed;
    MoveOne(s, w, Idle, d);
  }

  lemma StepKeepsInv(s: State, step: Step)
    requires Inv(s) && Enabled(s, step)
    ensures Inv(Apply(s, step))
  {
    match step
    case Begin(w, c, b) => BeginKeepsInv(s, w, c, b);
    case Load(_) => ProbeKeepsInv(s, step);
    case Reread(_) => ProbeKeepsInv(s, step);
    case Claim(w) =>
      if s.keys[Slot(s.locals[w].c, s.locals[w].p)] == 0 { ClaimKeepsInv(s, w); } else { ProbeKeepsInv(s, step); }
    case Count(w) => CountKeepsInv(s, w);
    case Block(w) => BlockKeepsInv(s, w);
    case Drop(w) => DropKeepsInv(s, w);
  }

  /** A claimed key never changes, in any run. */
  lemma {:induction false} RunKeepsInv(s: State, steps: seq<Step>)
    requires Inv(s) && CanRun(s, steps)
    ensures Inv(Run(s, steps))
    ensures forall i :: 0 <= i < SLOTS && s.keys[i] != 0 ==> Run(s, steps).keys[i] == s.keys[i]
    decreases |steps|
  {
    hide Chained, Tallies, LocalInv;
    if steps != [] {
      StepKeepsInv(s, steps[0]);
      RunKeepsInv(Apply(s, steps[0]), steps[1..]);
    }
  }

  lemma InitInv(s: State)
    requires Init(s)
    ensures Inv(s)
  {
    forall c, k ensures Owed(s.locals, c, k) == 0 {
      OwedNone(s.locals, c, k);
    }
  }

  /** In every reachable state: at most one slot per country, blocked never above total, and a
      country that ever overflowed faces a table whose 512 slots all belong to others. */
  lemma ReachableTable(s: State, steps: seq<Step>)
    requires Init(s) && CanRun(s, steps)
    ensures var e := Run(s, steps);
            && Shape(e)
            && (forall i, j :: 0 <= i < SLOTS && 0 <= j < SLOTS && e.keys[i] == e.keys[j] != 0 ==> i == j)
            && (forall i :: 0 <= i < SLOTS ==> e.blocked[i] <= e.total[i])
            && e.overflow == |e.dropped|
            && (forall c :: c > 0 && e.dropped[c] > 0 ==> forall i :: 0 <= i < SLOTS ==> e.keys[i] != 0 && e.keys[i] != c)
  {
    hide Chained, Passed;
    InitInv(s);
    RunKeepsInv(s, steps);
    var e := Run(s, steps);
    forall i, j | 0 <= i < SLOTS && 0 <= j < SLOTS && e.keys[i] == e.keys[j] != 0 ensures i == j {
      OneSlotEach(e.keys, i, j);
    }
    forall i | 0 <= i < SLOTS ensures e.blocked[i] <= e.total[i] {
      assert e.keys[i] != 0 ==> SlotTally(e, i);
    }
    forall c, i | c > 0 && e.dropped[c] > 0 && 0 <= i < SLOTS ensures e.keys[i] != 0 && e.keys[i] != c {
      DroppedFindsNone(e, c);
      PassedAll(e.keys, c, i);
    }
  }

  lemma DroppedFindsNone(s: State, c: nat)
    requires Inv(s) && c > 0 && s.dropped[c] > 0
    ensures Passed(s.keys, c, SLOTS)
  {
    forall i | 0 <= i < SLOTS ensures s.keys[i] != c {
      assert s.keys[i] != 0 ==> SlotTally(s, i);
    }
    assert NoSlotTally(s, c);
  }

  /** Once every worker is idle the table is an exact histogram: a slot's counters are the bumps
      and blocked bumps of its country, none of them dropped, and a country without a slot has
      had every one of its bumps counted in the overflow. */
  lemma ExactHistogram(s: State, steps: seq<Step>)
    requires Init(s) && CanRun(s, steps)
    requires forall w :: 0 <= w < |Run(s, steps).locals| ==> Run(s, steps).locals[w].Idle?
    ensures var e := Run(s, steps);
            && Shape(e)
            && (forall i :: 0 <= i < SLOTS && e.keys[i] != 0 ==>
                  && e.total[i] == e.begun[e.keys[i]] && e.blocked[i] == e.begunBlocked[e.keys[i]]
                  && e.dropped[e.keys[i]] == 0)
            && (forall c :: c > 0 && c !in e.keys ==> e.dropped[c] == e.begun[c])
  {
    hide Chained, Passed;
    InitInv(s);
    RunKeepsInv(s, steps);
    var e := Run(s, steps);
    forall c, k ensures Owed(e.locals, c, k) == 0 {
      OwedNone(e.locals, c, k);
    }
    forall i | 0 <= i < SLOTS && e.keys[i] != 0
      ensures e.total[i] == e.begun[e.keys[i]] && e.blocked[i] == e.begunBlocked[e.keys[i]]
      ensures e.dropped[e.keys[i]] == 0
    {
      assert SlotTally(e, i);
    }
    forall c | c > 0 && c !in e.keys ensures e.dropped[c] == e.begun[c] {
      assert NoSlotTally(e, c);
    }
  }
}
