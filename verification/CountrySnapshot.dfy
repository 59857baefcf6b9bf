/** The per-country part of stat_snapshot (heavybag_status.c): a reader copies the overflow count and
    then key, total and blocked count of each slot, word by word, while workers bump the table. */
module CountrySnapshot {
  import opened CountrySteps

  const WORDS: nat := 1 + 3 * SLOTS

  /** What the j-th word of the copy order holds. */
  function Value(s: State, j: nat): nat
    requires Shape(s) && j < WORDS
  {
    if j == 0 then s.overflow
    else
      var i := (j - 1) / 3;
      if j % 3 == 1 then s.keys[i] else if j % 3 == 2 then s.total[i] else s.blocked[i]
  }

  function KeyWord(i: nat): nat { 3 * i + 1 }

  function TotalWord(i: nat): nat { 3 * i + 2 }

  function BlockedWord(i: nat): nat { 3 * i + 3 }

  /** The table with its workers, and the copy: the words read so far, the state the copy began in
      and the states its words were read in. */
  datatype World = World(s: State, copied: seq<nat>, start: State, seen: seq<State>)

  datatype Move = Work(step: Step) | StartCopy | Copy

  predicate CanMove(w: World, move: Move) {
    Shape(w.s) && match move
                  case Work(step) => Enabled(w.s, step)
                  case StartCopy => true
                  case Copy => |w.copied| < WORDS
  }

  function Moved(w: World, move: Move): World
    requires CanMove(w, move)
  {
    match move
    case Work(step) => w.(s := Apply(w.s, step))
    case StartCopy => World(w.s, [], w.s, [])
    case Copy => w.(copied := w.copied + [Value(w.s, |w.copied|)], seen := w.seen + [w.s])
  }

  predicate CanGo(w: World, moves: seq<Move>)
    decreases |moves|
  {
    moves == [] || (CanMove(w, moves[0]) && CanGo(Moved(w, moves[0]), moves[1..]))
  }

  function Go(w: World, moves: seq<Move>): World
    requires CanGo(w, moves)
    decreases |moves|
  {
    if moves == [] then w else Go(Moved(w, moves[0]), moves[1..])
  }

  predicate Begun(w: World) {
    Init(w.s) && w.start == w.s && w.copied == [] && w.seen == []
  }

  // ---- the table only grows ----

  predicate Grows(a: State, b: State) {
    && Shape(a) && Shape(b) && a.overflow <= b.overflow
    && forall i :: 0 <= i < SLOTS ==>
         a.total[i] <= b.total[i] && a.blocked[i] <= b.blocked[i] && (a.keys[i] != 0 ==> b.keys[i] == a.keys[i])
  }

  lemma StepGrows(s: State, step: Step)
    requires Shape(s) && Enabled(s, step)
    ensures Grows(s, Apply(s, step))
  {
  }

  lemma ValueGrows(a: State, b: State, j: nat)
    requires Grows(a, b) && j < WORDS
    ensures j == 0 || j % 3 != 1 ==> Value(a, j) <= Value(b, j)
    ensures j % 3 == 1 ==> Value(a, j) == 0 || Value(a, j) == Value(b, j)
  {
  }

  /** Each word was read in a state between the copy's beginning and now, in order, and each of those
      states met the table's invariant. */
  ghost predicate CopyInv(w: World) {
    && Inv(w.s) && Grows(w.start, w.s) && |w.seen| == |w.copied| <= WORDS
    && (forall j :: 0 <= j < |w.seen| ==>
          Inv(w.seen[j]) && w.copied[j] == Value(w.seen[j], j) && Grows(w.start, w.seen[j]) && Grows(w.seen[j], w.s))
    && (forall j, k :: 0 <= j <= k < |w.seen| ==> Grows(w.seen[j], w.seen[k]))
  }

  lemma MoveKeepsCopy(w: World, move: Move)
    requires CopyInv(w) && CanMove(w, move)
    ensures CopyInv(Moved(w, move))
  {
    hide Inv, Value, Apply;
    match move
    case Work(step) =>
      StepKeepsInv(w.s, step);
      StepGrows(w.s, step);
    case StartCopy =>
    case Copy =>
  }

  lemma {:induction false} GoKeepsCopy(w: World, moves: seq<Move>)
    requires CopyInv(w) && CanGo(w, moves)
    ensures CopyInv(Go(w, moves))
    decreases |moves|
  {
    hide CopyInv, Moved;
    if moves != [] {
      MoveKeepsCopy(w, moves[0]);
      GoKeepsCopy(Moved(w, moves[0]), moves[1..]);
    }
  }

  lemma BegunCopy(w: World)
    requires Begun(w)
    ensures CopyInv(w)
  {
    hide Inv;
    InitInv(w.s);
  }

  /** Every word of a copy taken among the workers, finished or not: the overflow count and each
      total and blocked count lie between their values at the copy's beginning and end, and each key
      is 0 or the slot's key for good. */
  lemma CopiedWords(w: World, moves: seq<Move>)
    requires Begun(w) && CanGo(w, moves)
    ensures var e := Go(w, moves);
            && |e.copied| <= WORDS && Shape(e.start) && Shape(e.s)
            && forall j :: 0 <= j < |e.copied| ==>
                 if j % 3 == 1 then e.copied[j] == 0 || e.copied[j] == Value(e.s, j)
                 else Value(e.start, j) <= e.copied[j] <= Value(e.s, j)
  {
    hide Inv, Value, Grows, Moved;
    BegunCopy(w);
    GoKeepsCopy(w, moves);
    var e := Go(w, moves);
    CopyShapes(e);
    forall j | 0 <= j < |e.copied|
      ensures if j % 3 == 1 then e.copied[j] == 0 || e.copied[j] == Value(e.s, j)
              else Value(e.start, j) <= e.copied[j] <= Value(e.s, j)
    {
      ValueGrows(e.start, e.seen[j], j);
      ValueGrows(e.seen[j], e.s, j);
    }
  }

  lemma CopyShapes(w: World)
    requires CopyInv(w)
    ensures Shape(w.start) && Shape(w.s) && forall j :: 0 <= j < |w.seen| ==> Shape(w.seen[j])
  {
  }

  /** One copied slot against itself. With a, b, c the states its key, total and blocked count were
      read in: the copy shows more blocked than counted by no more than the bumps counted in the slot
      between the last two reads. A slot copied as unowned shows what was counted after its key was
      read. */
  lemma CopiedSlot(w: World, moves: seq<Move>, i: nat)
    requires Begun(w) && CanGo(w, moves) && i < SLOTS && |Go(w, moves).copied| > BlockedWord(i)
    ensures var e := Go(w, moves);
            && |e.seen| == |e.copied| && (forall j :: 0 <= j < |e.seen| ==> Shape(e.seen[j]))
            && var total, blocked := e.copied[TotalWord(i)], e.copied[BlockedWord(i)];
            var a, b, c := e.seen[KeyWord(i)], e.seen[TotalWord(i)], e.seen[BlockedWord(i)];
            && a.total[i] <= b.total[i] <= c.total[i] && b.blocked[i] <= b.total[i] && b.blocked[i] <= c.blocked[i]
            && blocked <= total + (c.total[i] - b.total[i])
            && (e.copied[KeyWord(i)] == 0 ==> total == b.total[i] - a.total[i])
  {
    hide Inv, Grows, Moved, Value;
    BegunCopy(w);
    GoKeepsCopy(w, moves);
    var e := Go(w, moves);
    CopyShapes(e);
    SlotWords(e.seen[KeyWord(i)], i);
    SlotWords(e.seen[TotalWord(i)], i);
    SlotWords(e.seen[BlockedWord(i)], i);
    SlotGrows(e.seen[KeyWord(i)], e.seen[TotalWord(i)], i);
    SlotGrows(e.seen[TotalWord(i)], e.seen[BlockedWord(i)], i);
    BlockedWithin(e.seen[KeyWord(i)], i);
    BlockedWithin(e.seen[TotalWord(i)], i);
    BlockedWithin(e.seen[BlockedWord(i)], i);
  }

  lemma SlotWords(s: State, i: nat)
    requires Shape(s) && i < SLOTS
    ensures Value(s, KeyWord(i)) == s.keys[i] && Value(s, TotalWord(i)) == s.total[i]
    ensures Value(s, BlockedWord(i)) == s.blocked[i]
  {
  }

  lemma SlotGrows(a: State, b: State, i: nat)
    requires Grows(a, b) && i < SLOTS
    ensures a.total[i] <= b.total[i] && a.blocked[i] <= b.blocked[i]
  {
  }

  lemma BlockedWithin(s: State, i: nat)
    requires Inv(s) && i < SLOTS
    ensures s.blocked[i] <= s.total[i] && (s.keys[i] == 0 ==> s.total[i] == 0)
  {
    hide Chained, LocalInv;
    assert s.keys[i] != 0 ==> SlotTally(s, i);
  }

  /** The bumps counted in slot i between the reads of its total and of its blocked count. */
  function Between(e: World, i: nat): int {
    if i < SLOTS && |e.seen| > BlockedWord(i) && Shape(e.seen[TotalWord(i)]) && Shape(e.seen[BlockedWord(i)]) then
      e.seen[BlockedWord(i)].total[i] as int - e.seen[TotalWord(i)].total[i] as int
    else 0
  }

  /** No copy shows a slot with more blocked than counted when at most k bumps were counted in the
      slot between those reads. */
  ghost predicate SlotAgrees(k: nat) {
    forall w, moves, i: nat ::
      Begun(w) && CanGo(w, moves) && i < SLOTS && |Go(w, moves).copied| > BlockedWord(i) && Between(Go(w, moves), i) <= k ==>
        Go(w, moves).copied[BlockedWord(i)] <= Go(w, moves).copied[TotalWord(i)]
  }

  /** One bump in between is enough to make a copied slot disagree with itself. */
  lemma SlotAgreesIff(k: nat)
    ensures SlotAgrees(k) <==> k == 0
  {
    hide Go, CanGo, Begun, Shape;
    if k == 0 {
      forall w, moves, i: nat |
        Begun(w) && CanGo(w, moves) && i < SLOTS && |Go(w, moves).copied| > BlockedWord(i) && Between(Go(w, moves), i) <= k
        ensures Go(w, moves).copied[BlockedWord(i)] <= Go(w, moves).copied[TotalWord(i)]
      {
        CopiedSlot(w, moves, i);
      }
    } else {
      var w, moves := SkewedCopy();
      assert Go(w, moves).copied[BlockedWord(0)] > Go(w, moves).copied[TotalWord(0)];
    }
  }

  // ---- a copy that disagrees with itself ----

  lemma {:induction false} OneMoreMove(w: World, moves: seq<Move>, move: Move)
    requires CanGo(w, moves) && CanMove(Go(w, moves), move)
    ensures CanGo(w, moves + [move]) && Go(w, moves + [move]) == Moved(Go(w, moves), move)
    decreases |moves|
  {
    hide Moved, CanMove;
    if moves == [] {
      assert [move][1..] == [];
    } else {
      assert (moves + [move])[1..] == moves[1..] + [move];
      OneMoreMove(Moved(w, moves[0]), moves[1..], move);
    }
  }

  /** Up to the read of slot 0's total: its key was still 0, and a blocked bump has just claimed it. */
  lemma HalfCopied() returns (w: World, moves: seq<Move>)
    ensures Begun(w) && CanGo(w, moves)
    ensures var e := Go(w, moves);
            && e.copied == [0, 0, 0] && Shape(e.s) && e.s.locals == [Counting(SLOTS, true, 0)]
            && e.s.blocked[0] == 0 && e.s.total[0] == 0 && |e.seen| == 3 && e.seen[2] == e.s
  {
    hide Go, CanGo;
    var zeros := seq(SLOTS, _ => 0);
    var s := State(zeros, zeros, zeros, 0, [Idle], multiset{}, multiset{}, multiset{});
    w := World(s, [], s, []);
    NoMoves(w);
    OneMoreMove(w, [], Copy);
    moves := [] + [Copy];
    OneMoreMove(w, moves, Copy);
    moves := moves + [Copy];
    assert Go(w, moves).copied == [0, 0] && Go(w, moves).s == s;
    OneMoreMove(w, moves, Work(Begin(0, SLOTS, true)));
    moves := moves + [Work(Begin(0, SLOTS, true))];
    OneMoreMove(w, moves, Work(Load(0)));
    moves := moves + [Work(Load(0))];
    OneMoreMove(w, moves, Work(Claim(0)));
    moves := moves + [Work(Claim(0))];
    OneMoreMove(w, moves, Copy);
    moves := moves + [Copy];
  }

  /** One blocked bump, of a country whose first slot is slot 0, lands around the reads of that slot. */
  lemma SkewedCopy() returns (w: World, moves: seq<Move>)
    ensures Begun(w) && CanGo(w, moves)
    ensures var e := Go(w, moves);
            && |e.copied| > BlockedWord(0) && e.copied[KeyWord(0)] == 0 && e.copied[TotalWord(0)] == 0
            && e.copied[BlockedWord(0)] == 1 && Between(e, 0) == 1
  {
    hide Go, CanGo;
    w, moves := HalfCopied();
    OneMoreMove(w, moves, Work(Count(0)));
    moves := moves + [Work(Count(0))];
    OneMoreMove(w, moves, Work(Block(0)));
    moves := moves + [Work(Block(0))];
    OneMoreMove(w, moves, Copy);
    moves := moves + [Copy];
  }

  lemma NoMoves(w: World)
    ensures CanGo(w, []) && Go(w, []) == w
  {
  }
}
