/** The books of the status segment under concurrency: workers of all three heads interleave
    their counter bumps, and a snapshot reader copies the counters field by field among them. */
module Accounting {
  import opened Wrappers
  import opened Segment
  import opened Heads

  /** A request of any head, with the rate stage's answer left open. */
  datatype Request =
    | ToHttp(hop: Hop, mode: Mode, busy: bool)
    | ToMail(auth: MailAuth, busy: bool)
    | ToStream(conn: Conn, mode: Mode, busy: bool)

  function Program(env: Env, q: Request): seq<Counter> {
    match q
    case ToHttp(h, mode, busy) => HttpProgram(env, h, mode, busy)
    case ToMail(a, busy) => MailProgram(env, a, busy)
    case ToStream(c, mode, busy) => StreamProgram(env, c, mode, busy)
  }

  /** The counters stat_snapshot copies, in its order, up to the per-country table. */
  function PerReason(n: nat): (s: seq<Counter>)
    requires n <= REASON_MAX
    ensures |s| == 4 * n
    ensures forall r: Reason :: r < n ==> s[4 * r] == HttpBlocked(r)
  {
    if n == 0 then []
    else PerReason(n - 1) + [HttpBlocked(n - 1), HttpWould(n - 1), StreamDenied(n - 1), StreamWould(n - 1)]
  }

  function Agents(n: nat): seq<Counter> {
    if n == 0 then [] else Agents(n - 1) + [Ua(n - 1)]
  }

  function Categories(n: nat): seq<Counter> {
    if n == 0 then [] else Categories(n - 1) + [UaCategory(n - 1)]
  }

  function Breakdowns(): seq<Counter> {
    [ScannerPath(404), ScannerPath(403), ScannerPath(444), Resp(403), Resp(404), Resp(444), Resp(429)]
    + Agents(UA_MAX) + Categories(CAT_MAX)
    + [UaSpoofed, FlagBlocked(0), FlagBlocked(1), FlagBlocked(2), FlagBlocked(3), StreamConnections, StreamAllowed]
  }

  function CopyOrder(): seq<Counter> {
    [HttpRequests, HttpAllowed, AllowlistHits] + PerReason(REASON_MAX) + Breakdowns()
  }

  /** `pending` holds the bumps each worker has still to make. The snapshot fields: the values
      copied so far, and the counters when it began and when it read the first of them. */
  datatype World = World(counts: Counts, pending: seq<seq<Counter>>,
                         copied: seq<nat>, start: Counts, atTotal: Counts, flight: int)

  datatype Step = Arrive(w: nat, q: Request) | Bump(w: nat) | StartCopy | Copy

  predicate Enabled(s: World, step: Step) {
    match step
    case Arrive(w, _) => w < |s.pending| && s.pending[w] == []
    case Bump(w) => w < |s.pending| && s.pending[w] != []
    case StartCopy => true
    case Copy => |s.copied| < |CopyOrder()|
  }

  function Apply(env: Env, s: World, step: Step): (s': World)
    requires Enabled(s, step)
  {
    match step
    case Arrive(w, q) => s.(pending := s.pending[w := Program(env, q)])
    case Bump(w) =>
      s.(counts := s.counts + multiset{s.pending[w][0]}, pending := s.pending[w := s.pending[w][1..]])
    case StartCopy => s.(copied := [], start := s.counts)
    case Copy =>
      var c := s.(copied := s.copied + [s.counts[CopyOrder()[|s.copied|]]]);
      if s.copied == [] then c.(atTotal := s.counts, flight := InFlight(Http, s.pending)) else c
  }

  predicate CanRun(env: Env, s: World, steps: seq<Step>)
    decreases |steps|
  {
    steps == [] || (Enabled(s, steps[0]) && CanRun(env, Apply(env, s, steps[0]), steps[1..]))
  }

  function Run(env: Env, s: World, steps: seq<Step>): World
    requires CanRun(env, s, steps)
    decreases |steps|
  {
    if steps == [] then s else Run(env, Apply(env, s, steps[0]), steps[1..])
  }

  predicate Init(s: World) {
    s.counts == multiset{} && s.copied == [] && s.start == multiset{}
    && forall w :: 0 <= w < |s.pending| ==> s.pending[w] == []
  }

  /** A worker is in flight in a book when it has opened it and not yet closed it. */
  predicate IsOpen(l: Ledger, ops: seq<Counter>) {
    After(l, ops, Open) == Closed
  }

  /** The number of workers in flight. */
  function InFlight(l: Ledger, pending: seq<seq<Counter>>): nat {
    if pending == [] then 0
    else InFlight(l, pending[..|pending| - 1]) + if IsOpen(l, pending[|pending| - 1]) then 1 else 0
  }

  // ---- every program opens and closes each book in order ----

  predicate Balanced(l: Ledger, ops: seq<Counter>) {
    After(l, ops, Closed) == Closed
  }

  lemma {:induction false} FlagsNeutral(l: Ledger, flags: seq<nat>)
    ensures Neutral(l, FlagBumps(flags))
    decreases |flags|
  {
    if flags != [] {
      FlagsNeutral(l, flags[1..]);
    }
  }

  /** pre and post do not touch the book, mid opens and closes it or leaves it alone. */
  lemma BalancedParts(l: Ledger, pre: seq<Counter>, mid: seq<Counter>, post: seq<Counter>, p: Phase)
    requires Neutral(l, pre) && Neutral(l, post)
    ensures After(l, pre + mid + post, p) == After(l, mid, p)
  {
    AfterConcat(l, pre + mid, post, p);
    AfterConcat(l, pre, mid, p);
    NeutralAfter(l, pre, p);
    NeutralAfter(l, post, After(l, mid, p));
  }

  /** The books one HTTP pass opens. */
  predicate Touches(env: Env, h: Hop, l: Ledger) {
    l == Http || (l.Vhost? && VhostSlot(env, h.vhost) == Some(l.v))
  }

  /** Where a pass leaves a book that it found open or never opened. */
  function Entered(env: Env, h: Hop, l: Ledger): Phase {
    if Touches(env, h, l) then Open else Closed
  }

  lemma SinglesUnfold(l: Ledger, c: Counter, p: Phase)
    ensures After(l, [c], p) == Next(l, c, p) && After(l, [], p) == p
  {
    assert [c][1..] == [];
  }

  lemma EntryOpens(env: Env, h: Hop, l: Ledger)
    ensures After(l, EntryBumps(env, h), Closed) == Entered(env, h, l)
  {
    var first := [HttpRequests];
    AfterConcat(l, first, VhostRequestBump(env, h), Closed);
    SinglesUnfold(l, HttpRequests, Closed);
    if VhostSlot(env, h.vhost).Some? {
      SinglesUnfold(l, VhostRequests(VhostSlot(env, h.vhost).value), After(l, first, Closed));
    }
  }

  lemma AllowCloses(env: Env, h: Hop, l: Ledger)
    ensures After(l, AllowBumps(env, h), Entered(env, h, l)) == Closed
  {
    var hits := if h.verdict.reason == ALLOWLIST then [AllowlistHits] else [];
    var vhost := VhostAllowBump(env, h);
    var country := if h.verdict.geoValid then CountryBump(h.verdict.cc16, false) else [];
    VhostCloses(env, h, l, [HttpAllowed] + hits, hits + vhost + country, HttpAllowed, vhost, country);
    assert AllowBumps(env, h) == [] + [HttpAllowed] + (hits + vhost + country);
    assert AllowBumps(env, h) == [HttpAllowed] + hits + vhost + country;
  }

  /** A closing sequence seen from either book: `c` closes Http and is followed by `post`; for a
      vhost the sequence is pre, the vhost's own closing bump, country. */
  lemma VhostCloses(env: Env, h: Hop, l: Ledger, pre: seq<Counter>, post: seq<Counter>,
                    c: Counter, vhost: seq<Counter>, country: seq<Counter>)
    requires c == HttpAllowed || c.HttpBlocked?
    requires l == Http ==> Neutral(l, post)
    requires l != Http ==> Neutral(l, pre) && Neutral(l, country)
    requires match VhostSlot(env, h.vhost)
             case None => vhost == []
             case Some(v) => exists b: Counter :: vhost == [b] && (b == VhostAllowed(v) || (b.VhostBlocked? && b.v == v))
    ensures l == Http ==> After(l, [] + [c] + post, Entered(env, h, l)) == Closed
    ensures l != Http ==> After(l, pre + vhost + country, Entered(env, h, l)) == Closed
  {
    if l == Http {
      BalancedParts(l, [], [c], post, Open);
      SinglesUnfold(l, c, Open);
    } else {
      BalancedParts(l, pre, vhost, country, Entered(env, h, l));
      if vhost != [] {
        SinglesUnfold(l, vhost[0], Entered(env, h, l));
      }
    }
  }

  lemma WouldCloses(env: Env, h: Hop, r: Reason, code: nat, l: Ledger)
    ensures After(l, FinalBumps(env, h, Detect, r, code), Entered(env, h, l)) == Closed
  {
    var vhost := VhostAllowBump(env, h);
    var country := CountryBump(h.verdict.cc16, false);
    var pre := [HttpWould(r), HttpAllowed];
    assert FinalBumps(env, h, Detect, r, code) == pre + vhost + country;
    if l == Http {
      assert pre + vhost + country == [HttpWould(r)] + [HttpAllowed] + (vhost + country);
      BalancedParts(l, [HttpWould(r)], [HttpAllowed], vhost + country, Open);
      SinglesUnfold(l, HttpAllowed, Open);
    } else {
      VhostCloses(env, h, l, pre, [], HttpAllowed, vhost, country);
    }
  }

  lemma BlockCloses(env: Env, h: Hop, b: Block, l: Ledger)
    requires Neutral(l, b.extra)
    ensures After(l, FinalBumps(env, h, Enforce, b.reason, b.code) + b.extra, Entered(env, h, l)) == Closed
  {
    var vhost := VhostBlockBump(env, h, b.reason);
    var resp := RespBump(b.code);
    var country := CountryBump(h.verdict.cc16, true) + b.extra;
    var all := FinalBumps(env, h, Enforce, b.reason, b.code) + b.extra;
    assert all == [] + [HttpBlocked(b.reason)] + (resp + vhost + country);
    assert all == [HttpBlocked(b.reason)] + resp + vhost + country;
    VhostCloses(env, h, l, [HttpBlocked(b.reason)] + resp, resp + vhost + country, HttpBlocked(b.reason), vhost, country);
  }

  lemma OutcomeCloses(env: Env, h: Hop, mode: Mode, busy: bool, l: Ledger)
    ensures After(l, OutcomeBumps(env, h, mode, Decide(h, busy).block), Entered(env, h, l)) == Closed
  {
    hide Signature, FinalBumps, AllowBumps;
    match Decide(h, busy).block
    case None => AllowCloses(env, h, l);
    case Some(b) =>
      if mode == Detect {
        WouldCloses(env, h, b.reason, b.code, l);
        assert FinalBumps(env, h, mode, b.reason, b.code) + [] == FinalBumps(env, h, mode, b.reason, b.code);
      } else {
        ExtraNeutral(h, busy, l);
        BlockCloses(env, h, b, l);
      }
  }

  lemma ExtraNeutral(h: Hop, busy: bool, l: Ledger)
    ensures Decide(h, busy).block.Some? ==> Neutral(l, Decide(h, busy).block.value.extra)
  {
    FlagsNeutral(l, h.verdict.flags);
  }

  lemma HttpBalanced(env: Env, h: Hop, mode: Mode, busy: bool, l: Ledger)
    ensures Balanced(l, HttpProgram(env, h, mode, busy))
  {
    hide OutcomeBumps, EntryBumps, Decide;
    if Counted(env, h) {
      var d := Decide(h, busy);
      var out := OutcomeBumps(env, h, mode, d.block);
      var ua := if d.classified then UaBumps(h) else [];
      assert JudgeBumps(env, h, mode, busy) == ua + out + [];
      OutcomeCloses(env, h, mode, busy, l);
      BalancedParts(l, ua, out, [], Entered(env, h, l));
      AfterConcat(l, EntryBumps(env, h), JudgeBumps(env, h, mode, busy), Closed);
      EntryOpens(env, h, l);
    }
  }

  lemma MailBalanced(env: Env, q: MailAuth, busy: bool, l: Ledger)
    ensures Balanced(l, MailProgram(env, q, busy))
  {
    if env.statZone && q.judged {
      var ops := MailProgram(env, q, busy);
      var close, post := ops[1], ops[2..];
      assert ops == [] + ([HttpRequests] + [close]) + post;
      BalancedParts(l, [], [HttpRequests] + [close], post, Closed);
      AfterConcat(l, [HttpRequests], [close], Closed);
      SinglesUnfold(l, HttpRequests, Closed);
      SinglesUnfold(l, close, After(l, [HttpRequests], Closed));
    }
  }

  lemma StreamNeutral(q: Conn, mode: Mode, busy: bool, denied: bool, l: Ledger)
    ensures Neutral(l, StreamWoulds(q, mode, busy))
    ensures Neutral(l, if q.verdict.geoValid then CountryBump(q.verdict.cc16, denied) else [])
  {
  }

  lemma StreamBalanced(env: Env, q: Conn, mode: Mode, busy: bool, l: Ledger)
    ensures Balanced(l, StreamProgram(env, q, mode, busy))
  {
    if env.statZone {
      var deny := StreamDeny(q, mode, busy);
      var close := if deny.Some? then StreamDenied(deny.value) else StreamAllowed;
      var country := if q.verdict.geoValid then CountryBump(q.verdict.cc16, deny.Some?) else [];
      var would := StreamWoulds(q, mode, busy);
      assert StreamProgram(env, q, mode, busy) == would + ([StreamConnections] + [close]) + country;
      StreamNeutral(q, mode, busy, deny.Some?, l);
      hide StreamWoulds, CountryBump, StreamDeny, Neutral;
      BalancedParts(l, would, [StreamConnections] + [close], country, Closed);
      AfterConcat(l, [StreamConnections], [close], Closed);
      SinglesUnfold(l, StreamConnections, Closed);
      SinglesUnfold(l, close, After(l, [StreamConnections], Closed));
    }
  }

  lemma ProgramBalanced(env: Env, q: Request, l: Ledger)
    ensures Balanced(l, Program(env, q))
  {
    match q
    case ToHttp(h, mode, busy) => HttpBalanced(env, h, mode, busy, l);
    case ToMail(a, busy) => MailBalanced(env, a, busy, l);
    case ToStream(c, mode, busy) => StreamBalanced(env, c, mode, busy, l);
  }

  // ---- the identity in every reachable state ----

  /** The rest of a program cannot suit both an open and a closed book. */
  lemma {:induction false} OpenOrClosed(l: Ledger, ops: seq<Counter>)
    ensures !(Balanced(l, ops) && IsOpen(l, ops))
    decreases |ops|
  {
    if ops != [] {
      BrokenStays(l, ops[1..]);
      OpenOrClosed(l, ops[1..]);
    }
  }

  /** A worker's next bump moves the book and the worker together. */
  lemma BumpMoves(l: Ledger, ops: seq<Counter>)
    requires ops != [] && (Balanced(l, ops) || IsOpen(l, ops))
    ensures Balanced(l, ops[1..]) || IsOpen(l, ops[1..])
    ensures Weight(l, ops[0]) == (if IsOpen(l, ops[1..]) then 1 else 0) - (if IsOpen(l, ops) then 1 else 0)
  {
    BrokenStays(l, ops[1..]);
    OpenOrClosed(l, ops);
    OpenOrClosed(l, ops[1..]);
  }

  lemma {:induction false} InFlightUpdate(l: Ledger, pending: seq<seq<Counter>>, w: nat, ops: seq<Counter>)
    requires w < |pending|
    ensures InFlight(l, pending[w := ops])
         == InFlight(l, pending) - (if IsOpen(l, pending[w]) then 1 else 0) + (if IsOpen(l, ops) then 1 else 0)
    decreases |pending|
  {
    var n := |pending| - 1;
    if w < n {
      assert pending[w := ops][..n] == pending[..n][w := ops];
      InFlightUpdate(l, pending[..n], w, ops);
    } else {
      assert pending[w := ops][..n] == pending[..n];
    }
  }

  /** One book: every worker's rest suits it, and opened minus closed is the number in flight. */
  ghost predicate BookInv(s: World, l: Ledger) {
    && (forall w :: 0 <= w < |s.pending| ==> Balanced(l, s.pending[w]) || IsOpen(l, s.pending[w]))
    && Net(s.counts, l) == InFlight(l, s.pending)
  }

  lemma StepKeepsBook(env: Env, s: World, step: Step, l: Ledger)
    requires Enabled(s, step) && BookInv(s, l)
    ensures BookInv(Apply(env, s, step), l)
  {
    hide Net, InFlight, CopyOrder, Program;
    match step
    case Arrive(w, q) =>
      ProgramBalanced(env, q, l);
      OpenOrClosed(l, Program(env, q));
      InFlightUpdate(l, s.pending, w, Program(env, q));
    case Bump(w) =>
      BumpMoves(l, s.pending[w]);
      InFlightUpdate(l, s.pending, w, s.pending[w][1..]);
      NetBump(s.counts, l, s.pending[w][0]);
    case StartCopy =>
    case Copy =>
  }

  /** The snapshot in progress: every copied value lies between the counter's values at the
      start and now, and is not below its value when the request total was read. */
  ghost predicate SnapInv(s: World) {
    && s.start <= s.counts && |s.copied| <= |CopyOrder()|
    && (forall j :: 0 <= j < |s.copied| ==> s.start[CopyOrder()[j]] <= s.copied[j] <= s.counts[CopyOrder()[j]])
    && (s.copied != [] ==>
          && s.atTotal <= s.counts && Net(s.atTotal, Http) == s.flight
          && s.copied[0] == s.atTotal[HttpRequests]
          && forall j :: 0 <= j < |s.copied| ==> s.atTotal[CopyOrder()[j]] <= s.copied[j])
  }

  lemma StepKeepsSnap(env: Env, s: World, step: Step)
    requires Enabled(s, step) && SnapInv(s) && BookInv(s, Http)
    ensures SnapInv(Apply(env, s, step))
  {
    hide Net, InFlight, Program, CopyOrder, SnapInv, BookInv;
    match step
    case Arrive(_, _) => GrowthKeepsSnap(s, Apply(env, s, step));
    case Bump(_) => GrowthKeepsSnap(s, Apply(env, s, step));
    case StartCopy => StartKeepsSnap(s);
    case Copy => CopyKeepsSnap(env, s);
  }

  lemma StartKeepsSnap(s: World)
    ensures SnapInv(s.(copied := [], start := s.counts))
  {
    hide Net, CopyOrder;
  }

  lemma GrowthKeepsSnap(s: World, s': World)
    requires SnapInv(s) && s.counts <= s'.counts && s' == s.(counts := s'.counts, pending := s'.pending)
    ensures SnapInv(s')
  {
    hide Net, CopyOrder;
  }

  lemma CopyKeepsSnap(env: Env, s: World)
    requires Enabled(s, Copy) && SnapInv(s) && BookInv(s, Http)
    ensures SnapInv(Apply(env, s, Copy))
  {
    hide Net, InFlight, Program;
    FirstCopied();
    hide CopyOrder;
  }

  lemma FirstCopied()
    ensures |CopyOrder()| > 2 + 4 * REASON_MAX
    ensures CopyOrder()[0] == HttpRequests && CopyOrder()[1] == HttpAllowed
    ensures forall r: Reason :: CopyOrder()[3 + 4 * r] == HttpBlocked(r)
  {
    hide Breakdowns, PerReason;
    forall r: Reason ensures CopyOrder()[3 + 4 * r] == HttpBlocked(r) {
      assert CopyOrder()[3 + 4 * r] == PerReason(REASON_MAX)[4 * r];
    }
  }

  lemma {:induction false} RunKeepsBooks(env: Env, s: World, steps: seq<Step>, l: Ledger)
    requires CanRun(env, s, steps) && BookInv(s, l) && BookInv(s, Http) && SnapInv(s)
    ensures BookInv(Run(env, s, steps), l) && SnapInv(Run(env, s, steps))
    decreases |steps|
  {
    hide BookInv, SnapInv, Apply;
    if steps != [] {
      StepKeepsBook(env, s, steps[0], l);
      StepKeepsBook(env, s, steps[0], Http);
      StepKeepsSnap(env, s, steps[0]);
      RunKeepsBooks(env, Apply(env, s, steps[0]), steps[1..], l);
    }
  }

  lemma InitBooks(s: World, l: Ledger)
    requires Init(s)
    ensures BookInv(s, l) && SnapInv(s)
  {
    hide CopyOrder;
    EmptyBook(l, REASON_MAX);
    NobodyInFlight(l, s.pending);
    assert forall w :: 0 <= w < |s.pending| ==> Balanced(l, s.pending[w]);
  }

  lemma {:induction false} NobodyInFlight(l: Ledger, pending: seq<seq<Counter>>)
    requires forall w :: 0 <= w < |pending| ==> pending[w] == []
    ensures InFlight(l, pending) == 0
    decreases |pending|
  {
    if pending != [] {
      NobodyInFlight(l, pending[..|pending| - 1]);
    }
  }

  /** The exported identity, in every reachable state of any number of workers of all three
      heads, internal redirects and both modes: requests = allowed + sum(blocked) + in flight, on the
      HTTP book the mail head shares, on every vhost, and on the stream book. */
  lemma BooksBalance(env: Env, s: World, steps: seq<Step>, l: Ledger)
    requires Init(s) && CanRun(env, s, steps)
    ensures var e := Run(env, s, steps);
            e.counts[Opening(l)] == e.counts[Allowing(l)] + BlockedSum(e.counts, l, REASON_MAX) + InFlight(l, e.pending)
  {
    hide CopyOrder, Apply;
    InitBooks(s, l);
    InitBooks(s, Http);
    RunKeepsBooks(env, s, steps, l);
  }

  /** The blocked counters of a snapshot, added up. */
  function CopiedBlocked(copied: seq<nat>, n: nat): nat
    requires n <= REASON_MAX && |copied| > 2 + 4 * n
  {
    if n == 0 then 0 else CopiedBlocked(copied, n - 1) + copied[3 + 4 * (n - 1)]
  }

  /** A finished snapshot taken among the workers: every copied counter lies between its values
      at the snapshot's start and end, and the copied request total is at most the copied allows
      and blocks plus the requests in flight when that total was read. */
  lemma SnapshotBounds(env: Env, s: World, steps: seq<Step>)
    requires Init(s) && CanRun(env, s, steps)
    requires |Run(env, s, steps).copied| == |CopyOrder()|
    ensures var e := Run(env, s, steps);
            && (forall j :: 0 <= j < |e.copied| ==>
                  e.start[CopyOrder()[j]] <= e.copied[j] <= e.counts[CopyOrder()[j]])
            && |e.copied| > 2 + 4 * REASON_MAX
            && e.copied[0] <= e.copied[1] + CopiedBlocked(e.copied, REASON_MAX) + e.flight
  {
    FirstCopied();
    hide CopyOrder, Apply;
    InitBooks(s, Http);
    RunKeepsBooks(env, s, steps, Http);
    var e := Run(env, s, steps);
    CopiedBlockedCovers(e.copied, e.atTotal, REASON_MAX);
  }

  lemma {:induction false} CopiedBlockedCovers(copied: seq<nat>, m: Counts, n: nat)
    requires n <= REASON_MAX && |copied| > 2 + 4 * n
    requires forall r: Reason :: r < n ==> m[HttpBlocked(r)] <= copied[3 + 4 * r]
    ensures BlockedSum(m, Http, n) <= CopiedBlocked(copied, n)
  {
    if n > 0 {
      CopiedBlockedCovers(copied, m, n - 1);
    }
  }

  // ---- what the snapshot copies ----

  /** The counters outside the per-vhost and per-country tables. */
  predicate Exported(c: Counter) {
    match c
    case ScannerPath(code) => code in {403, 404, 444}
    case Resp(code) => code in {403, 404, 429, 444}
    case Ua(u) => u < 6
    case UaCategory(g) => g < 10
    case FlagBlocked(f) => f < 4
    case VhostRequests(_) => false
    case VhostAllowed(_) => false
    case VhostBlocked(_, _) => false
    case Country(_, _) => false
    case _ => true
  }

  function Copies(s: seq<Counter>, c: Counter): nat {
    if s == [] then 0 else Copies(s[..|s| - 1], c) + if s[|s| - 1] == c then 1 else 0
  }

  lemma {:induction false} CopiesConcat(s: seq<Counter>, t: seq<Counter>, c: Counter)
    ensures Copies(s + t, c) == Copies(s, c) + Copies(t, c)
    decreases |t|
  {
    if t == [] {
      assert s + t == s;
    } else {
      assert (s + t)[..|s + t| - 1] == s + t[..|t| - 1];
      CopiesConcat(s, t[..|t| - 1], c);
    }
  }

  predicate Distinct(s: seq<Counter>) {
    forall i, j :: 0 <= i < j < |s| ==> s[i] != s[j]
  }

  lemma {:induction false} DistinctCopies(s: seq<Counter>, c: Counter)
    requires Distinct(s)
    ensures Copies(s, c) == if c in s then 1 else 0
    decreases |s|
  {
    if s != [] {
      DistinctCopies(s[..|s| - 1], c);
      assert s == s[..|s| - 1] + [s[|s| - 1]];
    }
  }

  lemma {:induction false} ReasonCopies(n: nat, c: Counter)
    requires n <= REASON_MAX
    ensures Copies(PerReason(n), c)
            == if (c.HttpBlocked? || c.HttpWould? || c.StreamDenied? || c.StreamWould?) && c.r < n then 1 else 0
  {
    hide Copies;
    if n == 0 {
      DistinctCopies([], c);
    } else {
      ReasonCopies(n - 1, c);
      var four := [HttpBlocked(n - 1), HttpWould(n - 1), StreamDenied(n - 1), StreamWould(n - 1)];
      CopiesConcat(PerReason(n - 1), four, c);
      DistinctCopies(four, c);
    }
  }

  lemma {:induction false} AgentCopies(n: nat, c: Counter)
    ensures Copies(Agents(n), c) == if c.Ua? && c.ua < n then 1 else 0
    ensures Copies(Categories(n), c) == if c.UaCategory? && c.cat < n then 1 else 0
  {
    if n > 0 {
      AgentCopies(n - 1, c);
    }
  }

  function Totals(): seq<Counter> {
    [HttpRequests, HttpAllowed, AllowlistHits]
  }

  function Replies(): seq<Counter> {
    [ScannerPath(404), ScannerPath(403), ScannerPath(444), Resp(403), Resp(404), Resp(444), Resp(429)]
  }

  function Others(): seq<Counter> {
    [UaSpoofed, FlagBlocked(0), FlagBlocked(1), FlagBlocked(2), FlagBlocked(3), StreamConnections, StreamAllowed]
  }

  lemma ListCopies(c: Counter)
    ensures Copies(Totals(), c) == (if c in {HttpRequests, HttpAllowed, AllowlistHits} then 1 else 0)
    ensures Copies(Replies(), c) == (if (c.ScannerPath? && c.code in {403, 404, 444}) || (c.Resp? && c.code in {403, 404, 429, 444}) then 1 else 0)
    ensures Copies(Others(), c) == (if c in {UaSpoofed, StreamConnections, StreamAllowed} || (c.FlagBlocked? && c.flag < 4) then 1 else 0)
  {
    hide Copies;
    DistinctCopies(Totals(), c);
    DistinctCopies(Replies(), c);
    DistinctCopies(Others(), c);
  }

  /** The snapshot copies every exported counter once, and no other. */
  lemma CopiedOnce(c: Counter)
    ensures Copies(CopyOrder(), c) == if Exported(c) then 1 else 0
  {
    OrderIs();
    ReasonCopies(REASON_MAX, c);
    AgentCopies(UA_MAX, c);
    AgentCopies(CAT_MAX, c);
    ListCopies(c);
    hide Copies, Totals, Replies, Others, Agents, Categories, PerReason, CopyOrder;
    CopiesConcat(Totals() + PerReason(REASON_MAX), Replies() + Agents(UA_MAX) + Categories(CAT_MAX) + Others(), c);
    CopiesConcat(Totals(), PerReason(REASON_MAX), c);
    CopiesConcat(Replies() + Agents(UA_MAX) + Categories(CAT_MAX), Others(), c);
    CopiesConcat(Replies() + Agents(UA_MAX), Categories(CAT_MAX), c);
    CopiesConcat(Replies(), Agents(UA_MAX), c);
  }

  lemma OrderIs()
    ensures CopyOrder() == Totals() + PerReason(REASON_MAX) + (Replies() + Agents(UA_MAX) + Categories(CAT_MAX) + Others())
  {
    hide Agents, Categories, PerReason;
  }
}
