/** The counters of the status segment, and the three books that must balance: HTTP (with mail),
    each vhost, and stream. */
module Segment {
  const REASON_MAX: nat := 17

  type Reason = r: nat | r < REASON_MAX

  const NONE: Reason := 0
  const ALLOWLIST: Reason := 1
  const FLAG: Reason := 5
  const SCANNER_UA: Reason := 6
  const EMPTY_UA: Reason := 7
  const SCANNER_PATH: Reason := 8
  const METHOD: Reason := 10
  const ARGS: Reason := 11
  const COOKIE: Reason := 12
  const REFERER: Reason := 13
  const FAKE_BOT: Reason := 14
  const RATE_LIMIT: Reason := 15
  const SPOOF: Reason := 16

  /** One shared counter; Country stands for one stat_cc_bump call. */
  datatype Counter =
    | HttpRequests | HttpAllowed | AllowlistHits
    | HttpBlocked(r: Reason) | HttpWould(r: Reason)
    | ScannerPath(code: nat) | Resp(code: nat)
    | Ua(ua: nat) | UaCategory(cat: nat) | UaSpoofed | FlagBlocked(flag: nat)
    | StreamConnections | StreamAllowed | StreamDenied(r: Reason) | StreamWould(r: Reason)
    | VhostRequests(v: nat) | VhostAllowed(v: nat) | VhostBlocked(v: nat, r: Reason)
    | Country(cc16: nat, blocked: bool)

  /** The value of every counter: how often it has been bumped. */
  type Counts = multiset<Counter>

  datatype Ledger = Http | Stream | Vhost(v: nat)

  function Opening(l: Ledger): Counter {
    match l
    case Http => HttpRequests
    case Stream => StreamConnections
    case Vhost(v) => VhostRequests(v)
  }

  function Allowing(l: Ledger): Counter {
    match l
    case Http => HttpAllowed
    case Stream => StreamAllowed
    case Vhost(v) => VhostAllowed(v)
  }

  function Blocking(l: Ledger, r: Reason): Counter {
    match l
    case Http => HttpBlocked(r)
    case Stream => StreamDenied(r)
    case Vhost(v) => VhostBlocked(v, r)
  }

  /** The blocks booked for the first n reasons. */
  function BlockedSum(m: Counts, l: Ledger, n: nat): nat
    requires n <= REASON_MAX
  {
    if n == 0 then 0 else BlockedSum(m, l, n - 1) + m[Blocking(l, n - 1)]
  }

  /** Opened minus closed: what the exported identity says is zero. */
  function Net(m: Counts, l: Ledger): int {
    m[Opening(l)] - m[Allowing(l)] - BlockedSum(m, l, REASON_MAX)
  }

  predicate IsBlocking(l: Ledger, c: Counter) {
    match l
    case Http => c.HttpBlocked?
    case Stream => c.StreamDenied?
    case Vhost(v) => c.VhostBlocked? && c.v == v
  }

  /** What one bump of c adds to Net. */
  function Weight(l: Ledger, c: Counter): int {
    if c == Opening(l) then 1 else if c == Allowing(l) || IsBlocking(l, c) then -1 else 0
  }

  lemma {:induction false} BlockedSumBump(m: Counts, l: Ledger, n: nat, c: Counter)
    requires n <= REASON_MAX
    ensures BlockedSum(m + multiset{c}, l, n) == BlockedSum(m, l, n) + if IsBlocking(l, c) && c.r < n then 1 else 0
  {
    if n > 0 {
      BlockedSumBump(m, l, n - 1, c);
    }
  }

  lemma NetBump(m: Counts, l: Ledger, c: Counter)
    ensures Net(m + multiset{c}, l) == Net(m, l) + Weight(l, c)
  {
    BlockedSumBump(m, l, REASON_MAX, c);
  }

  lemma {:induction false} EmptyBook(l: Ledger, n: nat)
    requires n <= REASON_MAX
    ensures BlockedSum(multiset{}, l, n) == 0
  {
    if n > 0 {
      EmptyBook(l, n - 1);
    }
  }

  lemma {:induction false} BlockedSumAgree(m: Counts, m': Counts, l: Ledger, n: nat)
    requires n <= REASON_MAX && forall r: Reason :: m[Blocking(l, r)] == m'[Blocking(l, r)]
    ensures BlockedSum(m, l, n) == BlockedSum(m', l, n)
  {
    if n > 0 {
      BlockedSumAgree(m, m', l, n - 1);
    }
  }

  /** Run a worker's bumps through one book: from closed or open, each opening must find it
      closed and each closing must find it open. None: the bumps are out of order. */
  datatype Phase = Closed | Open | Broken

  function After(l: Ledger, ops: seq<Counter>, p: Phase): Phase {
    if ops == [] then p else After(l, ops[1..], Next(l, ops[0], p))
  }

  function Next(l: Ledger, c: Counter, p: Phase): Phase {
    if Weight(l, c) == 0 then p
    else if Weight(l, c) == 1 && p == Closed then Open
    else if Weight(l, c) == -1 && p == Open then Closed
    else Broken
  }

  lemma {:induction false} AfterConcat(l: Ledger, a: seq<Counter>, b: seq<Counter>, p: Phase)
    ensures After(l, a + b, p) == After(l, b, After(l, a, p))
    decreases |a|
  {
    if a == [] {
      assert a + b == b;
    } else {
      assert (a + b)[1..] == a[1..] + b;
      AfterConcat(l, a[1..], b, Next(l, a[0], p));
    }
  }

  lemma {:induction false} BrokenStays(l: Ledger, ops: seq<Counter>)
    ensures After(l, ops, Broken) == Broken
    decreases |ops|
  {
    if ops != [] {
      BrokenStays(l, ops[1..]);
    }
  }

  predicate Neutral(l: Ledger, ops: seq<Counter>) {
    forall i :: 0 <= i < |ops| ==> Weight(l, ops[i]) == 0
  }

  lemma {:induction false} NeutralAfter(l: Ledger, ops: seq<Counter>, p: Phase)
    requires Neutral(l, ops)
    ensures After(l, ops, p) == p
    decreases |ops|
  {
    if ops != [] {
      NeutralAfter(l, ops[1..], p);
    }
  }
}
