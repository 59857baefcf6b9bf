/** What each head decides about a request and which counters it bumps, in program order: the
    HTTP PREACCESS handler, the mail auth handler and the stream handler. */
module Heads {
  import opened Wrappers
  import opened Segment
  import opened RateBucket
  import opened RateTable

  const FORBIDDEN: nat := 403
  const NOT_FOUND: nat := 404
  const TOO_MANY: nat := 429
  const CLOSE: nat := 444

  const UA_SCANNER: nat := 0
  const UA_EMPTY: nat := 5
  const UA_MAX: nat := 6
  const CAT_MAX: nat := 10

  datatype Mode = Detect | Enforce

  /** Zones and vhost counts: `confVhosts` is this configuration's, `shmVhosts` the length of
      the per-vhost array the segment was allocated with. */
  datatype Env = Env(statZone: bool, rateZone: bool, confVhosts: nat, shmVhosts: nat)

  /** What reputation_check returned: code None is an allow; `flags` are the slots of the libloc
      flags both set and masked. */
  datatype Verdict = Verdict(code: Option<nat>, reason: Reason, cc16: nat, geoValid: bool, flags: seq<nat>)

  /** The rate stage: the rule chosen for the client and its key. */
  datatype Limit = Limit(rule: Option<Params>, key: nat)

  /** One pass of the HTTP handler over a main request: configuration and what each stage's
      lookup answers. `internal` marks an internal-redirect pass. */
  datatype Hop = Hop(
    internal: bool, vhost: nat, verdict: Verdict, fullScope: bool,
    methodOk: bool, methodDenied: bool, limit: Limit,
    ua: nat, category: nat, spoofed: bool,
    spoofBlock: bool, botBlock: bool, fakeBot: bool,
    scanner: Option<nat>, args: Option<nat>, cookie: Option<nat>, referer: Option<nat>)

  /** A block point: its reason and status, and the bumps the handler adds after the finalizer. */
  datatype Block = Block(reason: Reason, code: nat, extra: seq<Counter>)

  /** `classified`: the pipeline got as far as the user-agent counters. */
  datatype Decision = Decision(block: Option<Block>, classified: bool)

  function Bypassed(h: Hop): bool {
    h.verdict.reason == ALLOWLIST && h.fullScope
  }

  /** The request gets past reputation and methods to the rate stage. */
  predicate ReachesLimit(h: Hop) {
    h.verdict.code.None? && !Bypassed(h) && h.methodOk && !h.methodDenied
  }

  function FlagBumps(flags: seq<nat>): seq<Counter> {
    if flags == [] then [] else [FlagBlocked(flags[0])] + FlagBumps(flags[1..])
  }

  /** The early-return pipeline; `busy` is the rate stage's answer. */
  function Decide(h: Hop, busy: bool): Decision {
    match h.verdict.code
    case Some(code) =>
      Decision(Some(Block(h.verdict.reason, code,
                          if h.verdict.reason == FLAG then FlagBumps(h.verdict.flags) else [])), false)
    case None =>
      if Bypassed(h) then Decision(None, false)
      else if !h.methodOk || h.methodDenied then Decision(Some(Block(METHOD, NOT_FOUND, [])), false)
      else if busy then Decision(Some(Block(RATE_LIMIT, TOO_MANY, [])), false)
      else Decision(Signature(h), true)
  }

  /** The stages after the rate limit, first hit wins. */
  function Signature(h: Hop): Option<Block> {
    if h.spoofBlock && h.spoofed then Some(Block(SPOOF, FORBIDDEN, []))
    else if h.botBlock && (h.ua == UA_SCANNER || h.ua == UA_EMPTY) then
      Some(Block(if h.ua == UA_SCANNER then SCANNER_UA else EMPTY_UA, NOT_FOUND, []))
    else if h.fakeBot then Some(Block(FAKE_BOT, FORBIDDEN, []))
    else if h.scanner.Some? then
      Some(Block(SCANNER_PATH, h.scanner.value,
                 if h.scanner.value in {NOT_FOUND, FORBIDDEN, CLOSE} then [ScannerPath(h.scanner.value)] else []))
    else if h.args.Some? then Some(Block(ARGS, h.args.value, []))
    else if h.cookie.Some? then Some(Block(COOKIE, h.cookie.value, []))
    else if h.referer.Some? then Some(Block(REFERER, h.referer.value, []))
    else None
  }

  /** The vhost's slot in the segment, if the segment has one for it. */
  function VhostSlot(env: Env, vhost: nat): Option<nat> {
    var idx := if vhost < env.confVhosts then vhost else 0;
    if idx < env.shmVhosts then Some(idx) else None
  }

  function VhostRequestBump(env: Env, h: Hop): seq<Counter> {
    match VhostSlot(env, h.vhost)
    case None => []
    case Some(v) => [VhostRequests(v)]
  }

  function VhostAllowBump(env: Env, h: Hop): seq<Counter> {
    match VhostSlot(env, h.vhost)
    case None => []
    case Some(v) => [VhostAllowed(v)]
  }

  function VhostBlockBump(env: Env, h: Hop, r: Reason): seq<Counter> {
    match VhostSlot(env, h.vhost)
    case None => []
    case Some(v) => [VhostBlocked(v, r)]
  }

  function CountryBump(cc16: nat, blocked: bool): seq<Counter> {
    if cc16 == 0 then [] else [Country(cc16, blocked)]
  }

  function RespBump(code: nat): seq<Counter> {
    if code in {FORBIDDEN, NOT_FOUND, CLOSE, TOO_MANY} then [Resp(code)] else []
  }

  function UaBumps(h: Hop): seq<Counter> {
    (if h.ua < UA_MAX then [Ua(h.ua)] else [])
    + (if h.category < CAT_MAX then [UaCategory(h.category)] else [])
    + (if h.spoofed then [UaSpoofed] else [])
  }

  function EntryBumps(env: Env, h: Hop): seq<Counter> {
    [HttpRequests] + VhostRequestBump(env, h)
  }

  /** finalize_decision on a counted pass: detect books an allow under a would-block overlay,
      any other mode books the block. */
  function FinalBumps(env: Env, h: Hop, mode: Mode, reason: Reason, code: nat): seq<Counter> {
    if mode == Detect then
      [HttpWould(reason), HttpAllowed] + VhostAllowBump(env, h) + CountryBump(h.verdict.cc16, false)
    else
      [HttpBlocked(reason)] + RespBump(code) + VhostBlockBump(env, h, reason)
      + CountryBump(h.verdict.cc16, true)
  }

  function AllowBumps(env: Env, h: Hop): seq<Counter> {
    [HttpAllowed] + (if h.verdict.reason == ALLOWLIST then [AllowlistHits] else [])
    + VhostAllowBump(env, h)
    + (if h.verdict.geoValid then CountryBump(h.verdict.cc16, false) else [])
  }

  /** A pass counts only with a status zone and only on the original, non-internal pass. */
  predicate Counted(env: Env, h: Hop) {
    env.statZone && !h.internal
  }

  /** The bumps of the end of the pipeline: an allow, or a block point and what follows it. */
  function OutcomeBumps(env: Env, h: Hop, mode: Mode, block: Option<Block>): seq<Counter> {
    match block
    case None => AllowBumps(env, h)
    case Some(b) => FinalBumps(env, h, mode, b.reason, b.code) + if mode == Detect then [] else b.extra
  }

  /** Every bump of one HTTP pass, in order. */
  function HttpProgram(env: Env, h: Hop, mode: Mode, busy: bool): seq<Counter> {
    if !Counted(env, h) then [] else EntryBumps(env, h) + JudgeBumps(env, h, mode, busy)
  }

  function JudgeBumps(env: Env, h: Hop, mode: Mode, busy: bool): seq<Counter> {
    var d := Decide(h, busy);
    if d.classified then UaBumps(h) + OutcomeBumps(env, h, mode, d.block) else OutcomeBumps(env, h, mode, d.block)
  }

  /** What the handler returns: None lets the request through. */
  function HttpAnswer(h: Hop, mode: Mode, busy: bool): Option<nat> {
    Answer(mode, Decide(h, busy).block)
  }

  function Answer(mode: Mode, block: Option<Block>): Option<nat> {
    match block
    case None => None
    case Some(b) => if mode == Detect then None else Some(b.code)
  }

  /** One mail auth request; `judged` is false when an authenticated caller sent no usable
      Client-IP. */
  datatype MailAuth = MailAuth(judged: bool, verdict: Verdict, fullScope: bool, limit: Limit)

  predicate MailReachesLimit(q: MailAuth) {
    q.judged && q.verdict.code.None? && !(q.verdict.reason == ALLOWLIST && q.fullScope)
  }

  function MailOutcome(q: MailAuth, busy: bool): seq<Counter> {
    if q.verdict.code.Some? then [HttpBlocked(q.verdict.reason)]
    else if MailReachesLimit(q) && busy then [HttpBlocked(RATE_LIMIT), Resp(TOO_MANY)]
    else if q.verdict.reason == ALLOWLIST then [HttpAllowed, AllowlistHits]
    else [HttpAllowed]
  }

  function MailProgram(env: Env, q: MailAuth, busy: bool): seq<Counter> {
    if !env.statZone || !q.judged then [] else [HttpRequests] + MailOutcome(q, busy)
  }

  function MailAnswer(q: MailAuth, failOpen: bool, busy: bool): bool {
    if !q.judged then failOpen else q.verdict.code.None? && !(MailReachesLimit(q) && busy)
  }

  /** One stream connection. */
  datatype Conn = Conn(verdict: Verdict, limit: Limit)

  /** A reputation deny in detect mode is downgraded and still meets the limiter. */
  predicate StreamReachesLimit(q: Conn, mode: Mode) {
    (q.verdict.code.None? || mode == Detect) && q.verdict.reason != ALLOWLIST
  }

  function StreamDeny(q: Conn, mode: Mode, busy: bool): Option<Reason> {
    if mode == Detect then None
    else if q.verdict.code.Some? then Some(q.verdict.reason)
    else if StreamReachesLimit(q, mode) && busy then Some(RATE_LIMIT)
    else None
  }

  /** Detect mode's overlay: what would have been denied, reputation and rate each. */
  function StreamWoulds(q: Conn, mode: Mode, busy: bool): seq<Counter> {
    (if mode == Detect && q.verdict.code.Some? then [StreamWould(q.verdict.reason)] else [])
    + (if mode == Detect && StreamReachesLimit(q, mode) && busy then [StreamWould(RATE_LIMIT)] else [])
  }

  function StreamBumps(q: Conn, deny: Option<Reason>): seq<Counter> {
    [StreamConnections, if deny.Some? then StreamDenied(deny.value) else StreamAllowed]
    + (if q.verdict.geoValid then CountryBump(q.verdict.cc16, deny.Some?) else [])
  }

  function StreamProgram(env: Env, q: Conn, mode: Mode, busy: bool): seq<Counter> {
    if !env.statZone then [] else StreamWoulds(q, mode, busy) + StreamBumps(q, StreamDeny(q, mode, busy))
  }

  /** rate_check as the heads call it: no rule or no zone is no limit. */
  function LimitStep(env: Env, t: Table, l: Limit, reached: bool, clock: nat): StepResult
    requires Shape(t)
  {
    if reached && env.rateZone && l.rule.Some? then RateCheck(t, l.key, clock, l.rule.value)
    else StepResult(t, Ok, 0)
  }
}
