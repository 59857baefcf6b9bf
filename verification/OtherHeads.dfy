/** What the mail and stream heads decide and count, as Pipeline says it of the HTTP head. */
module OtherHeads {
  import opened Wrappers
  import opened Segment
  import opened RateTable
  import opened Heads
  import opened Pipeline

  // ---- mail ----

  /** The session is held up by the limiter: it answered busy, and the client does not skip it. */
  predicate MailLimited(q: MailAuth, busy: bool) {
    busy && q.verdict.code == None && !(q.verdict.reason == ALLOWLIST && q.fullScope)
  }

  /** An allowlisted client meets the limiter exactly when the scope is not full, any other exactly when
      reputation lets it through. */
  lemma MailLimitReachedIff(q: MailAuth)
    requires q.judged
    ensures q.verdict.code == None && q.verdict.reason == ALLOWLIST ==> (MailReachesLimit(q) <==> !q.fullScope)
    ensures q.verdict.reason != ALLOWLIST ==> (MailReachesLimit(q) <==> q.verdict.code == None)
    ensures q.verdict.code.Some? ==> !MailReachesLimit(q)
  {
  }

  /** A request that cannot be judged gets the configured answer and never meets the limiter; another one
      gets through exactly when neither reputation nor the limiter stops it. */
  lemma MailAnswerMeans(q: MailAuth, failOpen: bool, busy: bool)
    ensures !q.judged ==> MailAnswer(q, failOpen, busy) == failOpen && !MailReachesLimit(q)
    ensures q.judged ==> (MailAnswer(q, failOpen, busy) <==> q.verdict.code == None && !MailLimited(q, busy))
  {
  }

  /** By how much one mail request raises a counter. */
  function MailRaise(env: Env, q: MailAuth, busy: bool, c: Counter): nat {
    if !env.statZone || !q.judged then 0
    else
      var allowed := q.verdict.code == None && !MailLimited(q, busy);
      match c
      case HttpRequests => 1
      case HttpAllowed => AsCount(allowed)
      case AllowlistHits => AsCount(allowed && q.verdict.reason == ALLOWLIST)
      case HttpBlocked(r) => AsCount(!allowed && r == if q.verdict.code.Some? then q.verdict.reason else RATE_LIMIT)
      case Resp(code) => AsCount(MailLimited(q, busy) && code == 429)
      case _ => 0
  }

  lemma MailCountsMean(env: Env, q: MailAuth, busy: bool, c: Counter)
    ensures multiset(MailProgram(env, q, busy))[c] == MailRaise(env, q, busy, c)
  {
    hide MailOutcome;
    if env.statZone && q.judged {
      TimesConcat([HttpRequests], MailOutcome(q, busy), c);
      TimesOne(HttpRequests, c);
      MailOutcomeTimes(q, busy, c);
    }
    TimesIs(MailProgram(env, q, busy), c);
  }

  lemma MailOutcomeTimes(q: MailAuth, busy: bool, c: Counter)
    requires q.judged
    ensures Times(MailOutcome(q, busy), c)
            == if q.verdict.code.Some? then AsCount(c == HttpBlocked(q.verdict.reason))
               else if MailLimited(q, busy) then AsCount(c == HttpBlocked(RATE_LIMIT)) + AsCount(c == Resp(429))
               else AsCount(c == HttpAllowed) + AsCount(c == AllowlistHits && q.verdict.reason == ALLOWLIST)
  {
    TimesOne(HttpBlocked(q.verdict.reason), c);
    PairTimes(HttpBlocked(RATE_LIMIT), Resp(429), c);
    PairTimes(HttpAllowed, AllowlistHits, c);
    TimesOne(HttpAllowed, c);
  }

  lemma PairTimes(x: Counter, y: Counter, c: Counter)
    ensures Times([x, y], c) == AsCount(c == x) + AsCount(c == y)
  {
    assert [x, y] == [x] + [y];
    TimesConcat([x], [y], c);
    TimesOne(x, c);
    TimesOne(y, c);
  }

  // ---- stream ----

  /** The limiter is asked about every connection reputation lets through, in detect mode about the others
      too, but never about an allowlisted one. */
  lemma StreamLimitReachedIff(q: Conn, mode: Mode)
    ensures q.verdict.reason == ALLOWLIST ==> !StreamReachesLimit(q, mode)
    ensures q.verdict.reason != ALLOWLIST ==> StreamReachesLimit(q, Detect)
    ensures q.verdict.reason != ALLOWLIST ==> (StreamReachesLimit(q, Enforce) <==> q.verdict.code == None)
  {
  }

  /** What stops a connection in enforce mode: reputation before the limiter. */
  function StreamStop(q: Conn, busy: bool): Option<Reason> {
    if q.verdict.code.Some? then Some(q.verdict.reason)
    else if busy && q.verdict.reason != ALLOWLIST then Some(RATE_LIMIT) else None
  }

  lemma StreamAnswerMeans(q: Conn, busy: bool)
    ensures StreamDeny(q, Detect, busy) == None && StreamDeny(q, Enforce, busy) == StreamStop(q, busy)
  {
  }

  /** By how much one connection raises a counter. */
  function StreamRaise(env: Env, q: Conn, mode: Mode, busy: bool, c: Counter): nat {
    if !env.statZone then 0
    else
      var denied := mode == Enforce && StreamStop(q, busy).Some?;
      match c
      case StreamConnections => 1
      case StreamAllowed => AsCount(!denied)
      case StreamDenied(r) => AsCount(denied && Some(r) == StreamStop(q, busy))
      case StreamWould(r) =>
        if mode == Enforce then 0
        else AsCount(q.verdict.code.Some? && r == q.verdict.reason)
             + AsCount(busy && q.verdict.reason != ALLOWLIST && r == RATE_LIMIT)
      case Country(cc, blocked) => AsCount(q.verdict.geoValid && cc == q.verdict.cc16 != 0 && blocked == denied)
      case _ => 0
  }

  lemma StreamCountsMean(env: Env, q: Conn, mode: Mode, busy: bool, c: Counter)
    ensures multiset(StreamProgram(env, q, mode, busy))[c] == StreamRaise(env, q, mode, busy, c)
  {
    hide StreamWoulds, StreamBumps, StreamDeny;
    if env.statZone {
      var deny := StreamDeny(q, mode, busy);
      TimesConcat(StreamWoulds(q, mode, busy), StreamBumps(q, deny), c);
      StreamAnswerMeans(q, busy);
      WouldTimes(q, mode, busy, c);
      ConnectionTimes(q, deny, c);
    }
    TimesIs(StreamProgram(env, q, mode, busy), c);
  }

  lemma WouldTimes(q: Conn, mode: Mode, busy: bool, c: Counter)
    ensures Times(StreamWoulds(q, mode, busy), c)
            == if mode == Enforce then 0
               else AsCount(q.verdict.code.Some? && c == StreamWould(q.verdict.reason))
                    + AsCount(busy && q.verdict.reason != ALLOWLIST && c == StreamWould(RATE_LIMIT))
  {
    var a := if mode == Detect && q.verdict.code.Some? then [StreamWould(q.verdict.reason)] else [];
    var b := if mode == Detect && StreamReachesLimit(q, mode) && busy then [StreamWould(RATE_LIMIT)] else [];
    TimesConcat(a, b, c);
    TimesOne(StreamWould(q.verdict.reason), c);
    TimesOne(StreamWould(RATE_LIMIT), c);
  }

  lemma ConnectionTimes(q: Conn, deny: Option<Reason>, c: Counter)
    ensures Times(StreamBumps(q, deny), c)
            == AsCount(c == StreamConnections) + AsCount(c == if deny.Some? then StreamDenied(deny.value) else StreamAllowed)
               + AsCount(q.verdict.geoValid && q.verdict.cc16 != 0 && c == Country(q.verdict.cc16, deny.Some?))
  {
    var outcome := if deny.Some? then StreamDenied(deny.value) else StreamAllowed;
    var country := if q.verdict.geoValid then CountryBump(q.verdict.cc16, deny.Some?) else [];
    TimesConcat([StreamConnections, outcome], country, c);
    PairTimes(StreamConnections, outcome, c);
    CountryTimes(q.verdict.cc16, deny.Some?, c);
    TimesOne(StreamConnections, c);
  }
}
