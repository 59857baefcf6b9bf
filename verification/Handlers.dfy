/** The three handlers as they run: counters bumped one by one along an early-return pipeline,
    proved against the programs of Heads. */
module Handlers {
  import opened Wrappers
  import opened Segment
  import opened RateTable
  import opened Heads

  class Waf {
    const env: Env
    const zone: RateZone?
    var counts: Counts
    ghost var log: seq<Counter>      // the bumps so far, in order

    ghost predicate Sound()
      reads this
    {
      counts == multiset(log)
    }

    ghost predicate Valid()
      reads this, zone, if zone == null then {} else {zone.keys, zone.words}
    {
      Sound() && env.rateZone == (zone != null) && (zone != null ==> zone.Valid())
    }

    /** The rate table, or an unused one when there is no zone. */
    ghost function Limits(): Table
      reads this, zone, if zone == null then {} else {zone.keys, zone.words}
    {
      if zone == null then Empty(MIN_SLOTS) else zone.Contents()
    }

    constructor (env: Env, zone: RateZone?)
      requires env.rateZone == (zone != null) && (zone != null ==> zone.Valid())
      ensures this.env == env && this.zone == zone && Valid() && counts == multiset{} && log == []
    {
      this.env := env;
      this.zone := zone;
      counts, log := multiset{}, [];
    }

    method Bump(c: Counter)
      requires Sound()
      modifies `counts, `log
      ensures Sound()
      ensures log == old(log) + [c]
    {
      counts, log := counts + multiset{c}, log + [c];
    }

    method CountCountry(cc16: nat, blocked: bool)
      requires Sound()
      modifies `counts, `log
      ensures Sound()
      ensures log == old(log) + CountryBump(cc16, blocked)
    {
      if cc16 != 0 {
        Bump(Country(cc16, blocked));
      }
    }

    /** The request counters, before any verdict. */
    method Enter(h: Hop)
      requires Sound()
      modifies `counts, `log
      ensures Sound()
      ensures log == old(log) + EntryBumps(env, h)
    {
      Bump(HttpRequests);
      var idx := if h.vhost < env.confVhosts then h.vhost else 0;
      if idx < env.shmVhosts {
        Bump(VhostRequests(idx));
      }
    }

    method CountResponse(code: nat)
      requires Sound()
      modifies `counts, `log
      ensures Sound()
      ensures log == old(log) + RespBump(code)
    {
      if code == FORBIDDEN || code == NOT_FOUND || code == CLOSE || code == TOO_MANY {
        Bump(Resp(code));
      }
    }

    method CountVhostAllowed(h: Hop)
      requires Sound()
      modifies `counts, `log
      ensures Sound() && log == old(log) + VhostAllowBump(env, h)
    {
      var idx := if h.vhost < env.confVhosts then h.vhost else 0;
      if idx < env.shmVhosts {
        Bump(VhostAllowed(idx));
      }
    }

    method CountVhostBlocked(h: Hop, reason: Reason)
      requires Sound()
      modifies `counts, `log
      ensures Sound() && log == old(log) + VhostBlockBump(env, h, reason)
    {
      var idx := if h.vhost < env.confVhosts then h.vhost else 0;
      if idx < env.shmVhosts {
        Bump(VhostBlocked(idx, reason));
      }
    }

    /** stat_http_block on a live segment. */
    method CountBlock(h: Hop, reason: Reason, code: nat)
      requires Sound()
      modifies `counts, `log
      ensures Sound() && log == old(log) + ([HttpBlocked(reason)] + RespBump(code) + VhostBlockBump(env, h, reason))
    {
      hide RespBump, VhostBlockBump;
      Bump(HttpBlocked(reason));
      CountResponse(code);
      CountVhostBlocked(h, reason);
    }

    /** The detect arm of finalize_decision on a live segment. */
    method CountWould(h: Hop, reason: Reason)
      requires Sound()
      modifies `counts, `log
      ensures Sound() && log == old(log) + FinalBumps(env, h, Detect, reason, 0)
    {
      hide VhostAllowBump, CountryBump;
      Bump(HttpWould(reason));
      Bump(HttpAllowed);
      assert log == old(log) + [HttpWould(reason), HttpAllowed];
      CountVhostAllowed(h);
      CountCountry(h.verdict.cc16, false);
    }

    /** finalize_decision: None means the caller lets the request through. */
    method Finalize(h: Hop, mode: Mode, reason: Reason, code: nat) returns (rc: Option<nat>)
      requires Sound()
      modifies `counts, `log
      ensures Sound()
      ensures rc == if mode == Detect then None else Some(code)
      ensures log == old(log) + if Counted(env, h) then FinalBumps(env, h, mode, reason, code) else []
    {
      hide VhostAllowBump, VhostBlockBump, RespBump, CountryBump;
      var count := env.statZone && !h.internal;
      if mode == Detect {
        if count {
          CountWould(h, reason);
        }
        return None;
      }
      if count {
        CountBlock(h, reason, code);
        CountCountry(h.verdict.cc16, true);
      }
      return Some(code);
    }

    method CountAgent(h: Hop)
      requires Sound()
      modifies `counts, `log
      ensures Sound()
      ensures log == old(log) + UaBumps(h)
    {
      if h.ua < UA_MAX {
        Bump(Ua(h.ua));
      }
      if h.category < CAT_MAX {
        Bump(UaCategory(h.category));
      }
      if h.spoofed {
        Bump(UaSpoofed);
      }
    }

    method CountFlags(flags: seq<nat>)
      requires Sound()
      modifies `counts, `log
      ensures Sound()
      ensures log == old(log) + FlagBumps(flags)
    {
      var k := 0;
      assert flags[0..] == flags;
      while k < |flags|
        invariant 0 <= k <= |flags|
        invariant Sound() && log + FlagBumps(flags[k..]) == old(log) + FlagBumps(flags)
      {
        assert flags[k..][1..] == flags[k + 1..];
        Bump(FlagBlocked(flags[k]));
        k := k + 1;
      }
    }

    method Allow(h: Hop)
      requires Sound()
      modifies `counts, `log
      ensures Sound()
      ensures log == old(log) + AllowBumps(env, h)
    {
      hide VhostAllowBump, CountryBump;
      Bump(HttpAllowed);
      if h.verdict.reason == ALLOWLIST {
        Bump(AllowlistHits);
      }
      CountVhostAllowed(h);
      if h.verdict.geoValid {
        CountCountry(h.verdict.cc16, false);
      }
    }

    /** The rate stage: NGX_BUSY only from a live table under a rule. */
    method OverLimit(l: Limit, clock: nat) returns (busy: bool)
      requires Valid()
      modifies zone, if zone == null then {} else {zone.keys, zone.words}
      ensures Valid()
      ensures var r := LimitStep(env, old(Limits()), l, true, clock);
              Limits() == r.table && busy == (r.verdict == Busy)
    {
      if zone == null || l.rule.None? {
        return false;
      }
      var v := zone.Check(l.key, clock, l.rule.value);
      return v == Busy;
    }

    /** The stages after the rate limit: every branch that hits goes through the finalizer. */
    method Filter(h: Hop, mode: Mode) returns (rc: Option<nat>)
      requires Sound()
      modifies `counts, `log
      ensures Sound()
      ensures rc == Answer(mode, Signature(h))
      ensures log == old(log) + if Counted(env, h) then OutcomeBumps(env, h, mode, Signature(h)) else []
    {
      hide FinalBumps, AllowBumps;
      var count := env.statZone && !h.internal;
      if h.spoofBlock && h.spoofed {
        rc := Finalize(h, mode, SPOOF, FORBIDDEN);
        return;
      }
      if h.botBlock && (h.ua == UA_SCANNER || h.ua == UA_EMPTY) {
        rc := Finalize(h, mode, if h.ua == UA_SCANNER then SCANNER_UA else EMPTY_UA, NOT_FOUND);
        return;
      }
      if h.fakeBot {
        rc := Finalize(h, mode, FAKE_BOT, FORBIDDEN);
        return;
      }
      if h.scanner.Some? {
        rc := Finalize(h, mode, SCANNER_PATH, h.scanner.value);
        if rc.Some? && count && h.scanner.value in {NOT_FOUND, FORBIDDEN, CLOSE} {
          Bump(ScannerPath(h.scanner.value));
        }
        return;
      }
      if h.args.Some? {
        rc := Finalize(h, mode, ARGS, h.args.value);
        return;
      }
      if h.cookie.Some? {
        rc := Finalize(h, mode, COOKIE, h.cookie.value);
        return;
      }
      if h.referer.Some? {
        rc := Finalize(h, mode, REFERER, h.referer.value);
        return;
      }
      if count {
        Allow(h);
      }
      return None;
    }

    /** The reputation stage's block point. */
    method Deny(h: Hop, mode: Mode) returns (rc: Option<nat>)
      requires Sound() && h.verdict.code.Some?
      modifies `counts, `log
      ensures Sound()
      ensures rc == HttpAnswer(h, mode, false)
      ensures log == old(log) + if Counted(env, h) then JudgeBumps(env, h, mode, false) else []
    {
      hide FinalBumps, FlagBumps;
      rc := Finalize(h, mode, h.verdict.reason, h.verdict.code.value);
      if rc.Some? && env.statZone && !h.internal && h.verdict.reason == FLAG {
        CountFlags(h.verdict.flags);
      }
    }

    /** The rate stage and what follows it. */
    method Limited(h: Hop, mode: Mode, clock: nat) returns (rc: Option<nat>)
      requires Valid() && ReachesLimit(h)
      modifies `counts, `log, zone, if zone == null then {} else {zone.keys, zone.words}
      ensures Valid()
      ensures var r := LimitStep(env, old(Limits()), h.limit, true, clock);
              && Limits() == r.table
              && rc == HttpAnswer(h, mode, r.verdict == Busy)
              && log == old(log) + if Counted(env, h) then JudgeBumps(env, h, mode, r.verdict == Busy) else []
    {
      hide FinalBumps, UaBumps, Signature, OutcomeBumps, LimitStep, JudgeBumps, HttpAnswer;
      var busy := OverLimit(h.limit, clock);
      LimitedIs(h, mode, busy);
      if busy {
        rc := Finalize(h, mode, RATE_LIMIT, TOO_MANY);
        return;
      }
      if env.statZone && !h.internal {
        CountAgent(h);
      }
      rc := Filter(h, mode);
    }

    lemma LimitedIs(h: Hop, mode: Mode, busy: bool)
      requires ReachesLimit(h)
      ensures HttpAnswer(h, mode, busy) == if !busy then Answer(mode, Signature(h)) else if mode == Detect then None else Some(TOO_MANY)
      ensures JudgeBumps(env, h, mode, busy)
           == if busy then FinalBumps(env, h, mode, RATE_LIMIT, TOO_MANY) else UaBumps(h) + OutcomeBumps(env, h, mode, Signature(h))
    {
      hide FinalBumps, UaBumps, Signature;
      BlockIs(h, mode, RATE_LIMIT, TOO_MANY);
    }

    lemma UnlimitedIs(h: Hop, mode: Mode, busy: bool)
      requires h.verdict.code.None? && !ReachesLimit(h)
      ensures HttpAnswer(h, mode, busy) == if Bypassed(h) || mode == Detect then None else Some(NOT_FOUND)
      ensures JudgeBumps(env, h, mode, busy)
           == if Bypassed(h) then AllowBumps(env, h) else FinalBumps(env, h, mode, METHOD, NOT_FOUND)
    {
      hide FinalBumps, AllowBumps;
      BlockIs(h, mode, METHOD, NOT_FOUND);
    }

    /** A block point without bumps of its own. */
    lemma BlockIs(h: Hop, mode: Mode, reason: Reason, code: nat)
      ensures OutcomeBumps(env, h, mode, Some(Block(reason, code, []))) == FinalBumps(env, h, mode, reason, code)
    {
      hide FinalBumps;
    }

    /** preaccess_handler after the request counters. */
    method Judge(h: Hop, mode: Mode, clock: nat) returns (rc: Option<nat>)
      requires Valid()
      modifies `counts, `log, zone, if zone == null then {} else {zone.keys, zone.words}
      ensures Valid()
      ensures var r := LimitStep(env, old(Limits()), h.limit, ReachesLimit(h), clock);
              && Limits() == r.table
              && rc == HttpAnswer(h, mode, r.verdict == Busy)
              && log == old(log) + if Counted(env, h) then JudgeBumps(env, h, mode, r.verdict == Busy) else []
    {
      hide FinalBumps, AllowBumps, JudgeBumps, HttpAnswer, RateCheck, RateTable.Shape;
      if h.verdict.code.Some? {
        rc := Deny(h, mode);
        return;
      }
      if !ReachesLimit(h) {
        UnlimitedIs(h, mode, false);
      }
      if h.verdict.reason == ALLOWLIST && h.fullScope {
        if env.statZone && !h.internal {
          Allow(h);
        }
        return None;
      }
      if !h.methodOk {
        rc := Finalize(h, mode, METHOD, NOT_FOUND);
        return;
      }
      if h.methodDenied {
        rc := Finalize(h, mode, METHOD, NOT_FOUND);
        return;
      }
      rc := Limited(h, mode, clock);
    }

    /** preaccess_handler on a main request in detect or enforce mode. */
    method Preaccess(h: Hop, mode: Mode, clock: nat) returns (rc: Option<nat>)
      requires Valid()
      modifies `counts, `log, zone, if zone == null then {} else {zone.keys, zone.words}
      ensures Valid()
      ensures var r := LimitStep(env, old(Limits()), h.limit, ReachesLimit(h), clock);
              && Limits() == r.table
              && rc == HttpAnswer(h, mode, r.verdict == Busy)
              && log == old(log) + HttpProgram(env, h, mode, r.verdict == Busy)
    {
      hide EntryBumps, JudgeBumps, LimitStep, HttpAnswer;
      if env.statZone && !h.internal {
        Enter(h);
      }
      rc := Judge(h, mode, clock);
    }

    /** authhttp_handler; the answer is whether the mail session may go on, `failOpen` the
        answer for a request that cannot be judged. */
    method MailAuthenticate(q: MailAuth, failOpen: bool, clock: nat) returns (allow: bool)
      requires Valid()
      modifies `counts, `log, zone, if zone == null then {} else {zone.keys, zone.words}
      ensures Valid()
      ensures var r := LimitStep(env, old(Limits()), q.limit, MailReachesLimit(q), clock);
              && Limits() == r.table
              && allow == MailAnswer(q, failOpen, r.verdict == Busy)
              && log == old(log) + MailProgram(env, q, r.verdict == Busy)
    {
      hide RateCheck, RateTable.Shape, MailOutcome;
      if !q.judged {
        return failOpen;
      }
      if env.statZone {
        Bump(HttpRequests);
      }
      allow := MailJudge(q, clock);
    }

    /** The verdict half of the mail handler: reputation, allowlist bypass, rate limit. */
    method MailJudge(q: MailAuth, clock: nat) returns (allow: bool)
      requires Valid() && q.judged
      modifies `counts, `log, zone, if zone == null then {} else {zone.keys, zone.words}
      ensures Valid()
      ensures var r := LimitStep(env, old(Limits()), q.limit, MailReachesLimit(q), clock);
              && Limits() == r.table
              && allow == MailAnswer(q, false, r.verdict == Busy)
              && log == old(log) + if env.statZone then MailOutcome(q, r.verdict == Busy) else []
    {
      hide RateCheck, RateTable.Shape;
      if q.verdict.code.Some? {
        if env.statZone {
          Bump(HttpBlocked(q.verdict.reason));
        }
        return false;
      }
      if !(q.verdict.reason == ALLOWLIST && q.fullScope) {
        var busy := OverLimit(q.limit, clock);
        if busy {
          if env.statZone {
            Bump(HttpBlocked(RATE_LIMIT));
            Bump(Resp(TOO_MANY));
          }
          return false;
        }
      }
      if env.statZone {
        Bump(HttpAllowed);
        if q.verdict.reason == ALLOWLIST {
          Bump(AllowlistHits);
        }
      }
      return true;
    }

    /** stat_stream_bump and the connection's country. */
    method CountConnection(q: Conn, denied: bool, reason: Reason)
      requires Sound()
      modifies `counts, `log
      ensures Sound()
      ensures log == old(log) + if env.statZone then StreamBumps(q, if denied then Some(reason) else None) else []
    {
      hide CountryBump;
      if env.statZone {
        Bump(StreamConnections);
        Bump(if denied then StreamDenied(reason) else StreamAllowed);
        if q.verdict.geoValid {
          CountCountry(q.verdict.cc16, denied);
        }
      }
    }

    /** A would-block of detect mode: stat_stream_would_block. */
    method CountStreamWould(reason: Reason)
      requires Sound()
      modifies `counts, `log
      ensures Sound() && log == old(log) + if env.statZone then [StreamWould(reason)] else []
    {
      if env.statZone {
        Bump(StreamWould(reason));
      }
    }

    /** The rate stage of the stream handler, on a connection not denied so far. */
    method StreamLimit(q: Conn, mode: Mode, clock: nat) returns (denied: bool)
      requires Valid()
      modifies `counts, `log, zone, if zone == null then {} else {zone.keys, zone.words}
      ensures Valid()
      ensures var r := LimitStep(env, old(Limits()), q.limit, q.verdict.reason != ALLOWLIST, clock);
              && Limits() == r.table
              && denied == (mode != Detect && r.verdict == Busy)
              && log == old(log) + if env.statZone && mode == Detect && r.verdict == Busy then [StreamWould(RATE_LIMIT)] else []
    {
      hide RateCheck, RateTable.Shape;
      if q.verdict.reason == ALLOWLIST {
        return false;
      }
      var busy := OverLimit(q.limit, clock);
      if busy && mode == Detect {
        CountStreamWould(RATE_LIMIT);
        return false;
      }
      return busy;
    }

    /** The verdict half of the stream handler: reputation, detect downgrade, rate limit. */
    method StreamJudge(q: Conn, mode: Mode, clock: nat) returns (denied: bool, reason: Reason)
      requires Valid()
      modifies `counts, `log, zone, if zone == null then {} else {zone.keys, zone.words}
      ensures Valid()
      ensures var r := LimitStep(env, old(Limits()), q.limit, StreamReachesLimit(q, mode), clock);
              && Limits() == r.table
              && (if denied then Some(reason) else None) == StreamDeny(q, mode, r.verdict == Busy)
              && log == old(log) + if env.statZone then StreamWoulds(q, mode, r.verdict == Busy) else []
    {
      hide RateCheck, RateTable.Shape;
      denied, reason := q.verdict.code.Some?, q.verdict.reason;
      if denied && mode == Detect {
        CountStreamWould(reason);
        denied := false;
      }
      if !denied {
        denied := StreamLimit(q, mode, clock);
        reason := if denied then RATE_LIMIT else reason;
      }
    }

    /** ngx_stream_heavybag_handler; the answer is whether the connection may go on. */
    method StreamAccess(q: Conn, mode: Mode, clock: nat) returns (allow: bool)
      requires Valid()
      modifies `counts, `log, zone, if zone == null then {} else {zone.keys, zone.words}
      ensures Valid()
      ensures var r := LimitStep(env, old(Limits()), q.limit, StreamReachesLimit(q, mode), clock);
              && Limits() == r.table
              && allow == StreamDeny(q, mode, r.verdict == Busy).None?
              && log == old(log) + StreamProgram(env, q, mode, r.verdict == Busy)
    {
      hide LimitStep, StreamWoulds, StreamBumps, StreamDeny;
      var denied, reason := StreamJudge(q, mode, clock);
      CountConnection(q, denied, reason);
      return !denied;
    }
  }
}
