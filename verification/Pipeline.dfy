/** What the HTTP pipeline decides and counts, said once more as a list of stages and a table of counters. */
module Pipeline {
  import opened Wrappers
  import opened Segment
  import opened RateTable
  import opened Heads

  /** A block point: whether the request hits it, and the reason and status it blocks with. */
  datatype Stage = Stage(hit: bool, reason: nat, code: nat)

  function Lookup(result: Option<nat>, reason: nat): Stage {
    Stage(result.Some?, reason, if result.Some? then result.value else 0)
  }

  /** The block points in source order; `busy` is the rate limiter's answer. */
  function Stages(h: Hop, busy: bool): (s: seq<Stage>)
    ensures |s| == 12
  {
    [Lookup(h.verdict.code, h.verdict.reason),                       // reputation
     Stage(!h.methodOk, METHOD, 404),
     Stage(h.methodDenied, METHOD, 404),
     Stage(busy, RATE_LIMIT, 429),
     Stage(h.spoofBlock && h.spoofed, SPOOF, 403),
     Stage(h.botBlock && h.ua == 0, SCANNER_UA, 404),
     Stage(h.botBlock && h.ua == 5, EMPTY_UA, 404),
     Stage(h.fakeBot, FAKE_BOT, 403),
     Lookup(h.scanner, SCANNER_PATH),
     Lookup(h.args, ARGS),
     Lookup(h.cookie, COOKIE),
     Lookup(h.referer, REFERER)]
  }

  /** Stage i is the first the request hits. */
  predicate FirstHit(s: seq<Stage>, i: nat) {
    i < |s| && s[i].hit && forall j :: 0 <= j < i ==> !s[j].hit
  }

  /** An allowlisted client under full scope skips every stage after reputation. */
  predicate Exempt(h: Hop) {
    h.verdict.code == None && h.verdict.reason == ALLOWLIST && h.fullScope
  }

  /** The stage that blocks, if any. */
  function BlockedAt(h: Hop, busy: bool): (b: Option<nat>)
    ensures b.Some? ==> !Exempt(h) && FirstHit(Stages(h, busy), b.value)
    ensures b.None? ==> Exempt(h) || forall i :: 0 <= i < 12 ==> !Stages(h, busy)[i].hit
  {
    if Exempt(h) then None else First(Stages(h, busy), 0)
  }

  function First(s: seq<Stage>, i: nat): (b: Option<nat>)
    requires i <= |s| && forall j :: 0 <= j < i ==> !s[j].hit
    ensures b.Some? ==> FirstHit(s, b.value)
    ensures b.None? ==> forall j :: 0 <= j < |s| ==> !s[j].hit
    decreases |s| - i
  {
    if i == |s| then None else if s[i].hit then Some(i) else First(s, i + 1)
  }

  lemma FirstIs(s: seq<Stage>, i: nat, j: nat)
    requires FirstHit(s, i) && FirstHit(s, j)
    ensures i == j
  {
  }

  /** The decision is the blocking stage's. */
  lemma DecisionIs(h: Hop, busy: bool)
    ensures var d, b := Decide(h, busy), BlockedAt(h, busy);
            && (d.block.None? <==> b.None?)
            && (b.Some? ==> d.block.value.reason == Stages(h, busy)[b.value].reason
                            && d.block.value.code == Stages(h, busy)[b.value].code)
            && (d.classified <==> !Exempt(h) && (b.None? || b.value >= 4))
  {
    hide First, FlagBumps, Signature;
    var s, b := Stages(h, busy), BlockedAt(h, busy);
    assert s[0].hit <==> h.verdict.code.Some?;
    assert b.Some? ==> s[b.value].hit && forall j :: 0 <= j < b.value ==> !s[j].hit;
    assert s[1].hit == !h.methodOk && s[2].hit == h.methodDenied && s[3].hit == busy;
    if Decide(h, busy).classified {
      assert b.Some? ==> b.value >= 4;
      SignatureIs(h, busy, b);
    }
  }

  /** The eight stages after the limiter. */
  lemma SignatureIs(h: Hop, busy: bool, b: Option<nat>)
    requires if b.Some? then b.value >= 4 && FirstHit(Stages(h, busy), b.value)
             else forall i :: 4 <= i < 12 ==> !Stages(h, busy)[i].hit
    ensures Signature(h).None? <==> b.None?
    ensures b.Some? ==> Signature(h).value.reason == Stages(h, busy)[b.value].reason
                        && Signature(h).value.code == Stages(h, busy)[b.value].code
  {
    var s := Stages(h, busy);
    assert s[4].hit == (h.spoofBlock && h.spoofed) && s[5].hit == (h.botBlock && h.ua == 0) && s[6].hit == (h.botBlock && h.ua == 5);
    assert s[7].hit == h.fakeBot && s[8].hit == h.scanner.Some? && s[9].hit == h.args.Some?;
    assert s[10].hit == h.cookie.Some? && s[11].hit == h.referer.Some?;
  }

  /** In enforce mode the request gets through exactly when its client is exempt or no stage hits, and
      otherwise gets the status of the first that does; in detect mode every request gets through. */
  lemma AnswerMeans(h: Hop, busy: bool)
    ensures HttpAnswer(h, Detect, busy) == None
    ensures HttpAnswer(h, Enforce, busy) == None <==>
              Exempt(h) || forall i :: 0 <= i < 12 ==> !Stages(h, busy)[i].hit
    ensures forall i: nat :: FirstHit(Stages(h, busy), i) && !Exempt(h) ==>
              HttpAnswer(h, Enforce, busy) == Some(Stages(h, busy)[i].code)
  {
    hide Stages, First, Decide;
    DecisionIs(h, busy);
    forall i: nat | FirstHit(Stages(h, busy), i) && !Exempt(h)
      ensures HttpAnswer(h, Enforce, busy) == Some(Stages(h, busy)[i].code)
    {
      FirstIs(Stages(h, busy), i, BlockedAt(h, busy).value);
    }
  }

  /** The request meets the rate limiter exactly when its client is not exempt and neither reputation nor
      its method blocks it. */
  lemma LimitReachedIff(h: Hop)
    ensures ReachesLimit(h) <==> !Exempt(h) && forall i :: 0 <= i < 3 ==> !Stages(h, false)[i].hit
  {
    var s := Stages(h, false);
    assert s[0].hit == h.verdict.code.Some? && s[1].hit == !h.methodOk && s[2].hit == h.methodDenied;
  }

  /** The limiter answers only for a request that meets it, under a rule and with a zone; then it is one
      call for the client's key. */
  lemma LimitMeans(env: Env, t: Table, l: Limit, reached: bool, clock: nat)
    requires Shape(t)
    ensures var r := LimitStep(env, t, l, reached, clock);
            && (r.table != t || r.verdict == Busy ==> reached && env.rateZone && l.rule.Some?)
            && (reached && env.rateZone ==> forall rule :: l.rule == Some(rule) ==> r == RateCheck(t, l.key, clock, rule))
  {
    hide RateCheck;
  }

  // ---- the table of counters ----

  /** The vhost's slot: its own number, 0 for an unknown one, if the segment has it. */
  predicate OwnVhost(env: Env, h: Hop, v: nat) {
    v == (if h.vhost < env.confVhosts then h.vhost else 0) && v < env.shmVhosts
  }

  function AsCount(b: bool): nat {
    if b then 1 else 0
  }

  /** By how much one pass of a request raises a counter. */
  function Raise(env: Env, h: Hop, mode: Mode, busy: bool, c: Counter): nat {
    if !env.statZone || h.internal then 0
    else
      var b := BlockedAt(h, busy);
      var stage := if b.Some? then Stages(h, busy)[b.value] else Stage(false, 0, 0);
      var refused := b.Some? && mode == Enforce;
      var classified := !Exempt(h) && (b.None? || b.value >= 4);
      match c
      case HttpRequests => 1
      case HttpAllowed => AsCount(!refused)
      case AllowlistHits => AsCount(b.None? && h.verdict.reason == ALLOWLIST)
      case HttpBlocked(r) => AsCount(refused && r == stage.reason)
      case HttpWould(r) => AsCount(b.Some? && mode == Detect && r == stage.reason)
      case Resp(code) => AsCount(refused && code == stage.code && code in {403, 404, 444, 429})
      case ScannerPath(code) => AsCount(refused && b.value == 8 && code == stage.code && code in {403, 404, 444})
      case FlagBlocked(f) => if refused && b.value == 0 && h.verdict.reason == FLAG then multiset(h.verdict.flags)[f] else 0
      case Ua(u) => AsCount(classified && u == h.ua && u < 6)
      case UaCategory(g) => AsCount(classified && g == h.category && g < 10)
      case UaSpoofed => AsCount(classified && h.spoofed)
      case VhostRequests(v) => AsCount(OwnVhost(env, h, v))
      case VhostAllowed(v) => AsCount(OwnVhost(env, h, v) && !refused)
      case VhostBlocked(v, r) => AsCount(OwnVhost(env, h, v) && refused && r == stage.reason)
      case Country(cc, blocked) =>
        AsCount(cc == h.verdict.cc16 != 0 && blocked == refused && (b.Some? || h.verdict.geoValid))
      case _ => 0
  }

  function Times(ops: seq<Counter>, c: Counter): nat {
    multiset(ops)[c]
  }

  lemma TimesConcat(a: seq<Counter>, b: seq<Counter>, c: Counter)
    ensures Times(a + b, c) == Times(a, c) + Times(b, c)
  {
  }

  lemma TimesOne(x: Counter, c: Counter)
    ensures Times([x], c) == (if x == c then 1 else 0) && Times([], c) == 0
  {
  }

  lemma EntryTimes(env: Env, h: Hop, c: Counter)
    ensures Times(EntryBumps(env, h), c)
         == AsCount(c == HttpRequests) + AsCount(c.VhostRequests? && OwnVhost(env, h, c.v))
  {
    TimesConcat([HttpRequests], VhostRequestBump(env, h), c);
    TimesOne(HttpRequests, c);
    VhostTimes(env, h, c);
  }

  lemma VhostTimes(env: Env, h: Hop, c: Counter)
    ensures Times(VhostRequestBump(env, h), c) == AsCount(c.VhostRequests? && OwnVhost(env, h, c.v))
    ensures Times(VhostAllowBump(env, h), c) == AsCount(c.VhostAllowed? && OwnVhost(env, h, c.v))
    ensures forall r: Reason :: Times(VhostBlockBump(env, h, r), c) == AsCount(c.VhostBlocked? && c.r == r && OwnVhost(env, h, c.v))
  {
    var slot := VhostSlot(env, h.vhost);
    if slot.Some? {
      TimesOne(VhostRequests(slot.value), c);
      TimesOne(VhostAllowed(slot.value), c);
      forall r: Reason { TimesOne(VhostBlocked(slot.value, r), c); }
    } else {
      TimesOne(HttpRequests, c);
    }
  }

  lemma CountryTimes(cc16: nat, blocked: bool, c: Counter)
    ensures Times(CountryBump(cc16, blocked), c) == AsCount(cc16 != 0 && c == Country(cc16, blocked))
  {
    TimesOne(Country(cc16, blocked), c);
  }

  lemma RespTimes(code: nat, c: Counter)
    ensures Times(RespBump(code), c) == AsCount(code in {403, 404, 444, 429} && c == Resp(code))
  {
    TimesOne(Resp(code), c);
  }

  lemma {:induction false} FlagTimes(flags: seq<nat>, c: Counter)
    ensures Times(FlagBumps(flags), c) == if c.FlagBlocked? then multiset(flags)[c.flag] else 0
  {
    if flags == [] {
      TimesOne(UaSpoofed, c);
    } else {
      FlagTimes(flags[1..], c);
      TimesConcat([FlagBlocked(flags[0])], FlagBumps(flags[1..]), c);
      TimesOne(FlagBlocked(flags[0]), c);
      assert flags == [flags[0]] + flags[1..];
    }
  }

  lemma AgentTimes(h: Hop, c: Counter)
    ensures Times(UaBumps(h), c) == AsCount(c == Ua(h.ua) && h.ua < 6) + AsCount(c == UaCategory(h.category) && h.category < 10)
                                    + AsCount(c == UaSpoofed && h.spoofed)
  {
    var a := if h.ua < UA_MAX then [Ua(h.ua)] else [];
    var b := if h.category < CAT_MAX then [UaCategory(h.category)] else [];
    var d := if h.spoofed then [UaSpoofed] else [];
    TimesConcat(a + b, d, c);
    TimesConcat(a, b, c);
    TimesOne(Ua(h.ua), c);
    TimesOne(UaCategory(h.category), c);
    TimesOne(UaSpoofed, c);
  }

  lemma AllowTimes(env: Env, h: Hop, c: Counter)
    ensures Times(AllowBumps(env, h), c)
         == AsCount(c == HttpAllowed) + AsCount(c == AllowlistHits && h.verdict.reason == ALLOWLIST)
            + AsCount(c.VhostAllowed? && OwnVhost(env, h, c.v))
            + AsCount(h.verdict.geoValid && h.verdict.cc16 != 0 && c == Country(h.verdict.cc16, false))
  {
    hide VhostAllowBump, CountryBump, OwnVhost;
    var a := if h.verdict.reason == ALLOWLIST then [AllowlistHits] else [];
    var d := if h.verdict.geoValid then CountryBump(h.verdict.cc16, false) else [];
    TimesConcat([HttpAllowed] + a + VhostAllowBump(env, h), d, c);
    TimesConcat([HttpAllowed] + a, VhostAllowBump(env, h), c);
    TimesConcat([HttpAllowed], a, c);
    TimesOne(HttpAllowed, c);
    TimesOne(AllowlistHits, c);
    VhostTimes(env, h, c);
    CountryTimes(h.verdict.cc16, false, c);
  }

  lemma FinalTimes(env: Env, h: Hop, mode: Mode, reason: Reason, code: nat, c: Counter)
    ensures Times(FinalBumps(env, h, mode, reason, code), c)
         == AsCount(c == if mode == Detect then HttpWould(reason) else HttpBlocked(reason))
            + AsCount(mode == Detect && c == HttpAllowed)
            + AsCount(mode == Enforce && code in {403, 404, 444, 429} && c == Resp(code))
            + AsCount(mode == Detect && c.VhostAllowed? && OwnVhost(env, h, c.v))
            + AsCount(mode == Enforce && c.VhostBlocked? && c.r == reason && OwnVhost(env, h, c.v))
            + AsCount(h.verdict.cc16 != 0 && c == Country(h.verdict.cc16, mode == Enforce))
  {
    hide VhostAllowBump, VhostBlockBump, CountryBump, RespBump, OwnVhost;
    VhostTimes(env, h, c);
    CountryTimes(h.verdict.cc16, mode == Enforce, c);
    RespTimes(code, c);
    if mode == Detect {
      TimesConcat([HttpWould(reason), HttpAllowed] + VhostAllowBump(env, h), CountryBump(h.verdict.cc16, false), c);
      TimesConcat([HttpWould(reason), HttpAllowed], VhostAllowBump(env, h), c);
      TimesConcat([HttpWould(reason)], [HttpAllowed], c);
      assert [HttpWould(reason)] + [HttpAllowed] == [HttpWould(reason), HttpAllowed];
      TimesOne(HttpWould(reason), c);
      TimesOne(HttpAllowed, c);
    } else {
      TimesConcat([HttpBlocked(reason)] + RespBump(code) + VhostBlockBump(env, h, reason), CountryBump(h.verdict.cc16, true), c);
      TimesConcat([HttpBlocked(reason)] + RespBump(code), VhostBlockBump(env, h, reason), c);
      TimesConcat([HttpBlocked(reason)], RespBump(code), c);
      TimesOne(HttpBlocked(reason), c);
    }
  }

  /** The bumps some block points add. */
  lemma ExtraTimes(h: Hop, busy: bool, c: Counter)
    requires Decide(h, busy).block.Some?
    ensures var b := BlockedAt(h, busy);
            b.Some? && Times(Decide(h, busy).block.value.extra, c)
                       == if c.FlagBlocked? && b.value == 0 && h.verdict.reason == FLAG then multiset(h.verdict.flags)[c.flag]
                          else AsCount(c.ScannerPath? && b.value == 8 && c.code == Stages(h, busy)[8].code && c.code in {403, 404, 444})
  {
    DecisionIs(h, busy);
    FlagTimes(h.verdict.flags, c);
    TimesOne(UaSpoofed, c);
    if h.scanner.Some? {
      TimesOne(ScannerPath(h.scanner.value), c);
    }
  }

  lemma OutcomeTimes(env: Env, h: Hop, mode: Mode, busy: bool, c: Counter)
    ensures var b := Decide(h, busy).block;
            Times(OutcomeBumps(env, h, mode, b), c)
            == if b.None? then Times(AllowBumps(env, h), c)
               else Times(FinalBumps(env, h, mode, b.value.reason, b.value.code), c)
                    + if mode == Detect then 0 else Times(b.value.extra, c)
  {
    hide FinalBumps, AllowBumps, Decide;
    var b := Decide(h, busy).block;
    if b.Some? {
      var extra := if mode == Detect then [] else b.value.extra;
      TimesConcat(FinalBumps(env, h, mode, b.value.reason, b.value.code), extra, c);
      TimesOne(UaSpoofed, c);
    }
  }

  lemma ProgramTimes(env: Env, h: Hop, mode: Mode, busy: bool, c: Counter)
    requires Counted(env, h)
    ensures var d := Decide(h, busy);
            Times(HttpProgram(env, h, mode, busy), c)
            == Times(EntryBumps(env, h), c) + (if d.classified then Times(UaBumps(h), c) else 0)
               + Times(OutcomeBumps(env, h, mode, d.block), c)
  {
    hide EntryBumps, UaBumps, OutcomeBumps, Decide;
    var d := Decide(h, busy);
    TimesConcat(EntryBumps(env, h), JudgeBumps(env, h, mode, busy), c);
    TimesConcat(UaBumps(h), OutcomeBumps(env, h, mode, d.block), c);
  }

  lemma BlockTimes(env: Env, h: Hop, mode: Mode, busy: bool, c: Counter)
    requires Counted(env, h) && BlockedAt(h, busy).Some?
    ensures var b := Decide(h, busy).block;
            b.Some? && (if Decide(h, busy).classified then Times(UaBumps(h), c) else 0) + Times(EntryBumps(env, h), c)
                       + Times(FinalBumps(env, h, mode, b.value.reason, b.value.code), c)
                       + (if mode == Detect then 0 else Times(b.value.extra, c))
                       == Raise(env, h, mode, busy, c)
  {
    hide EntryBumps, UaBumps, FinalBumps, Decide, Stages, BlockedAt, OwnVhost, Times;
    DecisionIs(h, busy);
    EntryTimes(env, h, c);
    AgentTimes(h, c);
    var b := Decide(h, busy).block;
    FinalTimes(env, h, mode, b.value.reason, b.value.code, c);
    ExtraTimes(h, busy, c);
    ScannerStage(h, busy);
  }

  lemma PassTimes(env: Env, h: Hop, mode: Mode, busy: bool, c: Counter)
    requires Counted(env, h) && BlockedAt(h, busy).None?
    ensures (if Decide(h, busy).classified then Times(UaBumps(h), c) else 0) + Times(EntryBumps(env, h), c)
            + Times(AllowBumps(env, h), c) == Raise(env, h, mode, busy, c)
  {
    hide EntryBumps, UaBumps, AllowBumps, Decide, Stages, BlockedAt, OwnVhost, Times;
    DecisionIs(h, busy);
    EntryTimes(env, h, c);
    AgentTimes(h, c);
    AllowTimes(env, h, c);
  }

  /** The counters of one pass, one and all. */
  lemma CountsMean(env: Env, h: Hop, mode: Mode, busy: bool, c: Counter)
    ensures multiset(HttpProgram(env, h, mode, busy))[c] == Raise(env, h, mode, busy, c)
  {
    hide EntryBumps, UaBumps, OutcomeBumps, FinalBumps, AllowBumps, Decide, Stages, BlockedAt, OwnVhost, HttpProgram, Times;
    if Counted(env, h) {
      DecisionIs(h, busy);
      ProgramTimes(env, h, mode, busy, c);
      OutcomeTimes(env, h, mode, busy, c);
      if BlockedAt(h, busy).Some? {
        BlockTimes(env, h, mode, busy, c);
      } else {
        PassTimes(env, h, mode, busy, c);
      }
    } else {
      NothingCounted(env, h, mode, busy, c);
    }
    TimesIs(HttpProgram(env, h, mode, busy), c);
  }

  lemma ScannerStage(h: Hop, busy: bool)
    ensures BlockedAt(h, busy) == Some(8) ==> Stages(h, busy)[8].reason == SCANNER_PATH
  {
  }

  lemma TimesIs(ops: seq<Counter>, c: Counter)
    ensures Times(ops, c) == multiset(ops)[c]
  {
  }

  lemma NothingCounted(env: Env, h: Hop, mode: Mode, busy: bool, c: Counter)
    requires !Counted(env, h)
    ensures Times(HttpProgram(env, h, mode, busy), c) == 0
  {
    TimesOne(UaSpoofed, c);
  }
}
