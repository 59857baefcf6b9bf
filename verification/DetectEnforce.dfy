/** Detect mode predicts enforce mode: the same requests, run once in each mode. */
module DetectEnforce {
  import opened Wrappers
  import opened Segment
  import opened RateTable
  import opened Heads

  /** A request and the clock its rate stage reads. */
  datatype Timed = Timed(hop: Hop, clock: nat)

  datatype World = World(table: Table, counts: Counts)

  lemma LimitKeepsShape(env: Env, t: Table, l: Limit, reached: bool, clock: nat)
    requires Shape(t)
    ensures Shape(LimitStep(env, t, l, reached, clock).table)
  {
    if l.rule.Some? {
      StepKeepsShape(t, l.key, clock, l.rule.value);
    }
  }

  function StepHttp(env: Env, w: World, q: Timed, mode: Mode): (w': World)
    requires Shape(w.table)
    ensures Shape(w'.table)
  {
    LimitKeepsShape(env, w.table, q.hop.limit, ReachesLimit(q.hop), q.clock);
    var r := LimitStep(env, w.table, q.hop.limit, ReachesLimit(q.hop), q.clock);
    World(r.table, w.counts + multiset(HttpProgram(env, q.hop, mode, r.verdict == Busy)))
  }

  /** A sequential run of requests in one mode. */
  function RunHttp(env: Env, w: World, qs: seq<Timed>, mode: Mode): World
    requires Shape(w.table)
    decreases |qs|
  {
    if qs == [] then w else RunHttp(env, StepHttp(env, w, qs[0], mode), qs[1..], mode)
  }

  /** The counters the comparison is about. */
  predicate Relevant(c: Counter) {
    c.HttpWould? || c.HttpBlocked? || c.HttpAllowed?
  }

  predicate Irrelevant(ops: seq<Counter>) {
    forall i :: 0 <= i < |ops| ==> !Relevant(ops[i])
  }

  /** The relevant bumps of one counted request. */
  function Core(h: Hop, mode: Mode, busy: bool): seq<Counter> {
    match Decide(h, busy).block
    case None => [HttpAllowed]
    case Some(b) => if mode == Detect then [HttpWould(b.reason), HttpAllowed] else [HttpBlocked(b.reason)]
  }

  lemma DropIrrelevant(a: seq<Counter>, b: seq<Counter>, x: seq<Counter>, c: Counter)
    requires Irrelevant(a) && Irrelevant(b) && Relevant(c)
    ensures multiset(a + x + b)[c] == multiset(x)[c]
  {
    assert c !in a && c !in b;
  }

  lemma {:induction false} FlagsIrrelevant(flags: seq<nat>)
    ensures Irrelevant(FlagBumps(flags))
    decreases |flags|
  {
    if flags != [] {
      FlagsIrrelevant(flags[1..]);
    }
  }

  lemma ExtraIrrelevant(h: Hop, busy: bool)
    ensures Decide(h, busy).block.Some? ==> Irrelevant(Decide(h, busy).block.value.extra)
  {
    FlagsIrrelevant(h.verdict.flags);
  }

  /** Where the bumps of a finalized or allowed request lie. */
  lemma OutcomeCore(env: Env, h: Hop, mode: Mode, busy: bool, c: Counter)
    requires Relevant(c)
    ensures multiset(OutcomeBumps(env, h, mode, Decide(h, busy).block))[c] == multiset(Core(h, mode, busy))[c]
  {
    hide Decide, VhostAllowBump, VhostBlockBump, RespBump, CountryBump;
    TailsIrrelevant(env, h);
    ExtraIrrelevant(h, busy);
    match Decide(h, busy).block
    case None =>
      var tail := (if h.verdict.reason == ALLOWLIST then [AllowlistHits] else []) + VhostAllowBump(env, h)
                  + (if h.verdict.geoValid then CountryBump(h.verdict.cc16, false) else []);
      assert AllowBumps(env, h) == [] + [HttpAllowed] + tail;
      DropIrrelevant([], tail, [HttpAllowed], c);
    case Some(b) =>
      if mode == Detect {
        var tail := VhostAllowBump(env, h) + CountryBump(h.verdict.cc16, false);
        assert OutcomeBumps(env, h, mode, Some(b)) == [] + [HttpWould(b.reason), HttpAllowed] + tail;
        DropIrrelevant([], tail, [HttpWould(b.reason), HttpAllowed], c);
      } else {
        TailsIrrelevantBlock(env, h, b);
        var tail := RespBump(b.code) + VhostBlockBump(env, h, b.reason) + CountryBump(h.verdict.cc16, true) + b.extra;
        assert OutcomeBumps(env, h, mode, Some(b)) == [] + [HttpBlocked(b.reason)] + tail;
        DropIrrelevant([], tail, [HttpBlocked(b.reason)], c);
      }
  }

  lemma TailsIrrelevant(env: Env, h: Hop)
    ensures Irrelevant(VhostRequestBump(env, h)) && Irrelevant(VhostAllowBump(env, h)) && Irrelevant(UaBumps(h))
    ensures forall cc16, blocked :: Irrelevant(CountryBump(cc16, blocked))
  {
  }

  lemma TailsIrrelevantBlock(env: Env, h: Hop, b: Block)
    ensures Irrelevant(VhostBlockBump(env, h, b.reason)) && Irrelevant(RespBump(b.code))
  {
  }

  lemma ProgramCore(env: Env, h: Hop, mode: Mode, busy: bool, c: Counter)
    requires Relevant(c) && Counted(env, h)
    ensures multiset(HttpProgram(env, h, mode, busy))[c] == multiset(Core(h, mode, busy))[c]
  {
    hide Decide, OutcomeBumps, Core, UaBumps, VhostRequestBump;
    TailsIrrelevant(env, h);
    OutcomeCore(env, h, mode, busy, c);
    var out := OutcomeBumps(env, h, mode, Decide(h, busy).block);
    var head := EntryBumps(env, h) + if Decide(h, busy).classified then UaBumps(h) else [];
    assert HttpProgram(env, h, mode, busy) == head + out + [];
    DropIrrelevant(head, [], out, c);
  }

  /** What the detect counters say about the enforce counters. */
  ghost predicate Predicts(d: Counts, e: Counts) {
    && (forall r: Reason :: d[HttpWould(r)] == e[HttpBlocked(r)])
    && d[HttpAllowed] == e[HttpAllowed] + BlockedSum(e, Http, REASON_MAX)
  }

  lemma StepPredicts(env: Env, h: Hop, busy: bool, d: Counts, e: Counts)
    requires Predicts(d, e) && !h.internal
    ensures Predicts(d + multiset(HttpProgram(env, h, Detect, busy)), e + multiset(HttpProgram(env, h, Enforce, busy)))
  {
    hide HttpProgram, Decide;
    var pd, pe := multiset(HttpProgram(env, h, Detect, busy)), multiset(HttpProgram(env, h, Enforce, busy));
    if Counted(env, h) {
      var cd, ce := multiset(Core(h, Detect, busy)), multiset(Core(h, Enforce, busy));
      forall c: Counter | Relevant(c) ensures pd[c] == cd[c] && pe[c] == ce[c] {
        ProgramCore(env, h, Detect, busy, c);
        ProgramCore(env, h, Enforce, busy, c);
      }
      match Decide(h, busy).block
      case None =>
        BlockedSumAgree(e + pe, e, Http, REASON_MAX);
      case Some(b) =>
        BlockedSumAgree(e + pe, e + multiset{HttpBlocked(b.reason)}, Http, REASON_MAX);
        BlockedSumBump(e, Http, REASON_MAX, HttpBlocked(b.reason));
    } else {
      NotCounted(env, h, Detect, busy);
      NotCounted(env, h, Enforce, busy);
      assert d + multiset{} == d && e + multiset{} == e;
    }
  }

  lemma NotCounted(env: Env, h: Hop, mode: Mode, busy: bool)
    requires !Counted(env, h)
    ensures multiset(HttpProgram(env, h, mode, busy)) == multiset{}
  {
  }

  /** For any requests that are not internal redirects, on the same initial rate table and clock
      readings: the detect run ends with the enforce run's rate table, its would-block counters
      are the enforce run's blocked counters reason by reason, and it allows what the enforce
      run allows plus everything that run blocks. */
  lemma DetectPredictsEnforce(env: Env, t: Table, qs: seq<Timed>)
    requires Shape(t) && forall i :: 0 <= i < |qs| ==> !qs[i].hop.internal
    ensures var d := RunHttp(env, World(t, multiset{}), qs, Detect);
            var e := RunHttp(env, World(t, multiset{}), qs, Enforce);
            && d.table == e.table
            && (forall r: Reason :: d.counts[HttpWould(r)] == e.counts[HttpBlocked(r)])
            && d.counts[HttpAllowed] == e.counts[HttpAllowed] + BlockedSum(e.counts, Http, REASON_MAX)
  {
    EmptyBook(Http, REASON_MAX);
    RunsPredict(env, World(t, multiset{}), World(t, multiset{}), qs);
  }

  lemma {:induction false} RunsPredict(env: Env, d: World, e: World, qs: seq<Timed>)
    requires Shape(d.table) && d.table == e.table && Predicts(d.counts, e.counts)
    requires forall i :: 0 <= i < |qs| ==> !qs[i].hop.internal
    ensures RunHttp(env, d, qs, Detect).table == RunHttp(env, e, qs, Enforce).table
    ensures Predicts(RunHttp(env, d, qs, Detect).counts, RunHttp(env, e, qs, Enforce).counts)
    decreases |qs|
  {
    hide HttpProgram, LimitStep, Predicts, RateTable.Shape;
    if qs != [] {
      var r := LimitStep(env, d.table, qs[0].hop.limit, ReachesLimit(qs[0].hop), qs[0].clock);
      StepPredicts(env, qs[0].hop, r.verdict == Busy, d.counts, e.counts);
      RunsPredict(env, StepHttp(env, d, qs[0], Detect), StepHttp(env, e, qs[0], Enforce), qs[1..]);
    }
  }
}
