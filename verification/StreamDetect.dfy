/** The stream head run in both modes. Unlike the HTTP head, its detect mode sends a client that
    reputation would have denied on to the rate limiter. */
module StreamDetect {
  import opened Wrappers
  import opened Segment
  import opened RateBucket
  import opened RateTable
  import opened Heads
  import opened DetectEnforce

  datatype TimedConn = TimedConn(conn: Conn, clock: nat)

  function StepStream(env: Env, w: World, q: TimedConn, mode: Mode): (w': World)
    requires Shape(w.table)
    ensures Shape(w'.table)
  {
    var reached := StreamReachesLimit(q.conn, mode);
    LimitKeepsShape(env, w.table, q.conn.limit, reached, q.clock);
    var r := LimitStep(env, w.table, q.conn.limit, reached, q.clock);
    World(r.table, w.counts + multiset(StreamProgram(env, q.conn, mode, r.verdict == Busy)))
  }

  function RunStream(env: Env, w: World, qs: seq<TimedConn>, mode: Mode): World
    requires Shape(w.table)
    decreases |qs|
  {
    if qs == [] then w else RunStream(env, StepStream(env, w, qs[0], mode), qs[1..], mode)
  }

  /** Reputation denies the client, and the limiter would see it all the same in detect mode. */
  predicate SeenTwice(env: Env, q: Conn) {
    q.verdict.code.Some? && q.verdict.reason != ALLOWLIST && env.rateZone && q.limit.rule.Some?
  }

  ghost predicate Predicts(d: Counts, e: Counts) {
    && (forall r: Reason :: d[StreamWould(r)] == e[StreamDenied(r)])
    && d[StreamAllowed] == e[StreamAllowed] + BlockedSum(e, Stream, REASON_MAX)
  }

  /** The bumps the comparison is about; the rest of a program is irrelevant to it. */
  lemma ProgramWeighs(env: Env, q: Conn, mode: Mode, busy: bool, r: Reason)
    requires env.statZone
    ensures var m := multiset(StreamProgram(env, q, mode, busy)); var deny := StreamDeny(q, mode, busy);
            && m[StreamDenied(r)] == (if deny == Some(r) then 1 else 0)
            && m[StreamAllowed] == (if deny == None then 1 else 0)
            && m[StreamWould(r)] == multiset(StreamWoulds(q, mode, busy))[StreamWould(r)]
  {
    hide StreamWoulds, StreamDeny;
    WouldsOnly(q, mode, busy);
    var woulds, bumps := StreamWoulds(q, mode, busy), StreamBumps(q, StreamDeny(q, mode, busy));
    assert multiset(woulds + bumps) == multiset(woulds) + multiset(bumps);
    assert StreamDenied(r) !in woulds && StreamAllowed !in woulds;
  }

  lemma WouldsOnly(q: Conn, mode: Mode, busy: bool)
    ensures forall c :: c in StreamWoulds(q, mode, busy) ==> c.StreamWould?
  {
  }

  /** What one connection adds to the two runs: at most one would-block against the same denial. */
  lemma ProgramsMatch(env: Env, q: Conn, busyD: bool, busyE: bool, r: Reason)
    requires env.statZone
    requires (q.verdict.code.Some? ==> !busyD && !busyE) && (q.verdict.code.None? ==> busyD == busyE)
    ensures var pd := multiset(StreamProgram(env, q, Detect, busyD));
            var pe := multiset(StreamProgram(env, q, Enforce, busyE));
            var deny := StreamDeny(q, Enforce, busyE);
            && pd[StreamWould(r)] == pe[StreamDenied(r)] == (if deny == Some(r) then 1 else 0)
            && pd[StreamAllowed] == 1 && pe[StreamAllowed] == (if deny == None then 1 else 0)
  {
    hide StreamProgram;
    ProgramWeighs(env, q, Detect, busyD, r);
    ProgramWeighs(env, q, Enforce, busyE, r);
  }

  lemma BooksPredict(d: Counts, e: Counts, pd: Counts, pe: Counts, deny: Option<Reason>)
    requires Predicts(d, e)
    requires forall r: Reason :: pd[StreamWould(r)] == pe[StreamDenied(r)] == if deny == Some(r) then 1 else 0
    requires pd[StreamAllowed] == 1 && pe[StreamAllowed] == if deny == None then 1 else 0
    ensures Predicts(d + pd, e + pe)
  {
    match deny
    case None => BlockedSumAgree(e + pe, e, Stream, REASON_MAX);
    case Some(r) =>
      BlockedSumAgree(e + pe, e + multiset{StreamDenied(r)}, Stream, REASON_MAX);
      BlockedSumBump(e, Stream, REASON_MAX, StreamDenied(r));
  }

  lemma StepPredicts(env: Env, q: Conn, busyD: bool, busyE: bool, d: Counts, e: Counts)
    requires Predicts(d, e)
    requires (q.verdict.code.Some? ==> !busyD && !busyE) && (q.verdict.code.None? ==> busyD == busyE)
    ensures Predicts(d + multiset(StreamProgram(env, q, Detect, busyD)), e + multiset(StreamProgram(env, q, Enforce, busyE)))
  {
    hide StreamProgram, StreamDeny, Predicts;
    var pd, pe := multiset(StreamProgram(env, q, Detect, busyD)), multiset(StreamProgram(env, q, Enforce, busyE));
    if env.statZone {
      forall r: Reason {
        ProgramsMatch(env, q, busyD, busyE, r);
      }
      ProgramsMatch(env, q, busyD, busyE, NONE);
      BooksPredict(d, e, pd, pe, StreamDeny(q, Enforce, busyE));
    } else {
      Uncounted(env, q, Detect, busyD);
      Uncounted(env, q, Enforce, busyE);
      assert d + multiset{} == d && e + multiset{} == e;
    }
  }

  lemma Uncounted(env: Env, q: Conn, mode: Mode, busy: bool)
    requires !env.statZone
    ensures multiset(StreamProgram(env, q, mode, busy)) == multiset{}
  {
  }

  /** Detect mode predicts enforce mode on the stream head for every run in which no client is
      both denied by reputation and rate limited. */
  lemma StreamDetectPredicts(env: Env, t: Table, qs: seq<TimedConn>)
    requires Shape(t) && forall i :: 0 <= i < |qs| ==> !SeenTwice(env, qs[i].conn)
    ensures var d := RunStream(env, World(t, multiset{}), qs, Detect);
            var e := RunStream(env, World(t, multiset{}), qs, Enforce);
            d.table == e.table && Predicts(d.counts, e.counts)
  {
    EmptyBook(Stream, REASON_MAX);
    RunsPredict(env, World(t, multiset{}), World(t, multiset{}), qs);
  }

  lemma {:induction false} RunsPredict(env: Env, d: World, e: World, qs: seq<TimedConn>)
    requires Shape(d.table) && d.table == e.table && Predicts(d.counts, e.counts)
    requires forall i :: 0 <= i < |qs| ==> !SeenTwice(env, qs[i].conn)
    ensures RunStream(env, d, qs, Detect).table == RunStream(env, e, qs, Enforce).table
    ensures Predicts(RunStream(env, d, qs, Detect).counts, RunStream(env, e, qs, Enforce).counts)
    decreases |qs|
  {
    hide StreamProgram, RateCheck, Predicts, RateTable.Shape;
    if qs != [] {
      var q, clock := qs[0].conn, qs[0].clock;
      var rd := LimitStep(env, d.table, q.limit, StreamReachesLimit(q, Detect), clock);
      var re := LimitStep(env, e.table, q.limit, StreamReachesLimit(q, Enforce), clock);
      assert !SeenTwice(env, q);
      StepPredicts(env, q, rd.verdict == Busy, re.verdict == Busy, d.counts, e.counts);
      RunsPredict(env, StepStream(env, d, qs[0], Detect), StepStream(env, e, qs[0], Enforce), qs[1..]);
    }
  }

  /** And the condition is exact: under a live rule, the two modes leave the same rate table after
      one connection, whatever the table was, exactly when the client is not seen twice. */
  lemma SameTableIff(env: Env, q: Conn)
    requires q.limit.key > 0 && (q.limit.rule.Some? ==> Accepted(q.limit.rule.value))
    ensures (forall t: Table, clock: nat :: Shape(t) ==>
               StepStream(env, World(t, multiset{}), TimedConn(q, clock), Detect).table
               == StepStream(env, World(t, multiset{}), TimedConn(q, clock), Enforce).table)
            <==> !SeenTwice(env, q)
  {
    hide StreamProgram, RateCheck;
    if SeenTwice(env, q) {
      var t := Empty(MIN_SLOTS);
      FirstClaim(q.limit.key, q.limit.rule.value);
      assert Shape(t) && StepStream(env, World(t, multiset{}), TimedConn(q, 0), Enforce).table == t;
      assert StepStream(env, World(t, multiset{}), TimedConn(q, 0), Detect).table != t;
    }
  }

  lemma FirstClaim(h: nat, p: Params)
    requires h > 0 && Accepted(p)
    ensures RateCheck(Empty(MIN_SLOTS), h, 0, p).table != Empty(MIN_SLOTS)
  {
    hide SpendMachine;
    var t := Empty(MIN_SLOTS);
    assert FirstStop(t, h, 0) == 0;
    var i := Slot(h, MIN_SLOTS, 0);
    assert RateCheck(t, h, 0, p).table.keys[i] == h && t.keys[i] == 0;
  }

  /** Nor do the counters predict then: from some table and clock the rate stage's would-block has
      no denial to answer it. */
  lemma CountersPredictIff(env: Env, q: Conn)
    requires env.statZone && q.limit.key > 0 && (q.limit.rule.Some? ==> Accepted(q.limit.rule.value))
    ensures (forall t: Table, clock: nat :: Shape(t) ==>
               Predicts(StepStream(env, World(t, multiset{}), TimedConn(q, clock), Detect).counts,
                        StepStream(env, World(t, multiset{}), TimedConn(q, clock), Enforce).counts))
            <==> !SeenTwice(env, q)
  {
    hide StreamProgram, RateCheck, Predicts, RateTable.Shape;
    if SeenTwice(env, q) {
      var t := Empty(MIN_SLOTS);
      EmptyTable();
      FirstBusy(q.limit.key, q.limit.rule.value);
      TwoWouldBlocks(env, q);
      assert multiset{} + multiset(StreamProgram(env, q, Detect, true)) == multiset(StreamProgram(env, q, Detect, true));
      assert multiset{} + multiset(StreamProgram(env, q, Enforce, false)) == multiset(StreamProgram(env, q, Enforce, false));
      assert !Predicts(StepStream(env, World(t, multiset{}), TimedConn(q, 0), Detect).counts,
                       StepStream(env, World(t, multiset{}), TimedConn(q, 0), Enforce).counts);
    } else {
      forall t: Table, clock: nat | Shape(t)
        ensures Predicts(StepStream(env, World(t, multiset{}), TimedConn(q, clock), Detect).counts,
                         StepStream(env, World(t, multiset{}), TimedConn(q, clock), Enforce).counts)
      {
        var rd := LimitStep(env, t, q.limit, StreamReachesLimit(q, Detect), clock);
        var re := LimitStep(env, t, q.limit, StreamReachesLimit(q, Enforce), clock);
        NoPrediction();
        StepPredicts(env, q, rd.verdict == Busy, re.verdict == Busy, multiset{}, multiset{});
      }
    }
  }

  lemma EmptyTable()
    ensures Shape(Empty(MIN_SLOTS))
  {
  }

  lemma NoPrediction()
    ensures Predicts(multiset{}, multiset{})
  {
    EmptyBook(Stream, REASON_MAX);
  }

  /** A fresh bucket at the clock's zero has earned nothing. */
  lemma FirstBusy(h: nat, p: Params)
    requires h > 0 && Accepted(p)
    ensures RateCheck(Empty(MIN_SLOTS), h, 0, p).verdict == Busy
  {
    hide SpendMachine, Refill;
    assert FirstStop(Empty(MIN_SLOTS), h, 0) == 0;
    SpendParts(0, 0, p);
    NothingEarned(p);
  }

  lemma NothingEarned(p: Params)
    requires Accepted(p)
    ensures Refill(Elapsed(0, Stamp(0)), p) == 0 && Tokens(0) == 0
  {
  }

  lemma TwoWouldBlocks(env: Env, q: Conn)
    requires env.statZone && SeenTwice(env, q)
    ensures !Predicts(multiset(StreamProgram(env, q, Detect, true)), multiset(StreamProgram(env, q, Enforce, false)))
  {
    hide StreamProgram;
    ProgramWeighs(env, q, Detect, true, RATE_LIMIT);
    ProgramWeighs(env, q, Enforce, false, RATE_LIMIT);
    assert StreamWoulds(q, Detect, true) == [StreamWould(q.verdict.reason), StreamWould(RATE_LIMIT)];
  }
}
