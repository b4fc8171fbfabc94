/** voltkv's executor keeps the laws of module History, and what that gives for serial runs. */
module Voltkv {
  import opened Basics
  import opened Decimal
  import opened Resp
  import opened Keyspace
  import opened Commands
  import opened Simulation
  import opened History
  import opened LogFilter

  // ---- Deadline-free commands ----

  lemma {:induction false} MSetNoExpiry(m: Space, pairs: seq<(string, string)>, now: int)
    requires NoExpiry(m)
    ensures ExpiresNothing(ExecMSet(m, pairs, now))
  {
    if pairs != [] {
      MSetNoExpiry(m, pairs[..|pairs| - 1], now);
    }
  }

  lemma StepNoExpiry(m: Space, key: string, op: KeyOp, now: int)
    requires NoExpiry(m) && !op.Expire?
    requires (op.Set? || op.SetNX? || op.SetXX?) ==> op.ttl <= 0
    ensures NoExpiry(Step(m, key, op, now).space)
  {
    var live := Live(m, now);
    assert Look(live, key).Some? ==> Look(live, key).value.expiresAt.None?;
    UpdateNoExpiry(op, Look(live, key), now);
    var r := Step(m, key, op, now).space;
    forall k | k in r ensures r[k].expiresAt.None? {
      assert Look(r, k) == if k == key then LiveEntry(Update(op, Look(live, key), now).entry, now) else Look(live, k);
    }
  }

  lemma UpdateNoExpiry(op: KeyOp, e: Option<Entry>, now: int)
    requires e.Some? ==> e.value.expiresAt.None?
    requires !op.Expire?
    requires (op.Set? || op.SetNX? || op.SetXX?) ==> op.ttl <= 0
    ensures var r := Update(op, e, now).entry; r.Some? ==> r.value.expiresAt.None?
  {}

  ghost predicate ExpiresNothing(o: Outcome) {
    NoExpiry(o.space) && forall p :: p in o.points ==> NoExpiry(p.space)
  }

  lemma SingleNoExpiry(m: Space, key: string, op: KeyOp, args: Command, now: int)
    requires NoExpiry(m) && SetsNoDeadline(Single(key, op))
    ensures ExpiresNothing(ExecSingle(m, key, op, args, now))
  {
    StepNoExpiry(m, key, op, now);
  }

  lemma OtherNoExpiry(m: Space, request: Request, args: Command, now: int)
    requires NoExpiry(m) && !request.Single? && !request.MSet?
    ensures ExpiresNothing(Act(m, request, args, now))
  {}

  lemma ActNoExpiry(m: Space, request: Request, args: Command, now: int)
    requires NoExpiry(m) && SetsNoDeadline(request)
    ensures ExpiresNothing(Act(m, request, args, now))
  {
    if request.Single? {
      SingleNoExpiry(m, request.key, request.op, args, now);
    } else if request.MSet? {
      MSetNoExpiry(m, request.pairs, now);
    } else {
      OtherNoExpiry(m, request, args, now);
    }
  }

  /** Every record is the command itself or a plain SET. */
  ghost predicate PlainSet(record: Command) {
    exists k, v :: record == ["SET", k, v]
  }

  lemma {:induction false} MSetRecords(m: Space, pairs: seq<(string, string)>, now: int)
    ensures forall p :: p in ExecMSet(m, pairs, now).points ==> PlainSet(p.record)
  {
    if pairs != [] {
      MSetRecords(m, pairs[..|pairs| - 1], now);
    }
  }

  lemma SingleRecords(m: Space, key: string, op: KeyOp, args: Command, now: int)
    ensures forall p :: p in ExecSingle(m, key, op, args, now).points ==> p.record == args || PlainSet(p.record)
  {
    var record := Record(key, op, Step(m, key, op, now).reply, args);
    if record.Some? && record.value != args {
      assert record.value == ["SET", key, record.value[2]];
    }
  }

  lemma OtherRecords(m: Space, request: Request, args: Command, now: int)
    requires !request.Single? && !request.MSet?
    ensures forall p :: p in Act(m, request, args, now).points ==> p.record == args
    ensures request.Elsewhere? ==> Act(m, request, args, now).points == []
  {}

  lemma ActRecords(m: Space, request: Request, args: Command, now: int)
    ensures forall p :: p in Act(m, request, args, now).points ==> p.record == args || PlainSet(p.record)
  {
    if request.Single? {
      SingleRecords(m, request.key, request.op, args, now);
    } else if request.MSet? {
      MSetRecords(m, request.pairs, now);
    } else {
      OtherRecords(m, request, args, now);
    }
  }

  lemma ExecLeavesFree(m: Space, args: Command, now: int)
    requires NoExpiry(m) && TtlFree(args)
    ensures LeavesFree(VOLTKV, Exec(m, args, now))
  {
    var o := Exec(m, args, now);
    ActNoExpiry(m, Parse(args), args, now);
    ActRecords(m, Parse(args), args, now);
    forall p | p in o.points ensures TtlFree(p.record) {
      if p.record != args {
        var k, v :| p.record == ["SET", k, v];
        PlainSetTtlFree(k, v);
      }
    }
  }

  // ---- The laws ----

  lemma VoltkvKeepsQuiet()
    ensures KeepsQuiet(VOLTKV)
  {
    forall m, args, now ensures Quiet(VOLTKV.exec(m, args, now).space, now) {
      ExecQuiet(m, args, now);
    }
  }

  lemma ExecKeepsSim(a: Space, b: Space, args: Command, t: int, rt: int, drift: Drift)
    ensures SimKept(VOLTKV, a, b, args, t, rt, drift)
  {
    if Sim(a, b, drift) && Quiet(a, t) && Quiet(b, rt) {
      ExecRespects(a, b, args, t, rt, drift);
    }
  }

  lemma VoltkvKeepsSim()
    ensures KeepsSim(VOLTKV)
  {
    forall a, b, args, t, rt, drift ensures SimKept(VOLTKV, a, b, args, t, rt, drift) {
      ExecKeepsSim(a, b, args, t, rt, drift);
    }
  }

  lemma VoltkvLogsWhatItDoes()
    ensures LogsWhatItDoes(VOLTKV)
  {
    forall m, args, now | WellFormed(m) ensures Justified(VOLTKV, m, args, now) {
      LogExplainsCommand(m, args, now);
    }
  }

  lemma VoltkvKeepsFree()
    ensures KeepsFree(VOLTKV)
  {
    forall m, args, now | NoExpiry(m) && VOLTKV.free(args)
      ensures LeavesFree(VOLTKV, VOLTKV.exec(m, args, now))
    {
      ExecLeavesFree(m, args, now);
    }
  }

  /** voltkv's executor is lawful: what it leaves is live, mirrored keyspaces stay mirrored,
      its log says what it did, and deadline-free commands log deadline-free records. */
  lemma VoltkvLawful()
    ensures Lawful(VOLTKV)
  {
    VoltkvKeepsQuiet();
    VoltkvKeepsSim();
    VoltkvLogsWhatItDoes();
    VoltkvKeepsFree();
  }

  // ---- Serial runs of voltkv ----

  /** In every keyspace reachable through Execute, whatever the clock did, each entry's payload
      is the one its kind names and no hash or list is empty. */
  lemma {:induction false} RunWellFormed(events: seq<Event>)
    ensures WellFormed(Run(VOLTKV, events).space)
  {
    if events != [] {
      var n := |events| - 1;
      RunWellFormed(events[..n]);
      LogExplainsCommand(Run(VOLTKV, events[..n]).space, events[n].args, events[n].now);
    }
  }

  /** Replaying the log of a serial run in which no deadline passes, by a replay in which
      none does, rebuilds the live keyspace up to its expiries, each of which is absent or
      moved exactly as far as the record that last set it. The same holds at every record. */
  lemma ReplaySimulatesRun(events: seq<Event>, clock: nat -> int, k: nat)
    requires QuietRun(VOLTKV, events)
    ensures var h := Run(VOLTKV, events);
      k <= |h.points| && QuietReplay(VOLTKV, Records(h.points), clock) ==>
        && Sim(Before(map[], h.points, k), Replay(VOLTKV, map[], Records(h.points)[..k], clock),
               DriftOf(VOLTKV, h.points[..k], clock))
        && (k == |h.points| ==> Before(map[], h.points, k) == h.space)
  {
    VoltkvLawful();
    if k <= |Run(VOLTKV, events).points| && QuietReplay(VOLTKV, Records(Run(VOLTKV, events).points), clock) {
      SimulatedAt(VOLTKV, events, clock, k);
    }
  }

  lemma SimulatedAt(g: Engine, events: seq<Event>, clock: nat -> int, k: nat)
    requires Lawful(g) && QuietRun(g, events)
    requires k <= |Run(g, events).points|
    requires QuietReplay(g, Records(Run(g, events).points), clock)
    ensures var h := Run(g, events);
      && Sim(Before(map[], h.points, k), Replay(g, map[], Records(h.points)[..k], clock), DriftOf(g, h.points[..k], clock))
      && (k == |h.points| ==> Before(map[], h.points, k) == h.space)
  {
    var points := Run(g, events).points;
    RunChains(g, events);
    ChainPrefix(g, map[], points, k);
    QuietReplayPrefix(g, Records(points), clock, k);
    assert Records(points)[..k] == Records(points[..k]);
    ReplayMirrors(g, points[..k], clock);
  }

  // ---- A deadline that passes during the run ----

  const SHORT: Command := ["SET", "k", "v", "PX", "1"]

  const IF_ABSENT: Command := ["SET", "k", "w", "NX"]

  /** The key dies 1 ms after the first command and 1 ms before the second. */
  const DYING_RUN: seq<Event> := [Event(SHORT, 0), Event(IF_ABSENT, 2 * MILLISECOND)]

  const WITH_V: Space := map["k" := StringEntry("v", Some(MILLISECOND))]

  const WITH_W: Space := map["k" := StringEntry("w", None)]

  lemma ShortParses()
    ensures Parse(SHORT) == Single("k", Set("v", MILLISECOND))
  {
    SetReads();
    assert SHORT[3..] == ["PX", "1"] && ["PX", "1"][2..] == [];
    assert Upper("PX") == "PX";
    assert ParseInt("1") == Some(1);
  }

  lemma IfAbsentParses()
    ensures Parse(IF_ABSENT) == Single("k", SetNX("w", 0))
  {
    SetReads();
    assert IF_ABSENT[3..] == ["NX"] && ["NX"][1..] == [];
    assert Upper("NX") == "NX";
  }

  lemma ShortSets(now: int)
    ensures var m := map["k" := StringEntry("v", Some(now + MILLISECOND))];
      Exec(map[], SHORT, now) == Outcome(m, [Point(SHORT, m, now)], One(Done))
  {
    ShortParses();
    assert Live(map[], now) == map[];
    ExecParsed(map[], SHORT, "k", Set("v", MILLISECOND), now);
  }

  lemma AbsentSets(now: int)
    requires now > MILLISECOND
    ensures Exec(WITH_V, IF_ABSENT, now) == Outcome(WITH_W, [Point(IF_ABSENT, WITH_W, now)], One(Flag(true)))
  {
    IfAbsentParses();
    assert Live(WITH_V, now) == map[];
    ExecParsed(WITH_V, IF_ABSENT, "k", SetNX("w", 0), now);
  }

  lemma PresentKeeps(now: int)
    requires now <= MILLISECOND
    ensures Exec(WITH_V, IF_ABSENT, now).space == WITH_V && Quiet(WITH_V, now)
  {
    IfAbsentParses();
    assert Live(WITH_V, now) == WITH_V;
    ExecParsed(WITH_V, IF_ABSENT, "k", SetNX("w", 0), now);
  }

  /** A run of two commands, for any executor. */
  lemma RunOfTwo(g: Engine, a: Event, b: Event)
    ensures var first := g.exec(map[], a.args, a.now);
      var second := g.exec(first.space, b.args, b.now);
      && Run(g, [a, b]) == Past(second.space, first.points + second.points)
      && (QuietRun(g, [a, b]) ==> Quiet(first.space, b.now))
  {
    var events := [a, b];
    assert events[..1] == [a] && events[..1][..0] == [];
    assert Run(g, events[..1]).points == [] + g.exec(map[], a.args, a.now).points;
  }

  lemma ReplayOfTwo(g: Engine, a: Command, b: Command, clock: nat -> int)
    ensures var first := g.exec(map[], a, clock(0)).space;
      && Replay(g, map[], [a, b], clock) == g.exec(first, b, clock(1)).space
      && (Quiet(first, clock(1)) ==> QuietReplay(g, [a, b], clock))
  {
    var records := [a, b];
    assert records[..1] == [a] && records[..1][..0] == [];
    ReplayOne(g, map[], a, clock);
    assert Quiet(map[], clock(0));
    assert QuietReplay(g, [a], clock);
  }

  lemma DyingRunIs()
    ensures Run(VOLTKV, DYING_RUN) ==
      Past(WITH_W, [Point(SHORT, WITH_V, 0)] + [Point(IF_ABSENT, WITH_W, 2 * MILLISECOND)])
    ensures !QuietRun(VOLTKV, DYING_RUN)
  {
    ShortSets(0);
    AbsentSets(2 * MILLISECOND);
    RunOfTwo(VOLTKV, Event(SHORT, 0), Event(IF_ABSENT, 2 * MILLISECOND));
    assert "k" !in Live(WITH_V, 2 * MILLISECOND);
  }

  lemma DyingReplayIs()
    ensures Replay(VOLTKV, map[], [SHORT, IF_ABSENT], At(0)) == WITH_V
    ensures QuietReplay(VOLTKV, [SHORT, IF_ABSENT], At(0))
  {
    ShortSets(0);
    PresentKeeps(0);
    ReplayOfTwo(VOLTKV, SHORT, IF_ABSENT, At(0));
  }

  /** The failing input: expiry is not logged, so where a deadline passes during the run, but
      not during the replay, the replay keeps what the run had lost and refuses what it did. */
  lemma PassedDeadlineIsNotReplayed()
    ensures !QuietRun(VOLTKV, DYING_RUN)
    ensures var h := Run(VOLTKV, DYING_RUN);
      && QuietReplay(VOLTKV, Records(h.points), At(0))
      && h.space == WITH_W && Replay(VOLTKV, map[], Records(h.points), At(0)) == WITH_V
  {
    DyingRunIs();
    assert Records(Run(VOLTKV, DYING_RUN).points) == [SHORT, IF_ABSENT];
    DyingReplayIs();
  }

  /** The replay's own deadlines need no hypothesis when it is no slower than the run was. */
  lemma FastReplaySimulatesRun(events: seq<Event>, clock: nat -> int)
    requires QuietRun(VOLTKV, events) && NoSlower(Run(VOLTKV, events).points, clock)
    ensures var h := Run(VOLTKV, events);
      Sim(h.space, Replay(VOLTKV, map[], Records(h.points), clock), DriftOf(VOLTKV, h.points, clock))
  {
    var h := Run(VOLTKV, events);
    VoltkvLawful();
    RunChains(VOLTKV, events);
    NoSlowerIsQuiet(VOLTKV, h.points, clock);
    ReplayMirrors(VOLTKV, h.points, clock);
  }

  /** A serial run that sets no deadline is rebuilt exactly by its log, at any clock: the
      first k records give the keyspace as it stood when the k-th was appended, and all of
      them the last. */
  lemma TtlFreeReplayIsExact(events: seq<Event>, clock: nat -> int, k: nat)
    requires forall e :: e in events ==> TtlFree(e.args)
    ensures var h := Run(VOLTKV, events);
      k <= |h.points| ==>
        && Replay(VOLTKV, map[], Records(h.points)[..k], clock) == Before(map[], h.points, k)
        && (k == |h.points| ==> Before(map[], h.points, k) == h.space)
  {
    VoltkvLawful();
    if k <= |Run(VOLTKV, events).points| {
      ExactAt(VOLTKV, events, clock, k);
    }
  }

  lemma ExactAt(g: Engine, events: seq<Event>, clock: nat -> int, k: nat)
    requires Lawful(g)
    requires forall e :: e in events ==> g.free(e.args)
    requires k <= |Run(g, events).points|
    ensures var h := Run(g, events);
      && Replay(g, map[], Records(h.points)[..k], clock) == Before(map[], h.points, k)
      && (k == |h.points| ==> Before(map[], h.points, k) == h.space)
  {
    var points := Run(g, events).points;
    RunNoExpiry(g, events);
    RunChains(g, events);
    ChainPrefix(g, map[], points, k);
    assert Records(points)[..k] == Records(points[..k]);
    ReplayIsExact(g, points[..k], clock);
  }
}
