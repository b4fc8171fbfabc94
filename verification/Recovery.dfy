/** The main theorems: whatever is left of voltkv's log after a crash rebuilds a state the
    server passed through. */
module Recovery {
  import opened Basics
  import opened Decimal
  import opened Resp
  import opened Keyspace
  import opened Commands
  import opened Sessions
  import opened Simulation
  import opened History
  import opened Lifetimes
  import opened LogFilter
  import opened Compaction
  import opened CompactionProof
  import opened Voltkv
  import CrashRecovery

  // ---- Records fit in memory ----

  lemma FormatFits(n: int)
    requires IsInt64(n)
    ensures |FormatInt(n)| <= MAX_INT64
  {}

  lemma PlainSetFits(k: string, v: string)
    requires |k| <= MAX_INT64 && |v| <= MAX_INT64
    ensures Fits(["SET", k, v])
  {
    forall a | a in ["SET", k, v] ensures |a| <= MAX_INT64 {
      assert a == "SET" || a == k || a == v;
    }
  }

  lemma {:induction false} MSetRecordsFit(m: Space, pairs: seq<(string, string)>, now: int)
    requires PairsFit(pairs)
    ensures AllFit(Records(ExecMSet(m, pairs, now).points))
  {
    var points := ExecMSet(m, pairs, now).points;
    if pairs == [] {
      assert Records(points) == [];
    } else {
      var n := |pairs| - 1;
      MSetRecordsFit(m, pairs[..n], now);
      PlainSetFits(pairs[n].0, pairs[n].1);
      assert Records(points) == Records(ExecMSet(m, pairs[..n], now).points) + [["SET", pairs[n].0, pairs[n].1]];
    }
  }

  ghost predicate PairsFit(pairs: seq<(string, string)>) {
    forall i :: 0 <= i < |pairs| ==> |pairs[i].0| <= MAX_INT64 && |pairs[i].1| <= MAX_INT64
  }

  /** What a request may put into a record of its own making fits. */
  ghost predicate RequestFits(request: Request) {
    match request
    case Single(key, op) => |key| <= MAX_INT64 && (op.GetSet? ==> |op.value| <= MAX_INT64)
    case MSet(pairs) => PairsFit(pairs)
    case _ => true
  }

  lemma PairedFit(args: Command)
    requires forall a :: a in args ==> |a| <= MAX_INT64
    ensures PairsFit(PairUp(args))
  {
    var pairs := PairUp(args);
    forall i | 0 <= i < |pairs| ensures |pairs[i].0| <= MAX_INT64 && |pairs[i].1| <= MAX_INT64 {
      assert args[2 * i] in args && args[2 * i + 1] in args;
    }
  }

  lemma SingleKey(name: Name, args: Command)
    requires args != [] && ParseNamed(name, args).Single?
    ensures |args| > 1 && ParseNamed(name, args).key == args[1]
  {}

  lemma GetSetValue(name: Name, args: Command)
    requires args != [] && ParseNamed(name, args).Single? && ParseNamed(name, args).op.GetSet?
    ensures |args| > 2 && ParseNamed(name, args).op.value == args[2]
  {}

  lemma ParsedFits(args: Command)
    requires Fits(args)
    ensures RequestFits(Parse(args))
  {
    var name := NameOf(args[0]);
    var request := ParseNamed(name, args);
    if request.Single? {
      SingleKey(name, args);
      assert args[1] in args;
      if request.op.GetSet? {
        GetSetValue(name, args);
        assert args[2] in args;
      }
    } else if request.MSet? {
      MSetPairs(name, args);
      PairedFit(args[1..]);
    }
  }

  lemma MSetPairs(name: Name, args: Command)
    requires args != [] && ParseNamed(name, args).MSet?
    ensures ParseNamed(name, args).pairs == PairUp(args[1..])
  {}

  lemma CountedIsInt64(e: Option<Entry>, delta: int)
    requires Increment(e, delta).reply.Count?
    ensures IsInt64(Increment(e, delta).reply.n)
  {}

  lemma SingleRecordsFit(m: Space, key: string, op: KeyOp, args: Command, now: int)
    requires Fits(args) && RequestFits(Single(key, op))
    ensures AllFit(Records(ExecSingle(m, key, op, args, now).points))
  {
    var reply := Step(m, key, op, now).reply;
    var points := ExecSingle(m, key, op, args, now).points;
    match Record(key, op, reply, args)
    case None => assert Records(points) == [];
    case Some(record) =>
      assert Records(points) == [record];
      if op.GetSet? {
        PlainSetFits(key, op.value);
      } else if op.IncrBy? {
        CountedIsInt64(Look(Live(m, now), key), op.delta);
        FormatFits(reply.n);
        PlainSetFits(key, FormatInt(reply.n));
      } else {
        assert record == args;
      }
  }

  lemma ActRecordsFit(m: Space, request: Request, args: Command, now: int)
    requires Fits(args) && RequestFits(request)
    ensures AllFit(Records(Act(m, request, args, now).points))
  {
    if request.Single? {
      SingleRecordsFit(m, request.key, request.op, args, now);
    } else if request.MSet? {
      MSetRecordsFit(m, request.pairs, now);
    } else {
      OtherRecords(m, request, args, now);
      RecordsAre(Act(m, request, args, now).points, args);
    }
  }

  lemma RecordsAre(points: seq<Point>, args: Command)
    requires forall p :: p in points ==> p.record == args
    ensures forall c :: c in Records(points) ==> c == args
  {
    forall c | c in Records(points) ensures c == args {
      var i :| 0 <= i < |points| && Records(points)[i] == c;
      assert points[i] in points;
    }
  }

  // ---- Records leave the connection's mode alone ----

  lemma ParsedPlain(args: Command)
    ensures Parse(args).Elsewhere? || Plain(args)
  {
    if args != [] && NameOf(args[0]) != NameOther {
      NamedIsPlain(args);
    }
  }

  lemma ActLogsPlain(m: Space, request: Request, args: Command, now: int)
    requires request.Elsewhere? || Plain(args)
    ensures AllPlain(Records(Act(m, request, args, now).points))
  {
    var points := Act(m, request, args, now).points;
    if request.Elsewhere? {
      OtherRecords(m, request, args, now);
    } else {
      ActRecords(m, request, args, now);
      forall c | c in Records(points) ensures Plain(c) {
        var i :| 0 <= i < |points| && Records(points)[i] == c;
        assert points[i] in points;
        if c != args {
          SetReads();
          NamedIsPlain(c);
        }
      }
    }
  }

  lemma BodyPlain(s: Snap)
    requires Walkable(s)
    ensures AllPlain(Body(s))
  {
    match s.entry.kind
    case KindString =>
      SetReads();
      NamedIsPlain(["SET", s.key, s.entry.str]);
    case KindHash =>
      HSetReads();
      NamedIsPlain(["HSET", s.key] + Flatten(s.fields, s.entry.hash));
    case KindList =>
      RPushReads();
      NamedIsPlain(["RPUSH", s.key] + s.entry.list);
    case KindNone =>
  }

  lemma SnapshotPlain(s: Snap, now: int)
    requires Walkable(s)
    ensures AllPlain(SnapshotCommands(s, now))
  {
    BodyPlain(s);
    if SnapshotCommands(s, now) != Body(s) {
      PExpireReads();
      NamedIsPlain(["PEXPIRE", s.key, FormatInt(MsUntil(s.entry.expiresAt.value, now))]);
    }
  }

  lemma {:induction false} RewritePlain(snaps: seq<Snap>, now: int)
    requires forall i :: 0 <= i < |snaps| ==> Walkable(snaps[i])
    ensures AllPlain(RewriteCommands(snaps, now))
  {
    if snaps != [] {
      var n := |snaps| - 1;
      RewritePlain(snaps[..n], now);
      SnapshotPlain(snaps[n], now);
    }
  }

  lemma EmptyIsFree()
    ensures TtlFree([])
  {}

  lemma VoltkvDurable()
    ensures CrashRecovery.Durable(VOLTKV)
  {
    VoltkvLawful();
    VoltkvRestoresSnaps();
    EmptyIsFree();
    forall m, args, now ensures CrashRecovery.FitKept(VOLTKV, m, args, now) {
      if Fits(args) {
        ParsedFits(args);
        ActRecordsFit(m, Parse(args), args, now);
      }
    }
    forall m, args, now ensures CrashRecovery.LogsPlain(VOLTKV, m, args, now) {
      ParsedPlain(args);
      ActLogsPlain(m, Parse(args), args, now);
    }
    forall m, args, now ensures CrashRecovery.KeepsNear(VOLTKV, m, args, now) {
      if Near(m, now) { ExecNear(m, args, now); }
    }
    forall m, snaps, now ensures CrashRecovery.CompactsFree(VOLTKV, m, snaps, now) {
      if NoExpiry(m) && IsSnapshot(m, snaps) { RewriteTtlFree(m, snaps, now); }
    }
    forall m, snaps, now ensures CrashRecovery.CompactsPlain(m, snaps, now) {
      if IsSnapshot(m, snaps) { RewritePlain(snaps, now); }
    }
  }

  /** Crash recovery: start voltkv on a whole log whose replay ends outside subscribe mode, run
      any commands during which no deadline passes, any writer steps and compactions, and stop
      it after any step, with anything still queued, half encoded or unflushed. The file
      recovers the keyspace as it stood at one of the server's own points; each expiry is
      absent or moved as far as the record that last set it, with the rounding of a compaction
      if it comes from one. If the clock never goes back that rounding is downwards and less
      than one millisecond. */
  lemma CrashRecovers(
      start: seq<Command>, r: int, ss: seq<CrashRecovery.Server>, es: seq<CrashRecovery.Move>, clock: nat -> int)
    requires CrashRecovery.Run(VOLTKV, start, r, ss, es)
    requires SubsOf(start) == {}
    ensures CrashRecovery.Recovers(VOLTKV, ss[|es|], clock)
    ensures CrashRecovery.Ordered(r, es) ==> CrashRecovery.AllSmall(ss[|es|].stamps)
  {
    VoltkvDurable();
    CrashRecovery.EngineRecovers(VOLTKV, start, r, ss, es, clock);
    if CrashRecovery.Ordered(r, es) {
      CrashRecovery.RunKeepsSmall(VOLTKV, start, r, ss, es);
    }
  }

  /** Exact crash recovery: when no command sets a deadline, a crash after any step loses
      nothing but a suffix of the records. The replay, at any clock, rebuilds exactly the live
      keyspace as it stood when the k-th record was appended, and the final one if the pipe
      was drained. Compactions along the way do not matter. */
  lemma CrashRecoversExactly(
      start: seq<Command>, r: int, ss: seq<CrashRecovery.Server>, es: seq<CrashRecovery.Move>, clock: nat -> int)
    requires CrashRecovery.Run(VOLTKV, start, r, ss, es)
    requires SubsOf(start) == {}
    requires forall c :: c in start ==> TtlFree(c)
    requires forall e :: e in es ==> CrashRecovery.FreeMove(VOLTKV, e)
    ensures CrashRecovery.RecoversExactly(VOLTKV, ss[|es|], clock)
  {
    VoltkvDurable();
    CrashRecovery.EngineRecoversExactly(VOLTKV, start, r, ss, es, clock);
  }

  // ---- A log that ends in subscribe mode ----

  lemma VoltkvIgnoresEmpty()
    ensures CrashRecovery.IgnoresEmpty(VOLTKV)
  {
    forall m, now ensures VOLTKV.exec(m, [], now).space == Live(m, now) {
      assert Parse([]) == Elsewhere;
    }
  }

  /** Whatever a server appends to a log that ends in subscribe mode is lost: the connection
      the log is replayed through turns it all away. */
  lemma AppendsInSubscribeModeAreLost(start: seq<Command>, more: seq<Command>, clock: nat -> int)
    requires SubsOf(start) != {} && AllPlain(more)
    requires forall c :: c in start ==> TtlFree(c)
    ensures CrashRecovery.Reread(VOLTKV, start + more, clock) == CrashRecovery.Reread(VOLTKV, start, clock)
  {
    VoltkvDurable();
    PlainUnheard(start, more);
    CrashRecovery.FreeRereadQuiet(VOLTKV, start, clock);
    VoltkvIgnoresEmpty();
    CrashRecovery.SilenceKeeps(VOLTKV, Heard(start), |more|, clock);
  }

  lemma SetHeard(start: seq<Command>, k: string, v: string, clock: nat -> int)
    requires SubsOf(start) == {}
    ensures CrashRecovery.Reread(VOLTKV, start + [["SET", k, v]], clock)
      == Step(CrashRecovery.Reread(VOLTKV, start, clock), k, Set(v, 0), clock(|start|)).space
  {
    HeardSnoc(start, ["SET", k, v]);
    ReplaySnoc(VOLTKV, map[], Heard(start), ["SET", k, v], clock);
    PlainSetExec(CrashRecovery.Reread(VOLTKV, start, clock), k, v, clock(|start|));
  }

  lemma SetOnFree(m: Space, k: string, v: string, now: int)
    requires NoExpiry(m)
    ensures Step(m, k, Set(v, 0), now).space == m[k := StringEntry(v, None)]
  {
    NoExpiryQuiet(m, now);
    SameLooks(Step(m, k, Set(v, 0), now).space, m[k := StringEntry(v, None)]);
  }

  /** A SET appended to a deadline-free log survives the next restart if and only if the log
      before it ends outside subscribe mode, or the SET changed nothing. */
  lemma SetSurvivesRestart(start: seq<Command>, k: string, v: string, r: int, clock: nat -> int)
    requires forall c :: c in start ==> TtlFree(c)
    ensures var before := CrashRecovery.Reread(VOLTKV, start, At(r));
      var live := before[k := StringEntry(v, None)];
      CrashRecovery.Reread(VOLTKV, start + [["SET", k, v]], clock) == live <==> SubsOf(start) == {} || live == before
  {
    VoltkvDurable();
    CrashRecovery.FreeRereadQuiet(VOLTKV, start, clock);
    FreeRereadAgree(start, r, clock);
    if SubsOf(start) == {} {
      SetHeard(start, k, v, clock);
      SetOnFree(CrashRecovery.Reread(VOLTKV, start, clock), k, v, clock(|start|));
    } else {
      SetIsPlain(k, v);
      AppendsInSubscribeModeAreLost(start, [["SET", k, v]], clock);
    }
  }

  lemma SetIsPlain(k: string, v: string)
    ensures AllPlain([["SET", k, v]])
  {
    SetReads();
    NamedIsPlain(["SET", k, v]);
  }

  lemma FreeRereadAgree(start: seq<Command>, r: int, clock: nat -> int)
    requires forall c :: c in start ==> TtlFree(c)
    ensures CrashRecovery.Reread(VOLTKV, start, At(r)) == CrashRecovery.Reread(VOLTKV, start, clock)
  {
    VoltkvDurable();
    CrashRecovery.FreeRereadQuiet(VOLTKV, start, At(r));
    CrashRecovery.FreeRereadQuiet(VOLTKV, start, clock);
    ClocksAgree(VOLTKV, Heard(start), r, clock);
    SimExact(CrashRecovery.Reread(VOLTKV, start, At(r)), CrashRecovery.Reread(VOLTKV, start, clock),
             Shifts(ReplayStamps(VOLTKV, Heard(start), r, NO_SHIFT), clock));
  }

  /** The failing input: a SET after a SUBSCRIBE never takes effect when the log is replayed. */
  lemma SubscribeSilencesTheLog(clock: nat -> int)
    ensures SubsOf(LONE_SUBSCRIBE) == {"c"}
    ensures CrashRecovery.Reread(VOLTKV, LONE_SUBSCRIBE + [["SET", "k", "v"]], clock) == map[]
  {
    LoneSubscribe();
    AppendsInSubscribeModeAreLost(LONE_SUBSCRIBE, [["SET", "k", "v"]], clock);
    ReplayOne(VOLTKV, map[], ["SUBSCRIBE", "c"], clock);
    VoltkvIgnoresElsewhere(map[], ["SUBSCRIBE", "c"], clock(0));
  }

  const LONE_SUBSCRIBE: seq<Command> := [["SUBSCRIBE", "c"]]

  lemma LoneSubscribe()
    ensures SubsOf(LONE_SUBSCRIBE) == {"c"} && Heard(LONE_SUBSCRIBE) == LONE_SUBSCRIBE
    ensures Parse(LONE_SUBSCRIBE[0]) == Elsewhere && AllPlain([["SET", "k", "v"]])
    ensures forall c :: c in LONE_SUBSCRIBE ==> TtlFree(c)
  {
    SubscribeReads();
    SetIsPlain("k", "v");
    HeardSnoc([], LONE_SUBSCRIBE[0]);
    assert [] + LONE_SUBSCRIBE == LONE_SUBSCRIBE && [] + [LONE_SUBSCRIBE[0]] == LONE_SUBSCRIBE;
    assert Elements(LONE_SUBSCRIBE[0][1..]) == {"c"};
  }

  lemma VoltkvIgnoresElsewhere(m: Space, args: Command, now: int)
    requires Parse(args) == Elsewhere
    ensures VOLTKV.exec(m, args, now).space == Live(m, now)
  {}
}
