/** What a command sends to the log is what it did: silence means nothing live changed, and
    the records sent, executed where the command ran, do the same as the command. */
module LogFilter {
  import opened Basics
  import opened Decimal
  import opened Resp
  import opened Keyspace
  import opened Commands
  import opened Simulation
  import opened History

  /** voltkv's command executor. */
  const VOLTKV: Engine := Engine(Exec, TtlFree, Stamps)

  lemma ExplainedBy(prev: Space, p: Point)
    requires Quiet(prev, p.time) && WellFormed(p.space)
    requires Sim(p.space, Exec(prev, p.record, p.time).space, NO_SHIFT)
    ensures Explained(VOLTKV, prev, p)
    ensures Chain(VOLTKV, prev, [p]) && After(prev, [p]) == p.space
  {
    ChainOne(VOLTKV, prev, p);
  }

  // ---- One key ----

  /** A single-key command that logs nothing leaves the live keyspace as it was. The silent
      HDEL relies on hashes never being empty. */
  lemma SilentUnchanged(m: Space, key: string, op: KeyOp, args: Command, now: int)
    requires WellFormed(m) && !op.Del?
    requires Record(key, op, Step(m, key, op, now).reply, args).None?
    ensures Step(m, key, op, now).space == Live(m, now)
  {
    var live := Live(m, now);
    var e := Look(live, key);
    assert WellFormedEntry(e);
    UpdateSilent(op, e, key, args, now);
    LookLive(live, now, key);
    PutSame(live, key);
  }

  lemma DropNothing(hash: map<string, string>, fields: seq<string>)
    requires |hash| <= |DropFields(hash, fields)|
    ensures DropFields(hash, fields) == hash
  {
    var rest := DropFields(hash, fields);
    assert rest.Keys <= hash.Keys;
    assert |rest.Keys| == |rest| && |hash.Keys| == |hash|;
    SubsetSize(rest.Keys, hash.Keys);
  }

  lemma SubsetSize(a: set<string>, b: set<string>)
    requires a <= b && |b| <= |a|
    ensures a == b
  {
    assert |b - a| == |b| - |a|;
    assert b == a + (b - a);
  }

  lemma DropSilent(e: Option<Entry>, fields: seq<string>)
    requires WellFormedEntry(e)
    requires var reply := DropHash(e, fields).reply; !(reply.Count? && reply.n > 0)
    ensures DropHash(e, fields).entry == e
  {
    if e.Some? && e.value.kind == KindHash {
      DropNothing(e.value.hash, fields);
    }
  }

  lemma OtherSilent(op: KeyOp, e: Option<Entry>, key: string, args: Command, now: int)
    requires !op.HDel? && !op.Del?
    requires Record(key, op, Update(op, e, now).reply, args).None?
    ensures Update(op, e, now).entry == e
  {}

  lemma UpdateSilent(op: KeyOp, e: Option<Entry>, key: string, args: Command, now: int)
    requires WellFormedEntry(e) && !op.Del?
    requires Record(key, op, Update(op, e, now).reply, args).None?
    ensures Update(op, e, now).entry == e
  {
    if op.HDel? {
      DropSilent(e, op.fields);
    } else {
      OtherSilent(op, e, key, args, now);
    }
  }

  lemma StepLive(m: Space, key: string, op: KeyOp, now: int)
    ensures Step(Live(m, now), key, op, now) == Step(m, key, op, now)
  {
    LiveLive(m, now, now);
  }

  lemma ExecParsed(m: Space, args: Command, key: string, op: KeyOp, now: int)
    requires Parse(args) == Single(key, op)
    ensures Exec(m, args, now) == ExecSingle(m, key, op, args, now)
  {}

  /** The increment succeeds on a key that has an expiry: its record, a plain SET, loses it. */
  ghost predicate IncrementLosesExpiry(live: Space, key: string, op: KeyOp) {
    && op.IncrBy?
    && key in live && live[key].expiresAt.Some?
    && live[key].kind == KindString && ParseInt(live[key].str).Some?
    && !WouldOverflow(ParseInt(live[key].str).value, op.delta)
  }

  /** What stands at the key after a record written as a plain SET is executed instead. */
  lemma PlainSetEffect(op: KeyOp, e: Option<Entry>, key: string, args: Command, now: int, value: string)
    requires op.GetSet? || op.IncrBy?
    requires WellFormedEntry(e)
    requires Record(key, op, Update(op, e, now).reply, args) == Some(["SET", key, value])
    ensures var did, logged := Update(op, e, now).entry, Update(Set(value, 0), e, now).entry;
      && EntrySim(did, logged, ZERO)
      && (did == logged <==> !(op.IncrBy? && e.Some? && e.value.expiresAt.Some?))
  {
    assert ["SET", key, value][2] == value;
  }

  /** A record is the command itself, but for GETSET and increments, which write a plain SET. */
  lemma RecordForm(key: string, op: KeyOp, reply: Reply, args: Command)
    requires Record(key, op, reply, args).Some?
    ensures var record := Record(key, op, reply, args).value;
      if op.GetSet? || op.IncrBy? then |record| == 3 && record == ["SET", key, record[2]] else record == args
  {}

  lemma PlainSetExplains(m: Space, args: Command, key: string, op: KeyOp, now: int, value: string)
    requires WellFormed(m) && (op.GetSet? || op.IncrBy?)
    requires Record(key, op, Step(m, key, op, now).reply, args) == Some(["SET", key, value])
    ensures var did, logged := Step(m, key, op, now).space, Step(Live(m, now), key, Set(value, 0), now).space;
      && Sim(did, logged, NO_SHIFT)
      && (did == logged <==> !IncrementLosesExpiry(Live(m, now), key, op))
  {
    var live := Live(m, now);
    var e := Look(live, key);
    assert WellFormedEntry(e);
    StepLive(m, key, op, now);
    LiveLive(m, now, now);
    PlainSetEffect(op, e, key, args, now, value);
    SetAgainst(live, Step(m, key, op, now).space, Step(live, key, Set(value, 0), now).space, key,
               Update(op, e, now).entry, Update(Set(value, 0), e, now).entry, now);
  }

  /** Executing the record of a single-key command where the command ran does what the
      command did, and exactly that unless an increment drops an expiry. */
  lemma RecordExplains(m: Space, args: Command, key: string, op: KeyOp, now: int, record: Command)
    requires WellFormed(m) && Parse(args) == Single(key, op)
    requires Record(key, op, Step(m, key, op, now).reply, args) == Some(record)
    ensures var did, logged := Step(m, key, op, now).space, Exec(Live(m, now), record, now).space;
      && Sim(did, logged, NO_SHIFT)
      && (did == logged <==> !IncrementLosesExpiry(Live(m, now), key, op))
  {
    RecordForm(key, op, Step(m, key, op, now).reply, args);
    if op.GetSet? || op.IncrBy? {
      PlainSetExplains(m, args, key, op, now, record[2]);
      PlainSetExec(Live(m, now), key, record[2], now);
    } else {
      ExecParsed(Live(m, now), args, key, op, now);
      StepLive(m, key, op, now);
      SimRefl(Step(m, key, op, now).space);
    }
  }

  /** Two writes at one key of a live keyspace compare as the entries they write. */
  lemma SetAgainst(live: Space, a: Space, b: Space, key: string, ea: Option<Entry>, eb: Option<Entry>, now: int)
    requires a == Put(live, key, LiveEntry(ea, now)) && b == Put(live, key, LiveEntry(eb, now))
    requires LiveEntry(ea, now) == ea && LiveEntry(eb, now) == eb
    requires EntrySim(ea, eb, ZERO)
    ensures Sim(a, b, NO_SHIFT)
    ensures a == b <==> ea == eb
  {
    assert Look(a, key) == ea && Look(b, key) == eb;
  }

  // ---- Whole commands ----

  lemma SingleExplained(m: Space, args: Command, key: string, op: KeyOp, now: int)
    requires WellFormed(m) && Parse(args) == Single(key, op)
    ensures var o := ExecSingle(m, key, op, args, now);
      Chain(VOLTKV, Live(m, now), o.points) && After(Live(m, now), o.points) == o.space
  {
    var next := Step(m, key, op, now);
    match Record(key, op, next.reply, args)
    case None => SilentUnchanged(m, key, op, args, now);
    case Some(record) =>
      var p := Point(record, next.space, now);
      LiveLive(m, now, now);
      StepWellFormed(m, key, op, now);
      RecordExplains(m, args, key, op, now, record);
      ExplainedBy(Live(m, now), p);
  }

  lemma PlainSetExec(m: Space, k: string, v: string, now: int)
    ensures Exec(m, ["SET", k, v], now).space == Step(m, k, Set(v, 0), now).space
  {
    PlainSetParses(k, v);
    ExecParsed(m, ["SET", k, v], k, Set(v, 0), now);
  }

  lemma {:induction false} MSetExplained(m: Space, pairs: seq<(string, string)>, now: int)
    requires WellFormed(m)
    ensures var o := ExecMSet(m, pairs, now);
      Chain(VOLTKV, Live(m, now), o.points) && After(Live(m, now), o.points) == o.space && WellFormed(o.space)
  {
    if pairs != [] {
      var n := |pairs| - 1;
      var before := ExecMSet(m, pairs[..n], now);
      var (k, v) := pairs[n];
      var after := Step(before.space, k, Set(v, 0), now).space;
      var p := Point(["SET", k, v], after, now);
      MSetExplained(m, pairs[..n], now);
      MSetQuiet(m, pairs[..n], now);
      StepWellFormed(before.space, k, Set(v, 0), now);
      PlainSetExec(before.space, k, v, now);
      SimRefl(after);
      ExplainedBy(before.space, p);
      ChainConcat(VOLTKV, Live(m, now), before.points, [p]);
    }
  }

  lemma PlainSetTtlFree(k: string, v: string)
    ensures TtlFree(["SET", k, v])
  {
    PlainSetParses(k, v);
  }

  lemma DelExec(m: Space, keys: seq<string>, args: Command, now: int)
    requires Parse(args) == DelMany(keys)
    ensures Exec(m, args, now) == ExecDel(m, keys, args, now)
  {}

  lemma DroppedNothing(live: Space, keys: seq<string>)
    requires |live| <= |live - Elements(keys)|
    ensures live - Elements(keys) == live
  {
    var after := live - Elements(keys);
    assert |live.Keys| == |live| && |after.Keys| == |after|;
    SubsetSize(after.Keys, live.Keys);
  }

  lemma DelRecordExplains(m: Space, keys: seq<string>, args: Command, now: int)
    requires WellFormed(m) && Parse(args) == DelMany(keys)
    ensures var after := Live(m, now) - Elements(keys); Explained(VOLTKV, Live(m, now), Point(args, after, now))
  {
    var live := Live(m, now);
    LiveLive(m, now, now);
    DelExec(live, keys, args, now);
    SimRefl(live - Elements(keys));
    ExplainedBy(live, Point(args, live - Elements(keys), now));
  }

  lemma DelExplained(m: Space, keys: seq<string>, args: Command, now: int)
    requires WellFormed(m) && Parse(args) == DelMany(keys)
    ensures var o := ExecDel(m, keys, args, now);
      Chain(VOLTKV, Live(m, now), o.points) && After(Live(m, now), o.points) == o.space
  {
    var live := Live(m, now);
    var after := live - Elements(keys);
    if |live| > |after| {
      DelRecordExplains(m, keys, args, now);
      ChainOne(VOLTKV, live, Point(args, after, now));
    } else {
      DroppedNothing(live, keys);
    }
  }

  lemma FlushExec(m: Space, args: Command, now: int)
    requires Parse(args) == Flush
    ensures Exec(m, args, now) == Outcome(map[], [Point(args, map[], now)], Ok)
  {}

  lemma FlushExplained(m: Space, args: Command, now: int)
    requires Parse(args) == Flush
    ensures Chain(VOLTKV, Live(m, now), [Point(args, map[], now)])
  {
    LiveLive(m, now, now);
    FlushExec(Live(m, now), args, now);
    SimRefl(map[]);
    ExplainedBy(Live(m, now), Point(args, map[], now));
  }

  lemma ActWellFormed(m: Space, request: Request, args: Command, now: int)
    requires WellFormed(m)
    requires request.Single? ==> Proper(request.op)
    ensures WellFormed(Act(m, request, args, now).space)
  {
    if request.Single? {
      StepWellFormed(m, request.key, request.op, now);
    } else if request.MSet? {
      MSetExplained(m, request.pairs, now);
    }
  }

  /** A request that does nothing to the keyspace. */
  lemma OtherExplained(m: Space, request: Request, args: Command, now: int)
    requires request.MGet? || request.ExistsMany? || request.TimeLeft? || request.Rejected? || request.Elsewhere?
    ensures Act(m, request, args, now).space == Live(m, now) && Act(m, request, args, now).points == []
  {}

  lemma ActExplained(m: Space, request: Request, args: Command, now: int)
    requires WellFormed(m) && Parse(args) == request
    ensures var o := Act(m, request, args, now);
      Chain(VOLTKV, Live(m, now), o.points) && After(Live(m, now), o.points) == o.space
  {
    if request.Single? {
      SingleExplained(m, args, request.key, request.op, now);
    } else if request.MSet? {
      MSetExplained(m, request.pairs, now);
    } else if request.DelMany? {
      DelExplained(m, request.keys, args, now);
    } else if request.Flush? {
      FlushExplained(m, args, now);
    } else {
      OtherExplained(m, request, args, now);
    }
  }

  /** The log filter is sound and complete: starting from what was live, the records a
      command sends lead point by point to what it leaves; in particular a command that
      sends none leaves the live keyspace unchanged. */
  lemma LogExplainsCommand(m: Space, args: Command, now: int)
    requires WellFormed(m)
    ensures var o := Exec(m, args, now);
      && Chain(VOLTKV, Live(m, now), o.points)
      && After(Live(m, now), o.points) == o.space
      && WellFormed(o.space)
      && (o.points == [] ==> o.space == Live(m, now))
  {
    ActExplained(m, Parse(args), args, now);
    ActWellFormed(m, Parse(args), args, now);
  }

  // ---- Exactness ----

  /** The command is a successful increment of a key that has an expiry. */
  ghost predicate LosesExpiry(m: Space, args: Command, now: int) {
    var request := Parse(args);
    request.Single? && IncrementLosesExpiry(Live(m, now), request.key, request.op)
  }

  lemma PlainSetReplays(start: Space, records: seq<Command>, m: Space, k: string, v: string, now: int)
    requires Replay(VOLTKV, start, records, At(now)) == m
    ensures Replay(VOLTKV, start, records + [["SET", k, v]], At(now)) == Step(m, k, Set(v, 0), now).space
  {
    ReplaySnoc(VOLTKV, start, records, ["SET", k, v], At(now));
    PlainSetExec(m, k, v, now);
  }

  lemma {:induction false} MSetReplays(m: Space, pairs: seq<(string, string)>, now: int)
    ensures var o := ExecMSet(m, pairs, now);
      Replay(VOLTKV, Live(m, now), Records(o.points), At(now)) == o.space
  {
    if pairs != [] {
      var n := |pairs| - 1;
      var before := ExecMSet(m, pairs[..n], now);
      var (k, v) := pairs[n];
      MSetReplays(m, pairs[..n], now);
      PlainSetReplays(Live(m, now), Records(before.points), before.space, k, v, now);
      RecordsSnoc(before.points, Point(["SET", k, v], Step(before.space, k, Set(v, 0), now).space, now));
    }
  }

  lemma ActReplays(m: Space, request: Request, args: Command, now: int)
    requires WellFormed(m) && Parse(args) == request
    ensures var o := Act(m, request, args, now);
      var lost := request.Single? && IncrementLosesExpiry(Live(m, now), request.key, request.op);
      Replay(VOLTKV, Live(m, now), Records(o.points), At(now)) == o.space <==> !lost
  {
    var live := Live(m, now);
    var o := Act(m, request, args, now);
    if o.points == [] {
      ActExplained(m, request, args, now);
      assert Records(o.points) == [];
      if request.Single? { SilentIncrement(m, request.key, request.op, args, now); }
    } else {
      match request {
        case Single(key, op) =>
          var p := o.points[0];
          assert Records(o.points) == [p.record];
          ReplayOne(VOLTKV, live, p.record, At(now));
          RecordExplains(m, args, key, op, now, p.record);
        case MSet(pairs) => MSetReplays(m, pairs, now);
        case DelMany(keys) =>
          assert Records(o.points) == [args];
          ReplayOne(VOLTKV, live, args, At(now));
          LiveLive(m, now, now);
          DelExec(live, keys, args, now);
        case Flush =>
          assert Records(o.points) == [args];
          ReplayOne(VOLTKV, live, args, At(now));
          FlushExec(live, args, now);
        case _ =>
      }
    }
  }

  lemma SilentIncrement(m: Space, key: string, op: KeyOp, args: Command, now: int)
    requires ExecSingle(m, key, op, args, now).points == []
    ensures !IncrementLosesExpiry(Live(m, now), key, op)
  {
    if op.IncrBy? {
      assert Record(key, op, Step(m, key, op, now).reply, args).None?;
      assert !Update(op, Look(Live(m, now), key), now).reply.Count?;
    }
  }

  /** Executing a command's records where it ran rebuilds exactly what it left if and only
      if it is not a successful increment of a key with an expiry: that one is logged as a
      plain SET, and its expiry is gone after a replay. */
  lemma LogIsExact(m: Space, args: Command, now: int)
    requires WellFormed(m)
    ensures var o := Exec(m, args, now);
      Replay(VOLTKV, Live(m, now), Records(o.points), At(now)) == o.space <==> !LosesExpiry(m, args, now)
  {
    ActReplays(m, Parse(args), args, now);
  }

  /** An input on which the log is not exact: INCR of a key that has an expiry. */
  lemma IncrementDropsExpiry(k: string)
    ensures var m: Space := map[k := StringEntry(FormatInt(1), Some(10))];
      var o := Exec(m, ["INCR", k], 0);
      && WellFormed(m) && Quiet(m, 0)
      && o.points != [] && o.answer == One(Count(2))
      && Replay(VOLTKV, m, Records(o.points), At(0)) != o.space
  {
    var m: Space := map[k := StringEntry(FormatInt(1), Some(10))];
    var args := ["INCR", k];
    IncrReads();
    ParseFormat(1);
    assert Parse(args) == Single(k, IncrBy(1));
    assert Live(m, 0) == m;
    ExecParsed(m, args, k, IncrBy(1), 0);
    assert LosesExpiry(m, args, 0);
    LogIsExact(m, args, 0);
  }

  lemma IncrReads()
    ensures NameOf("INCR") == NameIncr
  {
    assert Upper("INCR") == "INCR";
  }
}
