/** The command handlers on the sharded store, proved to do what module Commands says. Each
    returns its answer and the record it sends to the log; Executor.Execute appends it. */
module Handlers {
  import opened Basics
  import opened Decimal
  import opened Resp
  import opened Keyspace
  import opened Commands
  import opened ShardedStore

  /** What a handler for one key owes: the operation done and its record given out, or the
      request rejected with nothing touched. */
  ghost predicate Handled(
      before: Space, request: Request, args: Command, now: int, after: Space, record: Option<Command>, answer: Answer)
  {
    match request
    case Single(key, op) =>
      && answer.One?
      && Does(before, key, op, now, after, answer.reply)
      && record == Record(key, op, answer.reply, args)
    case Rejected(why) => after == before && record == None && answer == Error(why)
    case _ => false
  }

  lemma SingleHandled(
      before: Space, request: Request, args: Command, now: int, after: Space, reply: Reply, record: Option<Command>)
    requires request.Single? && Does(before, request.key, request.op, now, after, reply)
    requires record == Record(request.key, request.op, reply, args)
    ensures Handled(before, request, args, now, after, record, One(reply))
  {}

  /** Writes that log themselves unless they are refused. */
  lemma WriteRecords(key: string, op: KeyOp, reply: Reply, args: Command)
    requires op.Append? || op.HSet? || op.LPush? || op.RPush?
    ensures Record(key, op, reply, args) == if reply.Refused? then None else Some(args)
  {}

  /** Writes that log themselves when they answer yes. */
  lemma FlagRecords(key: string, op: KeyOp, done: bool, args: Command)
    requires op.SetNX? || op.SetXX? || op.Expire? || op.Persist?
    ensures Record(key, op, Flag(done), args) == if done then Some(args) else None
  {}

  lemma PopRecords(key: string, op: KeyOp, reply: Reply, args: Command)
    requires op.LPop? || op.RPop?
    ensures Record(key, op, reply, args) == if reply.Text? && reply.text.Some? then Some(args) else None
  {}

  // ---- SET ----

  method ParseSetOpts(opts: Command) returns (r: Option<SetOpts>)
    ensures r == SetOptsFrom(opts, NO_OPTS, false)
  {
    var i := 0;
    var haveTTL := false;
    var ttl, nx, xx := 0, false, false;
    while i < |opts|
      invariant i <= |opts|
      invariant SetOptsFrom(opts, NO_OPTS, false) == SetOptsFrom(opts[i..], SetOpts(ttl, nx, xx), haveTTL)
      decreases |opts| - i
    {
      var u := Upper(opts[i]);
      assert opts[i..][1..] == opts[i + 1..];
      if u == "EX" || u == "PX" {
        if haveTTL || i + 1 >= |opts| {
          return None;
        }
        assert opts[i..][2..] == opts[i + 2..];
        var amount := ParseInt(opts[i + 1]);
        if amount.None? || amount.value <= 0 {
          return None;
        }
        ttl := Wrap64(amount.value * (if u == "EX" then SECOND else MILLISECOND));
        haveTTL := true;
        i := i + 2;
      } else if u == "NX" {
        if xx {
          return None;
        }
        nx := true;
        i := i + 1;
      } else if u == "XX" {
        if nx {
          return None;
        }
        xx := true;
        i := i + 1;
      } else {
        return None;
      }
    }
    return Some(SetOpts(ttl, nx, xx));
  }

  method CmdSet(store: Store, args: Command, now: int) returns (answer: Answer, record: Option<Command>)
    requires store.Valid() && |args| >= 1
    modifies store.shards
    ensures store.Valid()
    ensures Handled(old(store.Physical()), SetRequest(args), args, now, store.Physical(), record, answer)
  {
    if |args| < 3 {
      return Error(WrongArity), None;
    }
    var opts := ParseSetOpts(args[3..]);
    if opts.None? {
      return Error(BadSyntax), None;
    }
    var o := opts.value;
    if o.nx {
      var stored := store.SetNX(args[1], args[2], o.ttl, now);
      return One(Flag(stored)), if stored then Some(args) else None;
    }
    if o.xx {
      var stored := store.SetXX(args[1], args[2], o.ttl, now);
      return One(Flag(stored)), if stored then Some(args) else None;
    }
    store.Set(args[1], args[2], o.ttl, now);
    return One(Done), Some(args);
  }

  // ---- Strings ----

  method CmdGet(store: Store, args: Command, now: int) returns (answer: Answer, record: Option<Command>)
    requires store.Valid() && |args| >= 1
    modifies store.shards
    ensures store.Valid()
    ensures Handled(old(store.Physical()), OnKey(args, Get), args, now, store.Physical(), record, answer)
  {
    if |args| != 2 {
      return Error(WrongArity), None;
    }
    var r := store.Get(args[1], now);
    return One(r), None;
  }

  method CmdGetSet(store: Store, args: Command, now: int) returns (answer: Answer, record: Option<Command>)
    requires store.Valid() && |args| >= 1
    modifies store.shards
    ensures store.Valid()
    ensures Handled(old(store.Physical()), GetSetRequest(args), args, now, store.Physical(), record, answer)
  {
    if |args| != 3 {
      return Error(WrongArity), None;
    }
    assert GetSetRequest(args) == Single(args[1], GetSet(args[2]));
    var r := store.GetSet(args[1], args[2], now);
    return One(r), if r.Refused? then None else Some(["SET", args[1], args[2]]);
  }

  method CmdAppend(store: Store, args: Command, now: int) returns (answer: Answer, record: Option<Command>)
    requires store.Valid() && |args| >= 1
    modifies store.shards
    ensures store.Valid()
    ensures Handled(old(store.Physical()), AppendRequest(args), args, now, store.Physical(), record, answer)
  {
    if |args| != 3 {
      return Error(WrongArity), None;
    }
    var r := store.Append(args[1], args[2], now);
    return One(r), if r.Refused? then None else Some(args);
  }

  /** Increments and logs the value reached as a plain SET. */
  method Increment(store: Store, args: Command, delta: int, now: int) returns (answer: Answer, record: Option<Command>)
    requires store.Valid() && |args| >= 2
    modifies store.shards
    ensures store.Valid()
    ensures Handled(
      old(store.Physical()), Single(args[1], IncrBy(delta)), args, now, store.Physical(), record, answer)
  {
    var r := store.IncrBy(args[1], delta, now);
    return One(r), if r.Count? then Some(["SET", args[1], FormatInt(r.n)]) else None;
  }

  /** INCR and DECR. */
  method CmdIncr(store: Store, args: Command, fixed: int, now: int) returns (answer: Answer, record: Option<Command>)
    requires store.Valid() && |args| >= 1
    modifies store.shards
    ensures store.Valid()
    ensures Handled(old(store.Physical()), OnKey(args, IncrBy(fixed)), args, now, store.Physical(), record, answer)
  {
    if |args| != 2 {
      return Error(WrongArity), None;
    }
    answer, record := Increment(store, args, fixed, now);
  }

  /** INCRBY and DECRBY. Negating the least int64 wraps around to itself. */
  method CmdIncrBy(store: Store, args: Command, negate: bool, now: int) returns (answer: Answer, record: Option<Command>)
    requires store.Valid() && |args| >= 1
    modifies store.shards
    ensures store.Valid()
    ensures Handled(old(store.Physical()), IncrByRequest(args, negate), args, now, store.Physical(), record, answer)
  {
    if |args| != 3 {
      return Error(WrongArity), None;
    }
    var n := ParseInt(args[2]);
    if n.None? {
      return Error(BadNumber), None;
    }
    var delta := n.value;
    if negate {
      delta := Wrap64(-delta);
    }
    assert IncrByRequest(args, negate) == Single(args[1], IncrBy(delta));
    answer, record := Increment(store, args, delta, now);
  }

  // ---- Any kind ----

  method CmdType(store: Store, args: Command, now: int) returns (answer: Answer, record: Option<Command>)
    requires store.Valid() && |args| >= 1
    modifies store.shards
    ensures store.Valid()
    ensures Handled(old(store.Physical()), OnKey(args, TypeOf), args, now, store.Physical(), record, answer)
  {
    if |args| != 2 {
      return Error(WrongArity), None;
    }
    var kind := store.Type(args[1], now);
    return One(KindIs(kind)), None;
  }

  method CmdExpire(store: Store, args: Command, duration: int, now: int) returns (answer: Answer, record: Option<Command>)
    requires store.Valid() && |args| >= 1
    modifies store.shards
    ensures store.Valid()
    ensures Handled(old(store.Physical()), ExpireRequest(args, duration), args, now, store.Physical(), record, answer)
  {
    if |args| != 3 {
      return Error(WrongArity), None;
    }
    var amount := ParseInt(args[2]);
    if amount.None? {
      return Error(BadNumber), None;
    }
    ghost var before, request := store.Physical(), ExpireRequest(args, duration);
    assert request == Single(args[1], Expire(Wrap64(amount.value * duration)));
    var done := store.Expire(args[1], Wrap64(amount.value * duration), now);
    FlagRecords(args[1], request.op, done, args);
    answer, record := One(Flag(done)), if done then Some(args) else None;
    SingleHandled(before, request, args, now, store.Physical(), Flag(done), record);
  }

  /** TTL and PTTL: the number that goes to the client. */
  method CmdTTL(store: Store, args: Command, milli: bool, now: int) returns (answer: Answer)
    requires store.Valid() && |args| >= 1
    ensures answer == Act(store.Physical(), TTLRequest(args, milli), args, now).answer
  {
    if |args| != 2 {
      return Error(WrongArity);
    }
    var r := store.TTL(args[1], now, now);
    TTLReads(store.Physical(), args[1], now, r);
    if !r.found {
      return Total(-2);
    }
    if r.left.None? {
      return Total(-1);
    }
    return Total(TTLCode(r, if milli then MILLISECOND else SECOND));
  }

  lemma TTLReads(m: Space, key: string, now: int, r: Reply)
    requires Does(m, key, KeyOp.TTL, now, m, r)
    ensures r == Update(KeyOp.TTL, Look(Live(m, now), key), now).reply
  {}

  method CmdPersist(store: Store, args: Command, now: int) returns (answer: Answer, record: Option<Command>)
    requires store.Valid() && |args| >= 1
    modifies store.shards
    ensures store.Valid()
    ensures Handled(old(store.Physical()), OnKey(args, Persist), args, now, store.Physical(), record, answer)
  {
    if |args| != 2 {
      return Error(WrongArity), None;
    }
    ghost var before, request := store.Physical(), OnKey(args, Persist);
    assert request == Single(args[1], Persist);
    var done := store.Persist(args[1], now);
    FlagRecords(args[1], request.op, done, args);
    answer, record := One(Flag(done)), if done then Some(args) else None;
    SingleHandled(before, request, args, now, store.Physical(), Flag(done), record);
  }

  // ---- Hashes ----

  method CmdHSet(store: Store, args: Command, now: int) returns (answer: Answer, record: Option<Command>)
    requires store.Valid() && |args| >= 1
    modifies store.shards
    ensures store.Valid()
    ensures Handled(old(store.Physical()), HSetRequest(args), args, now, store.Physical(), record, answer)
  {
    if |args| < 4 || |args| % 2 != 0 {
      return Error(WrongArity), None;
    }
    var pairs: seq<(string, string)> := [];
    var i := 2;
    while i + 1 < |args|
      invariant i == 2 * |pairs| + 2 && i <= |args|
      invariant forall j :: 0 <= j < |pairs| ==> pairs[j] == (args[2 + 2 * j], args[3 + 2 * j])
    {
      pairs := pairs + [(args[i], args[i + 1])];
      i := i + 2;
    }
    assert pairs == PairUp(args[2..]);
    ghost var before, request := store.Physical(), HSetRequest(args);
    assert request == Single(args[1], HSet(pairs));
    var r := store.HSet(args[1], pairs, now);
    WriteRecords(args[1], request.op, r, args);
    answer, record := One(r), if r.Refused? then None else Some(args);
    SingleHandled(before, request, args, now, store.Physical(), r, record);
  }

  method CmdHGet(store: Store, args: Command, now: int) returns (answer: Answer, record: Option<Command>)
    requires store.Valid() && |args| >= 1
    modifies store.shards
    ensures store.Valid()
    ensures Handled(old(store.Physical()), HGetRequest(args), args, now, store.Physical(), record, answer)
  {
    if |args| != 3 {
      return Error(WrongArity), None;
    }
    var r := store.HGet(args[1], args[2], now);
    return One(r), None;
  }

  method CmdHDel(store: Store, args: Command, now: int) returns (answer: Answer, record: Option<Command>)
    requires store.Valid() && |args| >= 1
    modifies store.shards
    ensures store.Valid()
    ensures Handled(old(store.Physical()), HDelRequest(args), args, now, store.Physical(), record, answer)
  {
    if |args| < 3 {
      return Error(WrongArity), None;
    }
    assert HDelRequest(args) == Single(args[1], HDel(args[2..]));
    var r := store.HDel(args[1], args[2..], now);
    return One(r), if r.Count? && r.n > 0 then Some(args) else None;
  }

  // ---- Lists ----

  method CmdPush(store: Store, args: Command, left: bool, now: int) returns (answer: Answer, record: Option<Command>)
    requires store.Valid() && |args| >= 1
    modifies store.shards
    ensures store.Valid()
    ensures Handled(old(store.Physical()), PushRequest(args, left), args, now, store.Physical(), record, answer)
  {
    if |args| < 3 {
      return Error(WrongArity), None;
    }
    ghost var before, request := store.Physical(), PushRequest(args, left);
    assert request == Single(args[1], if left then LPush(args[2..]) else RPush(args[2..]));
    var r;
    if left {
      r := store.LPush(args[1], args[2..], now);
    } else {
      r := store.RPush(args[1], args[2..], now);
    }
    WriteRecords(args[1], request.op, r, args);
    answer, record := One(r), if r.Refused? then None else Some(args);
    SingleHandled(before, request, args, now, store.Physical(), r, record);
  }

  method CmdPop(store: Store, args: Command, left: bool, now: int) returns (answer: Answer, record: Option<Command>)
    requires store.Valid() && |args| >= 1
    modifies store.shards
    ensures store.Valid()
    ensures Handled(
      old(store.Physical()), OnKey(args, if left then LPop else RPop), args, now, store.Physical(), record, answer)
  {
    if |args| != 2 {
      return Error(WrongArity), None;
    }
    ghost var before, request := store.Physical(), OnKey(args, if left then LPop else RPop);
    assert request == Single(args[1], if left then LPop else RPop);
    var r;
    if left {
      r := store.LPop(args[1], now);
    } else {
      r := store.RPop(args[1], now);
    }
    PopRecords(args[1], request.op, r, args);
    answer, record := One(r), if r.Text? && r.text.Some? then Some(args) else None;
    SingleHandled(before, request, args, now, store.Physical(), r, record);
  }

  method CmdLIndex(store: Store, args: Command, now: int) returns (answer: Answer, record: Option<Command>)
    requires store.Valid() && |args| >= 1
    modifies store.shards
    ensures store.Valid()
    ensures Handled(old(store.Physical()), IndexRequest(args), args, now, store.Physical(), record, answer)
  {
    if |args| != 3 {
      return Error(WrongArity), None;
    }
    var index := ParseInt(args[2]);
    if index.None? {
      return Error(BadNumber), None;
    }
    var r := store.LIndex(args[1], index.value, now);
    return One(r), None;
  }

  method CmdLRange(store: Store, args: Command, now: int) returns (answer: Answer, record: Option<Command>)
    requires store.Valid() && |args| >= 1
    modifies store.shards
    ensures store.Valid()
    ensures Handled(old(store.Physical()), RangeRequest(args), args, now, store.Physical(), record, answer)
  {
    if |args| != 4 {
      return Error(WrongArity), None;
    }
    var start, stop := ParseInt(args[2]), ParseInt(args[3]);
    if start.None? || stop.None? {
      return Error(BadNumber), None;
    }
    var r := store.LRange(args[1], start.value, stop.value, now);
    return One(r), None;
  }
}
