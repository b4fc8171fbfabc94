/** The command layer: how an argument list becomes operations on the keyspace, and which
    records each command sends to the log. */
module Commands {
  import opened Basics
  import opened Decimal
  import opened Resp
  import opened Keyspace

  const SECOND: int := 1_000_000_000
  const MILLISECOND: int := 1_000_000

  // ---- Reading the arguments ----

  function UpperChar(c: char): char {
    if 'a' <= c <= 'z' then 'A' + (c - 'a') else c
  }

  function Upper(s: string): (r: string)
    ensures |r| == |s|
    ensures forall i :: 0 <= i < |s| ==> r[i] == UpperChar(s[i])
  {
    seq(|s|, i requires 0 <= i < |s| => UpperChar(s[i]))
  }

  datatype Name =
    | NameSet | NameGet | NameGetSet | NameAppend | NameIncr | NameDecr | NameIncrBy | NameDecrBy
    | NameMGet | NameMSet | NameDel | NameExists | NameType | NameExpire | NamePExpire | NameTTL
    | NamePTTL | NamePersist | NameFlushDB | NameHSet | NameHGet | NameHDel | NameLPush | NameRPush
    | NameLPop | NameRPop | NameLIndex | NameLRange | NameOther

  function NameOf(word: string): Name {
    Known(Upper(word))
  }

  function Known(u: string): Name {
    if u == "SET" then NameSet
    else if u == "GET" then NameGet
    else if u == "GETSET" then NameGetSet
    else if u == "APPEND" then NameAppend
    else if u == "INCR" then NameIncr
    else if u == "DECR" then NameDecr
    else if u == "INCRBY" then NameIncrBy
    else if u == "DECRBY" then NameDecrBy
    else if u == "MGET" then NameMGet
    else if u == "MSET" then NameMSet
    else if u == "DEL" then NameDel
    else if u == "EXISTS" then NameExists
    else if u == "TYPE" then NameType
    else if u == "EXPIRE" then NameExpire
    else if u == "PEXPIRE" then NamePExpire
    else if u == "TTL" then NameTTL
    else if u == "PTTL" then NamePTTL
    else if u == "PERSIST" then NamePersist
    else if u == "FLUSHDB" then NameFlushDB
    else if u == "HSET" then NameHSet
    else if u == "HGET" then NameHGet
    else if u == "HDEL" then NameHDel
    else if u == "LPUSH" then NameLPush
    else if u == "RPUSH" then NameRPush
    else if u == "LPOP" then NameLPop
    else if u == "RPOP" then NameRPop
    else if u == "LINDEX" then NameLIndex
    else if u == "LRANGE" then NameLRange
    else NameOther
  }

  datatype SetOpts = SetOpts(ttl: int, nx: bool, xx: bool)

  const NO_OPTS: SetOpts := SetOpts(0, false, false)

  /** The options of SET still to be read, given those already seen. */
  function SetOptsFrom(opts: Command, seen: SetOpts, haveTTL: bool): Option<SetOpts> {
    if opts == [] then Some(seen) else
    var u := Upper(opts[0]);
    if u == "EX" || u == "PX" then
      if haveTTL || |opts| < 2 then None else
      match ParseInt(opts[1])
      case None => None
      case Some(n) =>
        if n <= 0 then None
        else SetOptsFrom(opts[2..], seen.(ttl := Wrap64(n * (if u == "EX" then SECOND else MILLISECOND))), true)
    else if u == "NX" then
      if seen.xx then None else SetOptsFrom(opts[1..], seen.(nx := true), haveTTL)
    else if u == "XX" then
      if seen.nx then None else SetOptsFrom(opts[1..], seen.(xx := true), haveTTL)
    else None
  }

  datatype Why = WrongArity | BadNumber | BadSyntax | InSubscribeMode

  /** What a command asks of the keyspace; `Elsewhere` asks nothing of it. */
  datatype Request =
    | Single(key: string, op: KeyOp)
    | MSet(pairs: seq<(string, string)>)
    | MGet(keys: seq<string>)
    | DelMany(keys: seq<string>)
    | ExistsMany(keys: seq<string>)
    | TimeLeft(key: string, milli: bool)
    | Flush
    | Rejected(why: Why)
    | Elsewhere

  function PairUp(args: Command): (r: seq<(string, string)>)
    ensures |r| == |args| / 2
  {
    seq(|args| / 2, i requires 0 <= i < |args| / 2 => (args[2 * i], args[2 * i + 1]))
  }

  function SetRequest(args: Command): Request
    requires |args| >= 1
  {
    if |args| < 3 then Rejected(WrongArity) else
    match SetOptsFrom(args[3..], NO_OPTS, false)
    case None => Rejected(BadSyntax)
    case Some(o) =>
      Single(args[1],
        if o.nx then SetNX(args[2], o.ttl) else if o.xx then SetXX(args[2], o.ttl) else Set(args[2], o.ttl))
  }

  function ExpireRequest(args: Command, duration: int): Request
    requires |args| >= 1
  {
    if |args| != 3 then Rejected(WrongArity) else
    match ParseInt(args[2])
    case None => Rejected(BadNumber)
    case Some(n) => Single(args[1], Expire(Wrap64(n * duration)))
  }

  function IncrByRequest(args: Command, negate: bool): Request
    requires |args| >= 1
  {
    if |args| != 3 then Rejected(WrongArity) else
    match ParseInt(args[2])
    case None => Rejected(BadNumber)
    case Some(n) => Single(args[1], IncrBy(if negate then Wrap64(-n) else n))
  }

  /** A command that takes exactly one key and nothing else. */
  function OnKey(args: Command, op: KeyOp): Request {
    if |args| != 2 then Rejected(WrongArity) else Single(args[1], op)
  }

  function TTLRequest(args: Command, milli: bool): Request {
    if |args| != 2 then Rejected(WrongArity) else TimeLeft(args[1], milli)
  }

  function GetSetRequest(args: Command): Request {
    if |args| != 3 then Rejected(WrongArity) else Single(args[1], GetSet(args[2]))
  }

  function AppendRequest(args: Command): Request {
    if |args| != 3 then Rejected(WrongArity) else Single(args[1], Append(args[2]))
  }

  function HSetRequest(args: Command): Request {
    if |args| < 4 || |args| % 2 != 0 then Rejected(WrongArity) else Single(args[1], HSet(PairUp(args[2..])))
  }

  function HGetRequest(args: Command): Request {
    if |args| != 3 then Rejected(WrongArity) else Single(args[1], HGet(args[2]))
  }

  function HDelRequest(args: Command): Request {
    if |args| < 3 then Rejected(WrongArity) else Single(args[1], HDel(args[2..]))
  }

  function PushRequest(args: Command, left: bool): Request {
    if |args| < 3 then Rejected(WrongArity)
    else Single(args[1], if left then LPush(args[2..]) else RPush(args[2..]))
  }

  function MGetRequest(args: Command): Request {
    if |args| < 2 then Rejected(WrongArity) else MGet(args[1..])
  }

  function MSetRequest(args: Command): Request {
    if |args| < 3 || |args| % 2 != 1 then Rejected(WrongArity) else MSet(PairUp(args[1..]))
  }

  function DelRequest(args: Command): Request {
    if |args| < 2 then Rejected(WrongArity) else DelMany(args[1..])
  }

  function ExistsRequest(args: Command): Request {
    if |args| < 2 then Rejected(WrongArity) else ExistsMany(args[1..])
  }

  function RangeRequest(args: Command): Request {
    if |args| != 4 then Rejected(WrongArity) else
    var start, stop := ParseInt(args[2]), ParseInt(args[3]);
    if start.None? || stop.None? then Rejected(BadNumber)
    else Single(args[1], LRange(start.value, stop.value))
  }

  function IndexRequest(args: Command): Request {
    if |args| != 3 then Rejected(WrongArity) else
    match ParseInt(args[2])
    case None => Rejected(BadNumber)
    case Some(i) => Single(args[1], LIndex(i))
  }

  function Parse(args: Command): (r: Request)
    ensures r.Single? ==> Proper(r.op) && !r.op.Del?
  {
    if args == [] then Elsewhere else ParseNamed(NameOf(args[0]), args)
  }

  function ParseNamed(name: Name, args: Command): (r: Request)
    requires args != []
    ensures r.Single? ==> Proper(r.op) && !r.op.Del?
  {
    match name
    case NameSet => SetRequest(args)
    case NameGet => OnKey(args, Get)
    case NameGetSet => GetSetRequest(args)
    case NameAppend => AppendRequest(args)
    case NameIncr => OnKey(args, IncrBy(1))
    case NameDecr => OnKey(args, IncrBy(-1))
    case NameIncrBy => IncrByRequest(args, false)
    case NameDecrBy => IncrByRequest(args, true)
    case NameMGet => MGetRequest(args)
    case NameMSet => MSetRequest(args)
    case NameDel => DelRequest(args)
    case NameExists => ExistsRequest(args)
    case NameType => OnKey(args, TypeOf)
    case NameExpire => ExpireRequest(args, SECOND)
    case NamePExpire => ExpireRequest(args, MILLISECOND)
    case NameTTL => TTLRequest(args, false)
    case NamePTTL => TTLRequest(args, true)
    case NamePersist => OnKey(args, Persist)
    case NameFlushDB => Flush
    case NameHSet => HSetRequest(args)
    case NameHGet => HGetRequest(args)
    case NameHDel => HDelRequest(args)
    case NameLPush => PushRequest(args, true)
    case NameRPush => PushRequest(args, false)
    case NameLPop => OnKey(args, LPop)
    case NameRPop => OnKey(args, RPop)
    case NameLIndex => IndexRequest(args)
    case NameLRange => RangeRequest(args)
    case NameOther => Elsewhere
  }

  // ---- Acting and logging ----

  /** The number TTL and PTTL answer for what the store says: the whole units left, rounded
      towards zero, or a code. */
  function TTLCode(r: Reply, unit: int): int
    requires r.Remaining? && unit > 0
  {
    if !r.found then -2
    else if r.left.None? then -1
    else if r.left.value >= 0 then r.left.value / unit
    else -(-r.left.value / unit)
  }

  /** A record sent to the log, the live keyspace as it stood then, and the instant. */
  datatype Point = Point(record: Command, space: Space, time: int)

  datatype Answer =
    | Ok
    | One(reply: Reply)
    | Total(n: int)
    | Values(values: seq<Option<string>>)
    | Error(why: Why)
    | NotKeyspace

  datatype Outcome = Outcome(space: Space, points: seq<Point>, answer: Answer)

  /** The record a single-key command appends once it has been answered with `reply`. */
  function Record(key: string, op: KeyOp, reply: Reply, args: Command): Option<Command> {
    match op
    case Set(_, _) => Some(args)
    case SetNX(_, _) => if reply == Flag(true) then Some(args) else None
    case SetXX(_, _) => if reply == Flag(true) then Some(args) else None
    case Expire(_) => if reply == Flag(true) then Some(args) else None
    case Persist => if reply == Flag(true) then Some(args) else None
    case Append(_) => if reply.Refused? then None else Some(args)
    case HSet(_) => if reply.Refused? then None else Some(args)
    case LPush(_) => if reply.Refused? then None else Some(args)
    case RPush(_) => if reply.Refused? then None else Some(args)
    case HDel(_) => if reply.Count? && reply.n > 0 then Some(args) else None
    case LPop => if reply.Text? && reply.text.Some? then Some(args) else None
    case RPop => if reply.Text? && reply.text.Some? then Some(args) else None
    case GetSet(value) => if reply.Refused? then None else Some(["SET", key, value])
    case IncrBy(_) => if reply.Count? then Some(["SET", key, FormatInt(reply.n)]) else None
    case _ => None
  }

  function ExecSingle(m: Space, key: string, op: KeyOp, args: Command, now: int): Outcome {
    var next := Step(m, key, op, now);
    Outcome(
      next.space,
      match Record(key, op, next.reply, args)
      case Some(record) => [Point(record, next.space, now)]
      case None => [],
      One(next.reply))
  }

  function ExecMSet(m: Space, pairs: seq<(string, string)>, now: int): Outcome {
    if pairs == [] then Outcome(Live(m, now), [], Ok) else
    var before := ExecMSet(m, pairs[..|pairs| - 1], now);
    var last := pairs[|pairs| - 1];
    var after := Step(before.space, last.0, Set(last.1, 0), now).space;
    Outcome(after, before.points + [Point(["SET", last.0, last.1], after, now)], Ok)
  }

  function ExecDel(m: Space, keys: seq<string>, args: Command, now: int): Outcome {
    var live := Live(m, now);
    var after := live - Elements(keys);
    Outcome(after, if |live| > |after| then [Point(args, after, now)] else [], Total(|live| - |after|))
  }

  function CountPresent(m: Space, keys: seq<string>): nat {
    if keys == [] then 0
    else CountPresent(m, keys[..|keys| - 1]) + if keys[|keys| - 1] in m then 1 else 0
  }

  function StringAt(m: Space, k: string): Option<string> {
    if k in m && m[k].kind == KindString then Some(m[k].str) else None
  }

  function TTLAnswer(e: Option<Entry>, milli: bool, now: int): int {
    TTLCode(Update(TTL, e, now).reply, if milli then MILLISECOND else SECOND)
  }

  function Act(m: Space, request: Request, args: Command, now: int): Outcome {
    match request
    case Single(key, op) => ExecSingle(m, key, op, args, now)
    case MSet(pairs) => ExecMSet(m, pairs, now)
    case MGet(keys) =>
      var live := Live(m, now);
      Outcome(live, [], Values(seq(|keys|, i requires 0 <= i < |keys| => StringAt(live, keys[i]))))
    case DelMany(keys) => ExecDel(m, keys, args, now)
    case ExistsMany(keys) => Outcome(Live(m, now), [], Total(CountPresent(Live(m, now), keys)))
    case TimeLeft(key, milli) => Outcome(Live(m, now), [], Total(TTLAnswer(Look(Live(m, now), key), milli, now)))
    case Flush => Outcome(map[], [Point(args, map[], now)], Ok)
    case Rejected(why) => Outcome(Live(m, now), [], Error(why))
    case Elsewhere => Outcome(Live(m, now), [], NotKeyspace)
  }

  /** One command at instant `now`, outside subscribe mode. */
  function Exec(m: Space, args: Command, now: int): Outcome {
    Act(m, Parse(args), args, now)
  }

  /** The keys whose deadline a request sets when it is carried out on `m` at `now`. */
  function StampsOf(m: Space, request: Request, now: int): string -> bool {
    (k: string) => request.Single? && k == request.key && SetsDeadline(request.op, Look(Live(m, now), k))
  }

  /** The keys whose deadline a command sets. */
  function Stamps(m: Space, args: Command, now: int): string -> bool {
    StampsOf(m, Parse(args), now)
  }

  predicate SetsNoDeadline(request: Request) {
    match request
    case Single(_, op) =>
      (match op
       case Set(_, ttl) => ttl <= 0
       case SetNX(_, ttl) => ttl <= 0
       case SetXX(_, ttl) => ttl <= 0
       case Expire(_) => false
       case _ => true)
    case _ => true
  }

  /** The command sets no deadline: no EX or PX, no EXPIRE or PEXPIRE. */
  predicate TtlFree(args: Command) {
    SetsNoDeadline(Parse(args))
  }

  /** -2 means that there is no live key, -1 that it has no deadline; any other answer is the
      number of whole units that remain. */
  lemma TTLCodeMeans(e: Option<Entry>, unit: int, now: int)
    requires unit > 0 && LiveEntry(e, now) == e
    ensures var r := Update(TTL, e, now).reply;
      && r.Remaining?
      && (TTLCode(r, unit) == -2 <==> e.None?)
      && (TTLCode(r, unit) == -1 <==> e.Some? && e.value.expiresAt.None?)
      && (e.Some? && e.value.expiresAt.Some? ==>
            var left := Until(e.value.expiresAt.value, now);
            TTLCode(r, unit) * unit <= left < (TTLCode(r, unit) + 1) * unit)
  {
    if e.Some? && e.value.expiresAt.Some? {
      var left := Until(e.value.expiresAt.value, now);
      assert left >= 0;
      assert left == unit * (left / unit) + left % unit;
    }
  }

  /** The store reads the clock once to find the key and once more for what remains. If the
      second reading is past the deadline by a whole unit, the number of a live key is a code:
      exactly then it says that the key has no deadline, or does not exist. */
  lemma TTLCodeLate(e: Entry, unit: int, later: int)
    requires unit > 0 && e.expiresAt.Some?
    ensures var r, left := Update(TTL, Some(e), later).reply, Until(e.expiresAt.value, later);
      && (TTLCode(r, unit) == -1 <==> -2 * unit < left <= -unit)
      && (TTLCode(r, unit) == -2 <==> -3 * unit < left <= -2 * unit)
      && (TTLCode(r, unit) >= 0 <==> -unit < left)
  {
    var left := Until(e.expiresAt.value, later);
    if left >= 0 {
      QuotientRange(left, unit, left / unit);
    } else {
      QuotientRange(-left, unit, (-left) / unit);
    }
  }

  lemma QuotientRange(n: nat, unit: int, q: int)
    requires unit > 0 && q == n / unit
    ensures q >= 0 && q * unit <= n < q * unit + unit
    ensures q >= 1 <==> n >= unit
    ensures q >= 2 <==> n >= 2 * unit
    ensures q >= 3 <==> n >= 3 * unit
  {
    assert n == unit * (n / unit) + n % unit;
  }

  // ---- Facts about the arguments ----

  lemma SetReads()
    ensures NameOf("SET") == NameSet
  {
    assert Upper("SET") == "SET";
  }

  lemma HSetReads()
    ensures NameOf("HSET") == NameHSet
  {
    assert Upper("HSET") == "HSET";
  }

  lemma RPushReads()
    ensures NameOf("RPUSH") == NameRPush
  {
    assert Upper("RPUSH") == "RPUSH";
  }

  lemma PExpireReads()
    ensures NameOf("PEXPIRE") == NamePExpire
  {
    assert Upper("PEXPIRE") == "PEXPIRE";
  }

  /** A plain SET record, as GETSET, INCR and MSET write it, reads back as that assignment. */
  lemma PlainSetParses(k: string, v: string)
    ensures Parse(["SET", k, v]) == Single(k, Set(v, 0))
  {
    SetReads();
    var args := ["SET", k, v];
    assert args[3..] == [];
  }

  /** SET options never combine NX with XX. */
  lemma {:induction false} SetOptsExclusive(opts: Command, seen: SetOpts, haveTTL: bool)
    requires !(seen.nx && seen.xx)
    ensures var r := SetOptsFrom(opts, seen, haveTTL); r.Some? ==> !(r.value.nx && r.value.xx)
  {
    if opts != [] {
      var u := Upper(opts[0]);
      if u == "EX" || u == "PX" {
        if !haveTTL && |opts| >= 2 && ParseInt(opts[1]).Some? && ParseInt(opts[1]).value > 0 {
          var ttl := Wrap64(ParseInt(opts[1]).value * (if u == "EX" then SECOND else MILLISECOND));
          SetOptsExclusive(opts[2..], seen.(ttl := ttl), true);
        }
      } else if u == "NX" && !seen.xx {
        SetOptsExclusive(opts[1..], seen.(nx := true), haveTTL);
      } else if u == "XX" && !seen.nx {
        SetOptsExclusive(opts[1..], seen.(xx := true), haveTTL);
      }
    }
  }
}
