/** What commands leave alone: reads change nothing, refusals change nothing, and what changes
    nothing is not logged. */
module SideEffects {
  import opened Basics
  import opened Decimal
  import opened Resp
  import opened Keyspace
  import opened Commands
  import opened LogFilter
  import opened Words
  import opened ClientRuns

  ghost predicate LeavesAll(m: Space, now: int, o: Outcome) {
    o.space == Live(m, now) && o.points == []
  }

  // ---- Reads ----

  /** Commands that only look. */
  predicate IsRead(name: Name) {
    name.NameGet? || name.NameMGet? || name.NameExists? || name.NameType? || name.NameTTL? || name.NamePTTL?
    || name.NameHGet? || name.NameLIndex? || name.NameLRange?
  }

  predicate ReadsOnly(request: Request) {
    match request
    case Single(_, op) => op.Get? || op.TypeOf? || op.HGet? || op.LIndex? || op.LRange?
    case MGet(_) => true
    case ExistsMany(_) => true
    case TimeLeft(_, _) => true
    case Rejected(_) => true
    case _ => false
  }

  lemma ReadParses(name: Name, args: Command)
    requires IsRead(name) && args != []
    ensures ReadsOnly(ParseNamed(name, args))
  {}

  lemma ReadStep(m: Space, key: string, op: KeyOp, now: int)
    requires op.Get? || op.TypeOf? || op.HGet? || op.LIndex? || op.LRange?
    ensures Step(m, key, op, now).space == Live(m, now)
  {
    PutLive(m, key, now);
  }

  /** Reads, in any case and with any arguments, change and log nothing. */
  lemma ReadsLeaveAll(m: Space, args: Command, name: Name, now: int)
    requires IsRead(name) && Calls(args, WordOf(name))
    ensures LeavesAll(m, now, Exec(m, args, now))
  {
    CalledBy(args, name);
    ReadParses(name, args);
    ReadRequests(m, Parse(args), args, now);
  }

  lemma ReadRequests(m: Space, request: Request, args: Command, now: int)
    requires ReadsOnly(request)
    ensures LeavesAll(m, now, Act(m, request, args, now))
  {
    if request.Single? {
      ReadStep(m, request.key, request.op, now);
    }
  }

  // ---- Refusals ----

  /** A command whose arguments are wrong, or that meets a key of another kind, a text that is no
      number or a sum out of range, changes and logs nothing. */
  lemma RefusalsLeaveAll(m: Space, args: Command, now: int)
    requires var answer := Exec(m, args, now).answer; answer.Error? || (answer.One? && answer.reply.Refused?)
    ensures LeavesAll(m, now, Exec(m, args, now))
  {
    RefusedRequests(m, Parse(args), args, now);
  }

  lemma RefusedRequests(m: Space, request: Request, args: Command, now: int)
    requires var answer := Act(m, request, args, now).answer; answer.Error? || (answer.One? && answer.reply.Refused?)
    ensures LeavesAll(m, now, Act(m, request, args, now))
  {
    if request.Single? {
      RefusedSingle(m, request.key, request.op, args, now);
    } else if request.MSet? {
      MSetIsNoError(m, request.pairs, now);
    }
  }

  lemma RefusedSingle(m: Space, key: string, op: KeyOp, args: Command, now: int)
    requires ExecSingle(m, key, op, args, now).answer.reply.Refused?
    ensures LeavesAll(m, now, ExecSingle(m, key, op, args, now))
  {
    RefusedChangesNothing(m, key, op, now);
    RefusedLogsNothing(key, op, Step(m, key, op, now).reply, args);
  }

  lemma RefusedLogsNothing(key: string, op: KeyOp, reply: Reply, args: Command)
    requires reply.Refused? && !op.Set?
    ensures Record(key, op, reply, args) == None
  {}

  lemma MSetIsNoError(m: Space, pairs: seq<(string, string)>, now: int)
    ensures ExecMSet(m, pairs, now).answer == Ok
  {}

  // ---- Other words ----

  /** A command called by none of the words is none of the keyspace's business. */
  lemma OthersLeaveAll(m: Space, args: Command, now: int)
    requires forall name: Name :: !name.NameOther? ==> !Calls(args, WordOf(name))
    ensures var o := Exec(m, args, now); o.answer == NotKeyspace && LeavesAll(m, now, o)
  {
    if args != [] {
      NamedCalls(args);
      assert NameOf(args[0]).NameOther?;
    }
    ElsewhereLeavesAll(m, args, now);
  }

  lemma ElsewhereLeavesAll(m: Space, args: Command, now: int)
    requires args == [] || NameOf(args[0]).NameOther?
    ensures var o := Exec(m, args, now); o.answer == NotKeyspace && LeavesAll(m, now, o)
  {
    assert Parse(args) == Elsewhere;
  }

  // ---- Commands that set no deadline ----

  lemma FreeNamed(name: Name, args: Command)
    requires args != [] && !name.NameSet? && !name.NameExpire? && !name.NamePExpire?
    ensures SetsNoDeadline(ParseNamed(name, args))
  {}

  lemma FreeSet(args: Command)
    requires args != []
    requires forall i :: 3 <= i < |args| ==> !Spells(args[i], "EX") && !Spells(args[i], "PX")
    ensures SetsNoDeadline(SetRequest(args))
  {
    if |args| >= 3 {
      FreeOptions(args[3..], NO_OPTS);
    }
  }

  /** The command is neither EXPIRE nor PEXPIRE, nor a SET with EX or PX. */
  ghost predicate GivesNoLifetime(args: Command) {
    && !Calls(args, "EXPIRE") && !Calls(args, "PEXPIRE")
    && (Calls(args, "SET") ==> forall i :: 3 <= i < |args| ==> !Spells(args[i], "EX") && !Spells(args[i], "PX"))
  }

  lemma FreeParsed(args: Command, name: Name)
    requires args != [] && GivesNoLifetime(args) && (name.NameOther? || Calls(args, WordOf(name)))
    ensures SetsNoDeadline(ParseNamed(name, args))
  {
    if name.NameSet? {
      FreeSet(args);
    } else {
      FreeNamed(name, args);
    }
  }

  /** The only commands that set deadlines are SET with EX or PX, EXPIRE and PEXPIRE. */
  lemma FreeCommands(args: Command)
    requires GivesNoLifetime(args)
    ensures TtlFree(args)
  {
    if args != [] {
      NamedCalls(args);
      FreeParsed(args, NameOf(args[0]));
    }
  }

  lemma {:induction false} FreeOptions(opts: Command, seen: SetOpts)
    requires seen.ttl <= 0
    requires forall i :: 0 <= i < |opts| ==> !Spells(opts[i], "EX") && !Spells(opts[i], "PX")
    ensures SetOptsFrom(opts, seen, false).Some? ==> SetOptsFrom(opts, seen, false).value.ttl <= 0
  {
    if opts != [] {
      FoldingSpells(opts[0], "EX");
      FoldingSpells(opts[0], "PX");
      FreeOptions(opts[1..], seen.(nx := true));
      FreeOptions(opts[1..], seen.(xx := true));
    }
  }

  // ---- Needless records ----

  /** Commands that take something away, if it is there. */
  predicate IsRemoval(name: Name) {
    name.NameDel? || name.NameHDel? || name.NameLPop? || name.NameRPop? || name.NamePersist?
  }

  predicate Removes(request: Request) {
    match request
    case Single(_, op) => op.HDel? || op.LPop? || op.RPop? || op.Persist?
    case DelMany(_) => true
    case Rejected(_) => true
    case _ => false
  }

  lemma RemovalParses(name: Name, args: Command)
    requires IsRemoval(name) && args != []
    ensures Removes(ParseNamed(name, args))
  {}

  lemma LoggedRemoval(op: KeyOp, e: Option<Entry>, key: string, args: Command, now: int)
    requires op.HDel? || op.LPop? || op.RPop? || op.Persist?
    requires Record(key, op, Update(op, e, now).reply, args).Some?
    ensures Update(op, e, now).entry != e
  {}

  lemma RemovalStep(m: Space, key: string, op: KeyOp, args: Command, now: int)
    requires WellFormed(m) && (op.HDel? || op.LPop? || op.RPop? || op.Persist?)
    ensures var o := ExecSingle(m, key, op, args, now); o.points == [] <==> o.space == Live(m, now)
  {
    var e, r := Look(Live(m, now), key), Step(m, key, op, now);
    if Record(key, op, r.reply, args).None? {
      SilentUnchanged(m, key, op, args, now);
    } else {
      LoggedRemoval(op, e, key, args, now);
      RemovalLives(op, e, now);
      LookLive(m, now, key);
      assert Look(r.space, key) != Look(Live(m, now), key);
    }
  }

  lemma RemovalLives(op: KeyOp, e: Option<Entry>, now: int)
    requires (op.HDel? || op.LPop? || op.RPop? || op.Persist?) && LiveEntry(e, now) == e
    ensures LiveEntry(Update(op, e, now).entry, now) == Update(op, e, now).entry
  {}

  /** DEL, HDEL, LPOP, RPOP and PERSIST are logged if and only if they changed something. */
  lemma RemovalsLogChanges(m: Space, args: Command, name: Name, now: int)
    requires WellFormed(m) && IsRemoval(name) && Calls(args, WordOf(name))
    ensures var o := Exec(m, args, now); o.points == [] <==> o.space == Live(m, now)
  {
    CalledBy(args, name);
    RemovalParses(name, args);
    RemovalRequests(m, Parse(args), args, now);
  }

  lemma RemovalRequests(m: Space, request: Request, args: Command, now: int)
    requires WellFormed(m) && Removes(request)
    ensures var o := Act(m, request, args, now); o.points == [] <==> o.space == Live(m, now)
  {
    if request.Single? {
      RemovalStep(m, request.key, request.op, args, now);
    } else if request.DelMany? {
      DelLogsChanges(m, request.keys, args, now);
    }
  }

  lemma DelLogsChanges(m: Space, keys: seq<string>, args: Command, now: int)
    ensures var o := ExecDel(m, keys, args, now); o.points == [] <==> o.space == Live(m, now)
  {
    var live := Live(m, now);
    if |live| <= |live - Elements(keys)| {
      DroppedNothing(live, keys);
    }
  }

  // ---- Numbers of arguments ----

  /** How many words a command may have, itself included. */
  predicate Allows(name: Name, n: nat) {
    match name
    case NameSet => n >= 3
    case NameGetSet => n == 3
    case NameAppend => n == 3
    case NameIncrBy => n == 3
    case NameDecrBy => n == 3
    case NameMGet => n >= 2
    case NameMSet => n >= 3 && n % 2 == 1
    case NameDel => n >= 2
    case NameExists => n >= 2
    case NameExpire => n == 3
    case NamePExpire => n == 3
    case NameFlushDB => true
    case NameHSet => n >= 4 && n % 2 == 0
    case NameHGet => n == 3
    case NameHDel => n >= 3
    case NameLPush => n >= 3
    case NameRPush => n >= 3
    case NameLIndex => n == 3
    case NameLRange => n == 4
    case NameOther => true
    case _ => n == 2
  }

  lemma AllowsParses(name: Name, args: Command)
    requires args != []
    ensures ParseNamed(name, args) == Rejected(WrongArity) <==> !Allows(name, |args|)
  {}

  /** A command is refused for its number of arguments exactly when it may not have so many. */
  lemma ArityDecides(m: Space, args: Command, name: Name, now: int)
    requires !name.NameOther? && Calls(args, WordOf(name))
    ensures Exec(m, args, now).answer == Error(WrongArity) <==> !Allows(name, |args|)
  {
    CalledBy(args, name);
    AllowsParses(name, args);
    RejectedAnswers(m, Parse(args), args, WrongArity, now);
  }

  lemma RejectedAnswers(m: Space, request: Request, args: Command, why: Why, now: int)
    ensures Act(m, request, args, now).answer == Error(why) <==> request == Rejected(why)
  {
    if request.MSet? {
      MSetIsNoError(m, request.pairs, now);
    }
  }

  /** The arguments that have to be numbers. */
  predicate NumbersParse(name: Name, args: Command) {
    match name
    case NameLRange => |args| == 4 ==> ParseInt(args[2]).Some? && ParseInt(args[3]).Some?
    case NameIncrBy => |args| == 3 ==> ParseInt(args[2]).Some?
    case NameDecrBy => |args| == 3 ==> ParseInt(args[2]).Some?
    case NameExpire => |args| == 3 ==> ParseInt(args[2]).Some?
    case NamePExpire => |args| == 3 ==> ParseInt(args[2]).Some?
    case NameLIndex => |args| == 3 ==> ParseInt(args[2]).Some?
    case _ => true
  }

  lemma NumbersParsed(name: Name, args: Command)
    requires args != []
    ensures ParseNamed(name, args) == Rejected(BadNumber) <==> !NumbersParse(name, args)
  {}

  /** And for a number exactly when one of its arguments should be one and is none. */
  lemma NumbersDecide(m: Space, args: Command, name: Name, now: int)
    requires !name.NameOther? && Calls(args, WordOf(name))
    ensures Exec(m, args, now).answer == Error(BadNumber) <==> !NumbersParse(name, args)
  {
    CalledBy(args, name);
    NumbersParsed(name, args);
    RejectedAnswers(m, Parse(args), args, BadNumber, now);
  }

  // ---- Keys of another kind ----

  /** The kind of key a command works on, if it asks for one. */
  function KindFor(name: Name): Option<Kind> {
    match name
    case NameGet => Some(KindString)
    case NameGetSet => Some(KindString)
    case NameAppend => Some(KindString)
    case NameIncr => Some(KindString)
    case NameDecr => Some(KindString)
    case NameIncrBy => Some(KindString)
    case NameDecrBy => Some(KindString)
    case NameHSet => Some(KindHash)
    case NameHGet => Some(KindHash)
    case NameHDel => Some(KindHash)
    case NameLPush => Some(KindList)
    case NameRPush => Some(KindList)
    case NameLPop => Some(KindList)
    case NameRPop => Some(KindList)
    case NameLIndex => Some(KindList)
    case NameLRange => Some(KindList)
    case _ => None
  }

  function KindOf(op: KeyOp): Option<Kind> {
    if op.Get? || op.GetSet? || op.Append? || op.IncrBy? then Some(KindString)
    else if op.HSet? || op.HGet? || op.HDel? then Some(KindHash)
    else if op.LPush? || op.RPush? || op.LPop? || op.RPop? || op.LIndex? || op.LRange? then Some(KindList)
    else None
  }

  lemma KindParses(name: Name, args: Command)
    requires args != [] && KindFor(name).Some? && Allows(name, |args|) && NumbersParse(name, args)
    ensures var r := ParseNamed(name, args); r.Single? && KindOf(r.op) == KindFor(name) && r.key == args[1]
  {}

  lemma WrongKindRefused(op: KeyOp, e: Entry, now: int)
    requires KindOf(op).Some? && KindOf(op) != Some(e.kind)
    ensures Update(op, Some(e), now).reply == Refused(WrongType)
  {}

  /** A command on a live key of another kind is refused for that, whatever it is, and leaves all
      as it was. */
  lemma OtherKindsRefused(m: Space, args: Command, name: Name, now: int)
    requires KindFor(name).Some? && Calls(args, WordOf(name)) && |args| >= 2
    requires Allows(name, |args|) && NumbersParse(name, args)
    requires var e := LiveEntry(Look(m, args[1]), now); e.Some? && KindFor(name) != Some(e.value.kind)
    ensures var o := Exec(m, args, now); o.answer == One(Refused(WrongType)) && LeavesAll(m, now, o)
  {
    CalledBy(args, name);
    KindParses(name, args);
    var request := Parse(args);
    ExecOnKey(m, args, request.key, request.op, now);
    WrongKindRefused(request.op, LiveEntry(Look(m, args[1]), now).value, now);
    RefusalsLeaveAll(m, args, now);
  }
}
