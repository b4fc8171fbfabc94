/** The dispatcher and the handlers of several keys, and the log they feed. */
module Executor {
  import opened Basics
  import opened Resp
  import opened Keyspace
  import opened Commands
  import opened Sessions
  import opened History
  import opened ShardedStore
  import opened Handlers
  import opened AofLog
  import opened LogFilter

  /** Going from `before` to `after`, giving out `records` for the log and answering `answer`,
      is what `request` means at `now`. */
  ghost predicate Acted(
      before: Space, request: Request, args: Command, now: int, after: Space, records: seq<Command>, answer: Answer)
  {
    var o := Act(before, request, args, now);
    Live(after, now) == o.space && records == Records(o.points) && answer == o.answer
  }

  function RecordList(record: Option<Command>): seq<Command> {
    if record.Some? then [record.value] else []
  }

  lemma HandledActs(
      before: Space, request: Request, args: Command, now: int, after: Space, record: Option<Command>, answer: Answer)
    requires Handled(before, request, args, now, after, record, answer)
    ensures Acted(before, request, args, now, after, RecordList(record), answer)
  {
    if request.Single? {
      var o := ExecSingle(before, request.key, request.op, args, now);
      assert Records(o.points) == RecordList(Record(request.key, request.op, answer.reply, args));
    } else {
      assert Records([]) == [];
    }
  }

  // ---- Commands on several keys ----

  lemma MSetSnoc(m: Space, pairs: seq<(string, string)>, i: nat, now: int)
    requires i < |pairs|
    ensures var before, after := ExecMSet(m, pairs[..i], now), ExecMSet(m, pairs[..i + 1], now);
      && after.space == Step(before.space, pairs[i].0, Set(pairs[i].1, 0), now).space
      && Records(after.points) == Records(before.points) + [["SET", pairs[i].0, pairs[i].1]]
  {
    assert pairs[..i + 1][..i] == pairs[..i];
  }

  /** Sets the pairs one after the other, a plain SET record for each. */
  method SetPairs(store: Store, pairs: seq<(string, string)>, now: int) returns (records: seq<Command>)
    requires store.Valid()
    modifies store.shards
    ensures store.Valid()
    ensures Live(store.Physical(), now) == ExecMSet(old(store.Physical()), pairs, now).space
    ensures records == Records(ExecMSet(old(store.Physical()), pairs, now).points)
  {
    ghost var before := store.Physical();
    records := [];
    for i := 0 to |pairs|
      invariant store.Valid()
      invariant Live(store.Physical(), now) == ExecMSet(before, pairs[..i], now).space
      invariant records == Records(ExecMSet(before, pairs[..i], now).points)
    {
      MSetSnoc(before, pairs, i, now);
      StepLive(store.Physical(), pairs[i].0, Set(pairs[i].1, 0), now);
      store.Set(pairs[i].0, pairs[i].1, 0, now);
      records := records + [["SET", pairs[i].0, pairs[i].1]];
    }
    assert pairs[..|pairs|] == pairs;
  }

  lemma DelRemoves(m: Space, key: string, now: int, after: Space, existed: bool)
    requires Does(m, key, Del, now, after, Flag(existed))
    ensures Live(after, now) == Live(m, now) - {key}
    ensures existed <==> key in Live(m, now)
  {}

  lemma DropOneMoreKey(base: Space, keys: seq<string>, i: nat)
    requires i < |keys|
    ensures base - Elements(keys[..i + 1]) == base - Elements(keys[..i]) - {keys[i]}
  {
    TakeOneMore(keys, i);
    assert Elements(keys[..i + 1]) == Elements(keys[..i]) + {keys[i]};
  }

  lemma RemoveOneSize(live: Space, key: string)
    ensures |live - {key}| == |live| - if key in live then 1 else 0
  {
    if key in live {
      RemoveSize(live, key);
    } else {
      assert live - {key} == live;
    }
  }

  method DeleteKey(store: Store, key: string, now: int) returns (existed: bool)
    requires store.Valid()
    modifies store.shards
    ensures store.Valid()
    ensures Live(store.Physical(), now) == Live(old(store.Physical()), now) - {key}
    ensures |Live(store.Physical(), now)| == |Live(old(store.Physical()), now)| - if existed then 1 else 0
  {
    ghost var m := store.Physical();
    existed := store.Del(key, now);
    DelRemoves(m, key, now, store.Physical(), existed);
    RemoveOneSize(Live(m, now), key);
  }

  method DeleteKeys(store: Store, keys: seq<string>, now: int) returns (removed: int)
    requires store.Valid()
    modifies store.shards
    ensures store.Valid()
    ensures Live(store.Physical(), now) == Live(old(store.Physical()), now) - Elements(keys)
    ensures removed == |Live(old(store.Physical()), now)| - |Live(store.Physical(), now)|
  {
    ghost var base := Live(store.Physical(), now);
    removed := 0;
    assert base - Elements(keys[..0]) == base;
    for i := 0 to |keys|
      invariant store.Valid()
      invariant Live(store.Physical(), now) == base - Elements(keys[..i])
      invariant removed == |base| - |Live(store.Physical(), now)|
    {
      var existed := DeleteKey(store, keys[i], now);
      DropOneMoreKey(base, keys, i);
      if existed {
        removed := removed + 1;
      }
    }
    TakeAll(keys);
  }

  lemma ExistsReads(m: Space, key: string, now: int, after: Space, here: bool)
    requires Does(m, key, Exists, now, after, Flag(here))
    ensures here <==> key in Live(m, now)
  {}

  method KeyExists(store: Store, key: string, now: int) returns (here: bool)
    requires store.Valid()
    ensures here <==> key in Live(store.Physical(), now)
  {
    here := store.Exists(key, now);
    ExistsReads(store.Physical(), key, now, store.Physical(), here);
  }

  lemma CountSnoc(live: Space, keys: seq<string>, i: nat)
    requires i < |keys|
    ensures CountPresent(live, keys[..i + 1]) == CountPresent(live, keys[..i]) + if keys[i] in live then 1 else 0
  {
    assert keys[..i + 1][..i] == keys[..i];
  }

  method CountKeys(store: Store, keys: seq<string>, now: int) returns (count: int)
    requires store.Valid()
    ensures count == CountPresent(Live(store.Physical(), now), keys)
  {
    count := 0;
    for i := 0 to |keys|
      invariant count == CountPresent(Live(store.Physical(), now), keys[..i])
    {
      CountSnoc(Live(store.Physical(), now), keys, i);
      var here := KeyExists(store, keys[i], now);
      if here {
        count := count + 1;
      }
    }
    TakeAll(keys);
  }

  lemma GetReads(m: Space, key: string, now: int, after: Space, r: Reply)
    requires Does(m, key, Get, now, after, r)
    ensures Live(after, now) == Live(m, now)
    ensures (if r.Text? then r.text else None) == StringAt(Live(m, now), key)
  {
    LookLive(m, now, key);
    LookLive(Live(m, now), now, key);
    PutSame(Live(m, now), key);
    LiveLive(m, now, now);
  }

  /** The string at `key`; a key of another kind reads as missing. */
  method GetString(store: Store, key: string, now: int) returns (value: Option<string>)
    requires store.Valid()
    modifies store.shards
    ensures store.Valid() && Live(store.Physical(), now) == Live(old(store.Physical()), now)
    ensures value == StringAt(Live(old(store.Physical()), now), key)
  {
    ghost var m := store.Physical();
    var r := store.Get(key, now);
    GetReads(m, key, now, store.Physical(), r);
    value := if r.Text? then r.text else None;
  }

  method GetStrings(store: Store, keys: seq<string>, now: int) returns (values: seq<Option<string>>)
    requires store.Valid()
    modifies store.shards
    ensures store.Valid() && Live(store.Physical(), now) == Live(old(store.Physical()), now)
    ensures |values| == |keys|
    ensures forall i :: 0 <= i < |keys| ==> values[i] == StringAt(Live(old(store.Physical()), now), keys[i])
  {
    ghost var live := Live(store.Physical(), now);
    values := [];
    for i := 0 to |keys|
      invariant store.Valid() && Live(store.Physical(), now) == live
      invariant |values| == i
      invariant forall j :: 0 <= j < i ==> values[j] == StringAt(live, keys[j])
    {
      var value := GetString(store, keys[i], now);
      values := values + [value];
    }
  }

  // ---- Dispatch ----

  predicate OnString(name: Name) {
    match name
    case NameSet => true
    case NameGet => true
    case NameGetSet => true
    case NameAppend => true
    case NameIncr => true
    case NameDecr => true
    case NameIncrBy => true
    case NameDecrBy => true
    case _ => false
  }

  predicate OnAny(name: Name) {
    match name
    case NameType => true
    case NameExpire => true
    case NamePExpire => true
    case NamePersist => true
    case _ => false
  }

  predicate OnHash(name: Name) {
    match name
    case NameHSet => true
    case NameHGet => true
    case NameHDel => true
    case _ => false
  }

  predicate OnList(name: Name) {
    match name
    case NameLPush => true
    case NameRPush => true
    case NameLPop => true
    case NameRPop => true
    case NameLIndex => true
    case NameLRange => true
    case _ => false
  }

  /** Commands on several keys, and those that answer a number of their own. */
  predicate OnOthers(name: Name) {
    match name
    case NameTTL => true
    case NamePTTL => true
    case NameMGet => true
    case NameMSet => true
    case NameDel => true
    case NameExists => true
    case NameFlushDB => true
    case _ => false
  }

  method ExecString(store: Store, name: Name, args: Command, now: int) returns (answer: Answer, record: Option<Command>)
    requires store.Valid() && |args| >= 1
    requires OnString(name)
    modifies store.shards
    ensures store.Valid()
    ensures Handled(old(store.Physical()), ParseNamed(name, args), args, now, store.Physical(), record, answer)
  {
    match name
    case NameSet => answer, record := CmdSet(store, args, now);
    case NameGet => answer, record := CmdGet(store, args, now);
    case NameGetSet => answer, record := CmdGetSet(store, args, now);
    case NameAppend => answer, record := CmdAppend(store, args, now);
    case NameIncr => answer, record := CmdIncr(store, args, 1, now);
    case NameDecr => answer, record := CmdIncr(store, args, -1, now);
    case NameIncrBy => answer, record := CmdIncrBy(store, args, false, now);
    case NameDecrBy => answer, record := CmdIncrBy(store, args, true, now);
  }

  method ExecGeneric(store: Store, name: Name, args: Command, now: int) returns (answer: Answer, record: Option<Command>)
    requires store.Valid() && |args| >= 1
    requires OnAny(name)
    modifies store.shards
    ensures store.Valid()
    ensures Handled(old(store.Physical()), ParseNamed(name, args), args, now, store.Physical(), record, answer)
  {
    match name
    case NameType => answer, record := CmdType(store, args, now);
    case NameExpire => answer, record := CmdExpire(store, args, SECOND, now);
    case NamePExpire => answer, record := CmdExpire(store, args, MILLISECOND, now);
    case NamePersist => answer, record := CmdPersist(store, args, now);
  }

  method ExecHash(store: Store, name: Name, args: Command, now: int) returns (answer: Answer, record: Option<Command>)
    requires store.Valid() && |args| >= 1
    requires OnHash(name)
    modifies store.shards
    ensures store.Valid()
    ensures Handled(old(store.Physical()), ParseNamed(name, args), args, now, store.Physical(), record, answer)
  {
    match name
    case NameHSet => answer, record := CmdHSet(store, args, now);
    case NameHGet => answer, record := CmdHGet(store, args, now);
    case NameHDel => answer, record := CmdHDel(store, args, now);
  }

  method ExecList(store: Store, name: Name, args: Command, now: int) returns (answer: Answer, record: Option<Command>)
    requires store.Valid() && |args| >= 1
    requires OnList(name)
    modifies store.shards
    ensures store.Valid()
    ensures Handled(old(store.Physical()), ParseNamed(name, args), args, now, store.Physical(), record, answer)
  {
    match name
    case NameLPush => answer, record := CmdPush(store, args, true, now);
    case NameRPush => answer, record := CmdPush(store, args, false, now);
    case NameLPop => answer, record := CmdPop(store, args, true, now);
    case NameRPop => answer, record := CmdPop(store, args, false, now);
    case NameLIndex => answer, record := CmdLIndex(store, args, now);
    case NameLRange => answer, record := CmdLRange(store, args, now);
  }

  lemma UnchangedActed(before: Space, request: Request, args: Command, now: int, after: Space, answer: Answer)
    requires Live(after, now) == Live(before, now)
    requires Act(before, request, args, now) == Outcome(Live(before, now), [], answer)
    ensures Acted(before, request, args, now, after, [], answer)
  {
    assert Records([]) == [];
  }

  lemma MSetActed(before: Space, pairs: seq<(string, string)>, args: Command, now: int, after: Space, records: seq<Command>)
    requires Live(after, now) == ExecMSet(before, pairs, now).space
    requires records == Records(ExecMSet(before, pairs, now).points)
    ensures Acted(before, MSet(pairs), args, now, after, records, Ok)
  {
    MSetAnswer(before, pairs, now);
  }

  lemma MSetAnswer(m: Space, pairs: seq<(string, string)>, now: int)
    ensures ExecMSet(m, pairs, now).answer == Ok
  {}

  lemma DelActed(before: Space, keys: seq<string>, args: Command, now: int, after: Space, removed: int)
    requires Live(after, now) == Live(before, now) - Elements(keys)
    requires removed == |Live(before, now)| - |Live(after, now)|
    ensures Acted(before, DelMany(keys), args, now, after, if removed > 0 then [args] else [], Total(removed))
  {
    assert Records(ExecDel(before, keys, args, now).points) == if removed > 0 then [args] else [];
  }

  lemma FlushActed(before: Space, args: Command, now: int)
    ensures Acted(before, Flush, args, now, map[], [args], Ok)
  {
    assert Records([Point(args, map[], now)]) == [args];
  }

  lemma MGetActed(before: Space, keys: seq<string>, args: Command, now: int, after: Space, values: seq<Option<string>>)
    requires Live(after, now) == Live(before, now) && |values| == |keys|
    requires forall i :: 0 <= i < |keys| ==> values[i] == StringAt(Live(before, now), keys[i])
    ensures Acted(before, MGet(keys), args, now, after, [], Values(values))
  {
    var live := Live(before, now);
    assert values == seq(|keys|, i requires 0 <= i < |keys| => StringAt(live, keys[i]));
    assert Records([]) == [];
  }

  lemma RejectedActed(before: Space, request: Request, args: Command, now: int)
    requires request.Rejected?
    ensures Acted(before, request, args, now, before, [], Error(request.why))
  {
    assert Records([]) == [];
  }

  method CmdMGet(store: Store, args: Command, now: int) returns (answer: Answer, records: seq<Command>)
    requires store.Valid() && |args| >= 1
    modifies store.shards
    ensures store.Valid()
    ensures Acted(old(store.Physical()), MGetRequest(args), args, now, store.Physical(), records, answer)
  {
    ghost var before := store.Physical();
    if |args| < 2 {
      RejectedActed(before, MGetRequest(args), args, now);
      return Error(WrongArity), [];
    }
    var values := GetStrings(store, args[1..], now);
    MGetActed(before, args[1..], args, now, store.Physical(), values);
    return Values(values), [];
  }

  method CmdMSet(store: Store, args: Command, now: int) returns (answer: Answer, records: seq<Command>)
    requires store.Valid() && |args| >= 1
    modifies store.shards
    ensures store.Valid()
    ensures Acted(old(store.Physical()), MSetRequest(args), args, now, store.Physical(), records, answer)
  {
    ghost var before := store.Physical();
    if |args| < 3 || |args| % 2 != 1 {
      RejectedActed(before, MSetRequest(args), args, now);
      return Error(WrongArity), [];
    }
    records := SetPairs(store, PairUp(args[1..]), now);
    MSetActed(before, PairUp(args[1..]), args, now, store.Physical(), records);
    return Ok, records;
  }

  method CmdDel(store: Store, args: Command, now: int) returns (answer: Answer, records: seq<Command>)
    requires store.Valid() && |args| >= 1
    modifies store.shards
    ensures store.Valid()
    ensures Acted(old(store.Physical()), DelRequest(args), args, now, store.Physical(), records, answer)
  {
    ghost var before := store.Physical();
    if |args| < 2 {
      RejectedActed(before, DelRequest(args), args, now);
      return Error(WrongArity), [];
    }
    var removed := DeleteKeys(store, args[1..], now);
    DelActed(before, args[1..], args, now, store.Physical(), removed);
    return Total(removed), if removed > 0 then [args] else [];
  }

  method CmdExists(store: Store, args: Command, now: int) returns (answer: Answer, records: seq<Command>)
    requires store.Valid() && |args| >= 1
    modifies store.shards
    ensures store.Valid()
    ensures Acted(old(store.Physical()), ExistsRequest(args), args, now, store.Physical(), records, answer)
  {
    ghost var before := store.Physical();
    if |args| < 2 {
      RejectedActed(before, ExistsRequest(args), args, now);
      return Error(WrongArity), [];
    }
    var count := CountKeys(store, args[1..], now);
    UnchangedActed(before, ExistsMany(args[1..]), args, now, before, Total(count));
    return Total(count), [];
  }

  method CmdFlushDB(store: Store, args: Command, now: int) returns (answer: Answer, records: seq<Command>)
    requires store.Valid() && |args| >= 1
    modifies store.shards
    ensures store.Valid()
    ensures Acted(old(store.Physical()), Flush, args, now, store.Physical(), records, answer)
  {
    ghost var before := store.Physical();
    store.FlushDB();
    FlushActed(before, args, now);
    return Ok, [args];
  }

  method ExecTTL(store: Store, args: Command, milli: bool, now: int) returns (answer: Answer)
    requires store.Valid() && |args| >= 1
    ensures Acted(store.Physical(), TTLRequest(args, milli), args, now, store.Physical(), [], answer)
  {
    answer := CmdTTL(store, args, milli, now);
    UnchangedActed(store.Physical(), TTLRequest(args, milli), args, now, store.Physical(), answer);
  }

  method ExecOthers(store: Store, name: Name, args: Command, now: int) returns (answer: Answer, records: seq<Command>)
    requires store.Valid() && |args| >= 1
    requires OnOthers(name)
    modifies store.shards
    ensures store.Valid()
    ensures Acted(old(store.Physical()), ParseNamed(name, args), args, now, store.Physical(), records, answer)
  {
    match name
    case NameTTL =>
      answer := ExecTTL(store, args, false, now);
      records := [];
    case NamePTTL =>
      answer := ExecTTL(store, args, true, now);
      records := [];
    case NameMGet => answer, records := CmdMGet(store, args, now);
    case NameMSet => answer, records := CmdMSet(store, args, now);
    case NameDel => answer, records := CmdDel(store, args, now);
    case NameExists => answer, records := CmdExists(store, args, now);
    case NameFlushDB => answer, records := CmdFlushDB(store, args, now);
  }

  /** Going from `before` to `after`, giving out `records` and answering `answer`, is what the
      command means at `now`. */
  ghost predicate Performed(
      before: Space, args: Command, now: int, after: Space, records: seq<Command>, answer: Answer)
  {
    var o := Exec(before, args, now);
    Live(after, now) == o.space && records == Records(o.points) && answer == o.answer
  }

  /** One command on the store: its answer, and the records it sends to the log in order. */
  method Perform(store: Store, args: Command, now: int) returns (answer: Answer, records: seq<Command>)
    requires store.Valid()
    modifies store.shards
    ensures store.Valid()
    ensures Performed(old(store.Physical()), args, now, store.Physical(), records, answer)
  {
    ghost var before := store.Physical();
    if |args| == 0 {
      UnchangedActed(before, Elsewhere, args, now, before, NotKeyspace);
      return NotKeyspace, [];
    }
    var name := NameOf(args[0]);
    if name.NameOther? {
      UnchangedActed(before, Elsewhere, args, now, before, NotKeyspace);
      return NotKeyspace, [];
    }
    if OnOthers(name) {
      answer, records := ExecOthers(store, name, args, now);
      return;
    }
    answer, records := PerformSingle(store, name, args, now);
  }

  method PerformSingle(store: Store, name: Name, args: Command, now: int) returns (answer: Answer, records: seq<Command>)
    requires store.Valid() && |args| >= 1
    requires !OnOthers(name) && !name.NameOther?
    modifies store.shards
    ensures store.Valid()
    ensures Acted(old(store.Physical()), ParseNamed(name, args), args, now, store.Physical(), records, answer)
  {
    ghost var before := store.Physical();
    var record;
    if OnString(name) {
      answer, record := ExecString(store, name, args, now);
    } else if OnAny(name) {
      answer, record := ExecGeneric(store, name, args, now);
    } else if OnHash(name) {
      answer, record := ExecHash(store, name, args, now);
    } else {
      answer, record := ExecList(store, name, args, now);
    }
    records := RecordList(record);
    HandledActs(before, ParseNamed(name, args), args, now, store.Physical(), record, answer);
  }

  // ---- The server's side: logging ----

  /** Mirrors the records to the log, if there is one, one after the other. */
  method AppendAOF(log: Log?, records: seq<Command>)
    requires log != null ==> log.Valid()
    modifies log
    ensures log != null ==>
      && log.Valid() && log.history == old(log.history) + records
      && |log.file| >= |old(log.file)| && log.file[..|old(log.file)|] == old(log.file)
  {
    if log == null {
      return;
    }
    for i := 0 to |records|
      invariant log.Valid() && log.history == old(log.history) + records[..i]
      invariant |log.file| >= |old(log.file)| && log.file[..|old(log.file)|] == old(log.file)
    {
      AppendOneMore(old(log.history), records, i);
      log.Append(records[i]);
    }
    TakeAll(records);
  }

  /** Logging leaves the store alone. */
  method Mirror(store: Store, log: Log?, records: seq<Command>)
    requires store.Valid() && (log != null ==> log.Valid())
    modifies log
    ensures store.Valid() && store.Physical() == old(store.Physical())
    ensures log != null ==> log.Valid() && log.history == old(log.history) + records
  {
    AppendAOF(log, records);
  }

  /** Execute for a connection that holds `subs`: in subscribe mode no keyspace command is let
      through; otherwise the command acts on the store and its records go to the log, if there
      is one. SUBSCRIBE and UNSUBSCRIBE change what the connection holds. */
  method Execute(store: Store, log: Log?, subs: set<string>, args: Command, now: int)
    returns (answer: Answer, subs': set<string>, records: seq<Command>)
    requires store.Valid() && (log != null ==> log.Valid())
    modifies store.shards, log
    ensures store.Valid() && (log != null ==> log.Valid() && log.history == old(log.history) + records)
    ensures subs' == SubsAfter(subs, args)
    ensures forall ch :: ch in subs' <==> Takes(args, ch) || (ch in subs && !Drops(args, ch))
    ensures subs == {} ==> Performed(old(store.Physical()), args, now, store.Physical(), records, answer)
    ensures subs != {} ==>
      && store.Physical() == old(store.Physical()) && records == []
      && answer == if AllowedWhileSubscribed(args) then NotKeyspace else Error(InSubscribeMode)
  {
    subs' := SubsAfter(subs, args);
    forall ch ensures ch in subs' <==> Takes(args, ch) || (ch in subs && !Drops(args, ch)) {
      SubsAfterMeans(subs, args, ch);
    }
    if subs != {} {
      answer := if AllowedWhileSubscribed(args) then NotKeyspace else Error(InSubscribeMode);
      records := [];
    } else {
      answer, records := Perform(store, args, now);
    }
    Mirror(store, log, records);
  }

  // ---- Replay ----

  /** What a command does depends on the live entries only. */
  lemma ActOnLive(a: Space, b: Space, request: Request, args: Command, now: int)
    requires Live(a, now) == Live(b, now)
    ensures Act(a, request, args, now) == Act(b, request, args, now)
  {
    if request.Single? {
      StepOnLive(a, b, request.key, request.op, now);
    } else if request.MSet? {
      MSetOnLive(a, b, request.pairs, now);
    } else {
      OtherOnLive(a, b, request, args, now);
    }
  }

  lemma OtherOnLive(a: Space, b: Space, request: Request, args: Command, now: int)
    requires Live(a, now) == Live(b, now) && !request.Single? && !request.MSet?
    ensures Act(a, request, args, now) == Act(b, request, args, now)
  {}

  lemma StepOnLive(a: Space, b: Space, key: string, op: KeyOp, now: int)
    requires Live(a, now) == Live(b, now)
    ensures Step(a, key, op, now) == Step(b, key, op, now)
  {}

  lemma {:induction false} MSetOnLive(a: Space, b: Space, pairs: seq<(string, string)>, now: int)
    requires Live(a, now) == Live(b, now)
    ensures ExecMSet(a, pairs, now) == ExecMSet(b, pairs, now)
  {
    if pairs != [] {
      MSetOnLive(a, b, pairs[..|pairs| - 1], now);
    }
  }
}
