/** Lists as double-ended queues, and the ranges read from them. */
module Deques {
  import opened Basics
  import opened Decimal
  import opened Resp
  import opened Keyspace
  import opened Commands
  import opened History
  import opened LogFilter
  import opened Words
  import opened ClientRuns

  datatype DequeOp = PushLeft(values: seq<string>) | PushRight(values: seq<string>) | PopLeft | PopRight

  /** The abstract deque, pushing and popping one element at a time. */
  function PushEachLeft(deque: seq<string>, values: seq<string>): seq<string>
    decreases values
  {
    if values == [] then deque else PushEachLeft([values[0]] + deque, values[1..])
  }

  function PushEachRight(deque: seq<string>, values: seq<string>): seq<string>
    decreases values
  {
    if values == [] then deque else PushEachRight(deque + [values[0]], values[1..])
  }

  datatype Answered = Answered(deque: seq<string>, popped: Option<string>)

  function Apply(deque: seq<string>, op: DequeOp): Answered {
    match op
    case PushLeft(values) => Answered(PushEachLeft(deque, values), None)
    case PushRight(values) => Answered(PushEachRight(deque, values), None)
    case PopLeft => if deque == [] then Answered([], None) else Answered(deque[1..], Some(deque[0]))
    case PopRight =>
      var n := |deque|;
      if deque == [] then Answered([], None) else Answered(deque[..n - 1], Some(deque[n - 1]))
  }

  function KeyOpOf(op: DequeOp): KeyOp {
    match op
    case PushLeft(values) => LPush(values)
    case PushRight(values) => RPush(values)
    case PopLeft => LPop
    case PopRight => RPop
  }

  /** A deque and the deadline of its key. An empty one has no key, hence no deadline. */
  datatype Timed = Timed(items: seq<string>, deadline: Option<int>)

  const EMPTY: Timed := Timed([], None)

  /** The entry that stands for a deque: none when it is empty. */
  function EntryOf(deque: Timed): Option<Entry> {
    if deque.items == [] then None else Some(Entry(KindList, "", map[], deque.items, deque.deadline))
  }

  /** What is left of it at `now`: nothing once its deadline has passed. */
  function LiveAt(deque: Timed, now: int): Timed {
    if deque.deadline.Some? && now > deque.deadline.value then EMPTY else deque
  }

  /** The deque after an operation: it keeps its deadline until it is empty. */
  function Applied(deque: Timed, op: DequeOp): Timed {
    var items := Apply(deque.items, op).deque;
    Timed(items, if deque.items == [] || items == [] then None else deque.deadline)
  }

  lemma {:induction false} PushEachLeftReverses(deque: seq<string>, values: seq<string>)
    ensures PushEachLeft(deque, values) == Reverse(values) + deque
    decreases values
  {
    if values != [] {
      PushEachLeftReverses([values[0]] + deque, values[1..]);
      assert Reverse(values) == Reverse(values[1..]) + [values[0]];
    }
  }

  lemma {:induction false} PushEachRightAppends(deque: seq<string>, values: seq<string>)
    ensures PushEachRight(deque, values) == deque + values
    decreases values
  {
    if values == [] {
      assert deque + values == deque;
    } else {
      PushEachRightAppends(deque + [values[0]], values[1..]);
      assert values == [values[0]] + values[1..];
      assert deque + [values[0]] + values[1..] == deque + values;
    }
  }

  /** One list command does to the key what the deque operation does, and pops the same element. */
  lemma OpRefines(deque: Timed, op: DequeOp, now: int)
    requires Proper(KeyOpOf(op))
    ensures var change := Update(KeyOpOf(op), EntryOf(deque), now);
      && change.entry == EntryOf(Applied(deque, op))
      && (op.PopLeft? || op.PopRight? ==> change.reply == Text(Apply(deque.items, op).popped))
      && (op.PushLeft? || op.PushRight? ==> change.reply == Count(|Apply(deque.items, op).deque|))
  {
    var items := deque.items;
    match op
    case PushLeft(values) =>
      PushEachLeftReverses(items, values);
      assert Reverse(values) + items + [] == Reverse(values) + items;
      assert |Reverse(values) + items| > 0;
    case PushRight(values) =>
      PushEachRightAppends(items, values);
      assert [] + items + values == items + values;
      assert |items + values| > 0;
    case _ =>
  }

  lemma LiveEntryOf(deque: Timed, now: int)
    ensures LiveEntry(EntryOf(deque), now) == EntryOf(LiveAt(deque, now))
  {}

  /** The answer a client sees. */
  function ReplyOf(op: DequeOp, answered: Answered): Reply {
    if op.PopLeft? || op.PopRight? then Text(answered.popped) else Count(|answered.deque|)
  }

  datatype Deque = Deque(timed: Timed, replies: seq<Reply>)

  /** Operations on the deque, the i-th at instant `clock(i)`. */
  function ApplyAll(start: Timed, ops: seq<DequeOp>, clock: nat -> int): Deque {
    if ops == [] then Deque(start, []) else
    var n := |ops| - 1;
    var before := ApplyAll(start, ops[..n], clock);
    var live := LiveAt(before.timed, clock(n));
    Deque(Applied(live, ops[n]), before.replies + [ReplyOf(ops[n], Apply(live.items, ops[n]))])
  }

  datatype Key = Key(entry: Option<Entry>, replies: seq<Reply>)

  /** The same commands on the key; each finds what is live at its instant. */
  function UpdateAll(start: Option<Entry>, ops: seq<DequeOp>, clock: nat -> int): Key {
    if ops == [] then Key(start, []) else
    var n := |ops| - 1;
    var before := UpdateAll(start, ops[..n], clock);
    var change := Update(KeyOpOf(ops[n]), LiveEntry(before.entry, clock(n)), clock(n));
    Key(change.entry, before.replies + [change.reply])
  }

  /** Any sequence of list commands on a key that stands for a deque, with or without a
      deadline and at any instants, leaves and answers what the abstract deque does. */
  lemma {:induction false} ListRefinesDeque(start: Timed, ops: seq<DequeOp>, clock: nat -> int)
    requires forall op :: op in ops ==> Proper(KeyOpOf(op))
    ensures var key, deque := UpdateAll(EntryOf(start), ops, clock), ApplyAll(start, ops, clock);
      key.entry == EntryOf(deque.timed) && key.replies == deque.replies
  {
    if ops != [] {
      var n := |ops| - 1;
      ListRefinesDeque(start, ops[..n], clock);
      assert ops[n] in ops;
      var before := ApplyAll(start, ops[..n], clock).timed;
      LiveEntryOf(before, clock(n));
      OpRefines(LiveAt(before, clock(n)), ops[n], clock(n));
    }
  }

  // ---- First in, first out ----

  function Pushed(ops: seq<DequeOp>): seq<string> {
    if ops == [] then [] else
    var last := ops[|ops| - 1];
    Pushed(ops[..|ops| - 1]) + if last.PushRight? then last.values else []
  }

  /** What the replies handed out. */
  function Popped(replies: seq<Reply>): seq<string> {
    if replies == [] then [] else
    var last := replies[|replies| - 1];
    Popped(replies[..|replies| - 1]) + if last.Text? && last.text.Some? then [last.text.value] else []
  }

  function ItemsOf(e: Option<Entry>): seq<string> {
    if e.Some? then e.value.list else []
  }

  lemma PoppedSnoc(replies: seq<Reply>, r: Reply)
    ensures Popped(replies + [r]) == Popped(replies) + if r.Text? && r.text.Some? then [r.text.value] else []
  {
    assert (replies + [r])[..|replies|] == replies;
  }

  lemma Regrouped(a: seq<string>, b: seq<string>, c: seq<string>)
    ensures a + (b + c) == a + b + c
    ensures b != [] ==> a + [b[0]] + b[1..] == a + b
    ensures a + b + [] == a + b
  {}

  /** One command moves elements in at one end or one out at the other. */
  lemma FifoStep(items: seq<string>, replies: seq<Reply>, op: DequeOp)
    requires op.PushRight? || op.PopLeft?
    ensures var answered := Apply(items, op);
      Popped(replies + [ReplyOf(op, answered)]) + answered.deque
        == Popped(replies) + items + if op.PushRight? then op.values else []
  {
    PoppedSnoc(replies, ReplyOf(op, Apply(items, op)));
    if op.PushRight? {
      PushEachRightAppends(items, op.values);
      Regrouped(Popped(replies), items, op.values);
      Regrouped(Popped(replies), [], []);
    } else {
      Regrouped(Popped(replies), items, []);
    }
  }

  lemma {:induction false} DequeIsFifo(ops: seq<DequeOp>, clock: nat -> int)
    requires forall op :: op in ops ==> op.PushRight? || op.PopLeft?
    ensures var deque := ApplyAll(EMPTY, ops, clock);
      deque.timed.deadline == None && Popped(deque.replies) + deque.timed.items == Pushed(ops)
  {
    if ops != [] {
      var n := |ops| - 1;
      DequeIsFifo(ops[..n], clock);
      assert ops[n] in ops;
      var before := ApplyAll(EMPTY, ops[..n], clock);
      FifoStep(before.timed.items, before.replies, ops[n]);
    }
  }

  /** With RPUSH and LPOP alone on a missing key, what the replies handed out followed by what
      is still in the list is, in order, what went in. */
  lemma FirstInFirstOut(ops: seq<DequeOp>, clock: nat -> int)
    requires forall op :: op in ops ==> op.PushRight? || op.PopLeft?
    requires forall op :: op in ops ==> Proper(KeyOpOf(op))
    ensures var key := UpdateAll(None, ops, clock); Popped(key.replies) + ItemsOf(key.entry) == Pushed(ops)
  {
    ListRefinesDeque(EMPTY, ops, clock);
    DequeIsFifo(ops, clock);
  }

  // ---- As a client says it ----

  predicate IsPush(args: Command) {
    Calls(args, "LPUSH") || Calls(args, "RPUSH")
  }

  predicate IsPop(args: Command) {
    Calls(args, "LPOP") || Calls(args, "RPOP")
  }

  /** LPUSH or RPUSH with values, LPOP or RPOP without, on `key`. */
  predicate OnDeque(args: Command, key: string) {
    |args| >= 2 && args[1] == key && ((IsPush(args) && |args| >= 3) || (IsPop(args) && |args| == 2))
  }

  /** What the client asks of the deque: L is the left end, R the right one. */
  function Asked(args: Command): DequeOp
    requires |args| >= 2
  {
    if Calls(args, "LPUSH") then PushLeft(args[2..])
    else if Calls(args, "RPUSH") then PushRight(args[2..])
    else if Calls(args, "LPOP") then PopLeft
    else PopRight
  }

  lemma PushParses(args: Command, key: string)
    requires OnDeque(args, key) && IsPush(args)
    ensures Parse(args) == Single(key, KeyOpOf(Asked(args))) && Proper(KeyOpOf(Asked(args)))
  {
    CalledBy(args, if Calls(args, "LPUSH") then NameLPush else NameRPush);
  }

  lemma PopParses(args: Command, key: string)
    requires OnDeque(args, key) && IsPop(args) && !IsPush(args)
    ensures Parse(args) == Single(key, KeyOpOf(Asked(args)))
  {
    CalledBy(args, if Calls(args, "LPOP") then NameLPop else NameRPop);
  }

  lemma DequeParses(args: Command, key: string)
    requires OnDeque(args, key)
    ensures Parse(args) == Single(key, KeyOpOf(Asked(args))) && Proper(KeyOpOf(Asked(args)))
  {
    if IsPush(args) {
      PushParses(args, key);
    } else {
      PopParses(args, key);
    }
  }

  /** Every event is a list command on the key, at the instant the clock says. */
  ghost predicate ListRun(events: seq<Event>, key: string, clock: nat -> int) {
    forall i :: 0 <= i < |events| ==> OnDeque(events[i].args, key) && events[i].now == clock(i)
  }

  function AskedAll(events: seq<Event>): (r: seq<DequeOp>)
    requires forall i :: 0 <= i < |events| ==> |events[i].args| >= 2
    ensures |r| == |events|
  {
    seq(|events|, i requires 0 <= i < |events| => Asked(events[i].args))
  }

  /** What has been applied is live where it was applied. */
  lemma AppliedLive(deque: Timed, op: DequeOp, now: int)
    ensures LiveEntry(EntryOf(Applied(LiveAt(deque, now), op)), now) == EntryOf(Applied(LiveAt(deque, now), op))
  {}

  /** An executor that serves one list command as the deque at its key would. */
  ghost predicate ServesDeque(g: Engine, m: Space, key: string, deque: Timed, args: Command, now: int) {
    OnDeque(args, key) && Look(m, key) == EntryOf(deque) ==>
      var live, op, o := LiveAt(deque, now), Asked(args), g.exec(m, args, now);
      && Look(o.space, key) == EntryOf(Applied(live, op))
      && o.answer == One(ReplyOf(op, Apply(live.items, op)))
  }

  /** One list command of a client, on the deque at its key. */
  lemma DequeCommand(m: Space, key: string, deque: Timed, args: Command, now: int)
    ensures ServesDeque(VOLTKV, m, key, deque, args, now)
  {
    if OnDeque(args, key) && Look(m, key) == EntryOf(deque) {
      DequeParses(args, key);
      ExecOnKey(m, args, key, KeyOpOf(Asked(args)), now);
      LiveEntryOf(deque, now);
      OpRefines(LiveAt(deque, now), Asked(args), now);
      AppliedLive(deque, Asked(args), now);
    }
  }

  lemma AskedPrefix(events: seq<Event>, key: string, clock: nat -> int)
    requires ListRun(events, key, clock) && events != []
    ensures var n := |events| - 1;
      && ListRun(events[..n], key, clock)
      && AskedAll(events)[..n] == AskedAll(events[..n]) && AskedAll(events)[n] == Asked(events[n].args)
  {}

  ghost predicate RunsAsDeque(run: Ran, key: string, deque: Deque) {
    && Look(run.space, key) == EntryOf(deque.timed)
    && |deque.replies| == |run.answers|
    && forall i :: 0 <= i < |run.answers| ==> run.answers[i] == One(deque.replies[i])
  }

  lemma {:induction false} ServedRun(
      g: Engine, m: Space, key: string, start: Timed, events: seq<Event>, clock: nat -> int)
    requires forall m, deque, args, now :: ServesDeque(g, m, key, deque, args, now)
    requires ListRun(events, key, clock) && Look(m, key) == EntryOf(start)
    ensures RunsAsDeque(RunFrom(g, m, events), key, ApplyAll(start, AskedAll(events), clock))
  {
    if events != [] {
      var n := |events| - 1;
      AskedPrefix(events, key, clock);
      ServedRun(g, m, key, start, events[..n], clock);
      var before := ApplyAll(start, AskedAll(events[..n]), clock);
      assert ServesDeque(g, RunFrom(g, m, events[..n]).space, key, before.timed, events[n].args, events[n].now);
    }
  }

  /** Any run of LPUSH, RPUSH, LPOP and RPOP, in any case, leaves at the key and answers what the
      abstract deque does. */
  lemma ClientRefinesDeque(m: Space, key: string, start: Timed, events: seq<Event>, clock: nat -> int)
    requires ListRun(events, key, clock) && Look(m, key) == EntryOf(start)
    ensures RunsAsDeque(RunFrom(VOLTKV, m, events), key, ApplyAll(start, AskedAll(events), clock))
  {
    forall m, deque, args, now ensures ServesDeque(VOLTKV, m, key, deque, args, now) {
      DequeCommand(m, key, deque, args, now);
    }
    ServedRun(VOLTKV, m, key, start, events, clock);
  }

  /** What the answers handed out. */
  function HandedOut(answers: seq<Answer>): seq<string> {
    if answers == [] then [] else
    var last := answers[|answers| - 1];
    HandedOut(answers[..|answers| - 1]) +
      if last.One? && last.reply.Text? && last.reply.text.Some? then [last.reply.text.value] else []
  }

  lemma {:induction false} HandedOutPopped(answers: seq<Answer>, replies: seq<Reply>)
    requires |answers| == |replies| && forall i :: 0 <= i < |answers| ==> answers[i] == One(replies[i])
    ensures HandedOut(answers) == Popped(replies)
  {
    if answers != [] {
      var n := |answers| - 1;
      HandedOutPopped(answers[..n], replies[..n]);
    }
  }

  /** The values the client has pushed with RPUSH, in order. */
  function PushedBy(events: seq<Event>): seq<string>
    requires forall i :: 0 <= i < |events| ==> |events[i].args| >= 2
  {
    if events == [] then [] else
    var n := |events| - 1;
    PushedBy(events[..n]) + if Calls(events[n].args, "RPUSH") then events[n].args[2..] else []
  }

  /** A client that only says RPUSH and LPOP. */
  ghost predicate FifoRun(events: seq<Event>) {
    forall i :: 0 <= i < |events| ==> Calls(events[i].args, "RPUSH") || Calls(events[i].args, "LPOP")
  }

  lemma AskedFifo(args: Command)
    requires |args| >= 2 && (Calls(args, "RPUSH") || Calls(args, "LPOP"))
    ensures Asked(args) == if Calls(args, "RPUSH") then PushRight(args[2..]) else PopLeft
  {
    if Calls(args, "RPUSH") {
      CalledBy(args, NameRPush);
      if Calls(args, "LPUSH") { CalledBy(args, NameLPush); }
    } else {
      CalledBy(args, NameLPop);
      if Calls(args, "LPUSH") { CalledBy(args, NameLPush); }
    }
  }

  lemma {:induction false} PushedByAsked(events: seq<Event>, key: string, clock: nat -> int)
    requires ListRun(events, key, clock) && FifoRun(events)
    ensures Pushed(AskedAll(events)) == PushedBy(events)
    ensures forall op :: op in AskedAll(events) ==> op.PushRight? || op.PopLeft?
  {
    forall i | 0 <= i < |events|
      ensures AskedAll(events)[i] == if Calls(events[i].args, "RPUSH") then PushRight(events[i].args[2..]) else PopLeft
    {
      AskedFifo(events[i].args);
    }
    if events != [] {
      var n := |events| - 1;
      AskedPrefix(events, key, clock);
      PushedByAsked(events[..n], key, clock);
    }
  }

  /** With RPUSH and LPOP alone on a missing key, what a client has been handed out, followed by
      what is still in the list, is in order what it has pushed. */
  lemma ClientFifo(m: Space, key: string, events: seq<Event>, clock: nat -> int)
    requires ListRun(events, key, clock) && FifoRun(events) && key !in m
    ensures var run := RunFrom(VOLTKV, m, events);
      HandedOut(run.answers) + ItemsOf(Look(run.space, key)) == PushedBy(events)
  {
    var ops := AskedAll(events);
    ClientRefinesDeque(m, key, EMPTY, events, clock);
    PushedByAsked(events, key, clock);
    DequeIsFifo(ops, clock);
    HandedOutPopped(RunFrom(VOLTKV, m, events).answers, ApplyAll(EMPTY, ops, clock).replies);
  }

  // ---- Ranges ----

  /** The position an index means: from the left end if it is not negative, otherwise from the
      right end, -1 being the last. */
  function Position(list: seq<string>, index: int): int {
    if index < 0 then |list| + index else index
  }

  /** Where the range starts once clamped. */
  function RangeStart(list: seq<string>, start: int): int {
    if Position(list, start) < 0 then 0 else Position(list, start)
  }

  /** Position `i` lies between the two ends. */
  predicate Between(list: seq<string>, start: int, stop: int, i: int) {
    Position(list, start) <= i <= Position(list, stop)
  }

  /** LRANGE for all signed indexes: position i is in the range if and only if it lies between
      the two normalised ends, and the elements come in order. */
  lemma RangeIsClampedSlice(list: seq<string>, start: int, stop: int)
    ensures var r, lo := Slice(list, start, stop), RangeStart(list, start);
      && (forall i :: 0 <= i < |list| ==>
            (Between(list, start, stop, i) <==> lo <= i < lo + |r|))
      && (r != [] ==> lo + |r| <= |list|)
      && (forall j :: 0 <= j < |r| ==> r[j] == list[lo + j])
  {}

  /** LRANGE agrees with LINDEX element by element. */
  lemma RangeAgreesWithIndex(e: Entry, start: int, stop: int, j: nat, now: int)
    requires e.kind == KindList && j < |Slice(e.list, start, stop)|
    ensures Update(LRange(start, stop), Some(e), now).reply == Items(Slice(e.list, start, stop))
    ensures Update(LIndex(RangeStart(e.list, start) + j), Some(e), now).reply
      == Text(Some(Slice(e.list, start, stop)[j]))
  {
    RangeIsClampedSlice(e.list, start, stop);
  }

  /** A list, or nothing. */
  predicate IsList(e: Option<Entry>) {
    e.Some? ==> e.value.kind == KindList
  }

  /** LINDEX, in any case, answers the element at the position its index means, or nothing where
      there is none. */
  lemma LIndexShows(m: Space, args: Command, index: int, now: int)
    requires Calls(args, "LINDEX") && |args| == 3 && ParseInt(args[2]) == Some(index)
    ensures var e := LiveEntry(Look(m, args[1]), now);
      var list := ItemsOf(e);
      var at := Position(list, index);
      Exec(m, args, now).answer == One(
        if !IsList(e) then Refused(WrongType) else Text(if 0 <= at < |list| then Some(list[at]) else None))
  {
    CalledBy(args, NameLIndex);
    ExecOnKey(m, args, args[1], LIndex(index), now);
    IndexReply(LiveEntry(Look(m, args[1]), now), index, now);
  }

  lemma IndexReply(e: Option<Entry>, index: int, now: int)
    ensures var list, at := ItemsOf(e), Position(ItemsOf(e), index);
      Update(LIndex(index), e, now).reply ==
        if !IsList(e) then Refused(WrongType) else Text(if 0 <= at < |list| then Some(list[at]) else None)
  {}

  lemma RangeReply(e: Option<Entry>, start: int, stop: int, now: int)
    ensures var reply := Update(LRange(start, stop), e, now).reply;
      if !IsList(e) then reply == Refused(WrongType)
      else reply.Items? && IsRange(ItemsOf(e), start, stop, reply.items)
  {
    SliceIsRange(ItemsOf(e), start, stop);
  }

  /** LRANGE, in any case, answers the elements between the positions its indexes mean: `items`
      is what it answers exactly if it is the part of the list in which they lie, in order. */
  lemma LRangeShows(m: Space, args: Command, start: int, stop: int, now: int)
    requires Calls(args, "LRANGE") && |args| == 4
    requires ParseInt(args[2]) == Some(start) && ParseInt(args[3]) == Some(stop)
    ensures var e, answer := LiveEntry(Look(m, args[1]), now), Exec(m, args, now).answer;
      if !IsList(e) then answer == One(Refused(WrongType))
      else answer.One? && answer.reply.Items? && IsRange(ItemsOf(e), start, stop, answer.reply.items)
  {
    CalledBy(args, NameLRange);
    ExecOnKey(m, args, args[1], LRange(start, stop), now);
    RangeReply(LiveEntry(Look(m, args[1]), now), start, stop, now);
  }

  /** `items` are the elements between the two ends. */
  ghost predicate IsRange(list: seq<string>, start: int, stop: int, items: seq<string>) {
    var lo := RangeStart(list, start);
    && (forall i :: 0 <= i < |list| ==> (Between(list, start, stop, i) <==> lo <= i < lo + |items|))
    && (items != [] ==> lo + |items| <= |list|)
    && (forall j :: 0 <= j < |items| && lo + j < |list| ==> items[j] == list[lo + j])
  }

  lemma SliceIsRange(list: seq<string>, start: int, stop: int)
    ensures IsRange(list, start, stop, Slice(list, start, stop))
    ensures list == [] ==> Slice(list, start, stop) == []
  {
    RangeIsClampedSlice(list, start, stop);
  }
}
