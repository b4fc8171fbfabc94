/** The keyspace as one flat map with exact expiry: the reference the sharded store is
    proved against, and the state the log theorems talk about. Instants and durations are
    integers in nanoseconds. */
module Keyspace {
  import opened Basics
  import opened Decimal

  datatype Kind = KindNone | KindString | KindHash | KindList

  /** One stored value; `kind` says which payload field is meaningful. */
  datatype Entry = Entry(
    kind: Kind,
    str: string,
    hash: map<string, string>,
    list: seq<string>,
    expiresAt: Option<int>)
  {
    predicate Expired(now: int) {
      expiresAt.Some? && now > expiresAt.value
    }

    /** The payload is the one the kind names, and no collection is empty. */
    ghost predicate WellFormed() {
      match kind
      case KindNone => false
      case KindString => hash == map[] && list == []
      case KindHash => str == "" && hash != map[] && list == []
      case KindList => str == "" && hash == map[] && list != []
    }
  }

  type Space = map<string, Entry>

  ghost predicate WellFormed(m: Space) {
    forall k :: k in m ==> m[k].WellFormed()
  }

  function StringEntry(value: string, expiresAt: Option<int>): Entry {
    Entry(KindString, value, map[], [], expiresAt)
  }

  function Deadline(ttl: int, now: int): Option<int> {
    if ttl > 0 then Some(now + ttl) else None
  }

  /** time.Until: the remaining time, saturated to an int64 duration. */
  function Until(t: int, now: int): (d: int)
    ensures IsInt64(d)
  {
    if t - now > MAX_INT64 then MAX_INT64 else if t - now < MIN_INT64 then MIN_INT64 else t - now
  }

  // ---- Operations on one key ----

  datatype KeyOp =
    | Set(value: string, ttl: int)
    | SetNX(value: string, ttl: int)
    | SetXX(value: string, ttl: int)
    | Get
    | Append(suffix: string)
    | GetSet(value: string)
    | IncrBy(delta: int)
    | Del
    | Exists
    | TypeOf
    | Expire(ttl: int)
    | Persist
    | TTL
    | HSet(pairs: seq<(string, string)>)
    | HGet(field: string)
    | HDel(fields: seq<string>)
    | LPush(values: seq<string>)
    | RPush(values: seq<string>)
    | LPop
    | RPop
    | LIndex(index: int)
    | LRange(start: int, stop: int)

  /** What the command layer passes down: at least one pair or value to store. */
  ghost predicate Proper(op: KeyOp) {
    match op
    case HSet(pairs) => pairs != []
    case LPush(values) => values != []
    case RPush(values) => values != []
    case _ => true
  }

  datatype Error = WrongType | NotInteger | Overflow

  datatype Reply =
    | Done
    | Flag(yes: bool)
    | Count(n: int)
    | Text(text: Option<string>)
    | KindIs(kind: Kind)
    | Remaining(found: bool, left: Option<int>)
    | Items(items: seq<string>)
    | Refused(error: Error)

  datatype Change = Change(entry: Option<Entry>, reply: Reply)

  function PutFields(hash: map<string, string>, pairs: seq<(string, string)>): map<string, string> {
    if pairs == [] then hash
    else var last := pairs[|pairs| - 1]; PutFields(hash, pairs[..|pairs| - 1])[last.0 := last.1]
  }

  function DropFields(hash: map<string, string>, fields: seq<string>): map<string, string> {
    hash - Elements(fields)
  }

  predicate WouldOverflow(cur: int, delta: int) {
    (delta > 0 && cur > MAX_INT64 - delta) || (delta < 0 && cur < MIN_INT64 - delta)
  }

  function NormalizeIndex(i: int, length: nat): int {
    if i < 0 then length + i else i
  }

  function Slice(list: seq<string>, start: int, stop: int): seq<string> {
    var n := |list|;
    var lo, hi := NormalizeIndex(start, n), NormalizeIndex(stop, n);
    var lo', hi' := if lo < 0 then 0 else lo, if hi >= n then n - 1 else hi;
    if lo' > hi' || n == 0 then [] else list[lo'..hi' + 1]
  }

  function Increment(e: Option<Entry>, delta: int): Change {
    if e.Some? && e.value.kind != KindString then Change(e, Refused(WrongType)) else
    var cur := if e.Some? then ParseInt(e.value.str) else Some(0);
    if cur.None? then Change(e, Refused(NotInteger))
    else if WouldOverflow(cur.value, delta) then Change(e, Refused(Overflow))
    else
      var base := if e.Some? then e.value else StringEntry("", None);
      Change(Some(base.(str := FormatInt(cur.value + delta))), Count(cur.value + delta))
  }

  function PutHash(e: Option<Entry>, pairs: seq<(string, string)>): Change {
    if e.Some? && e.value.kind != KindHash then Change(e, Refused(WrongType)) else
    var base := if e.Some? then e.value else Entry(KindHash, "", map[], [], None);
    var hash := PutFields(base.hash, pairs);
    Change(Some(base.(hash := hash)), Count(|hash| - |base.hash|))
  }

  function DropHash(e: Option<Entry>, fields: seq<string>): Change {
    if e.None? then Change(e, Count(0))
    else if e.value.kind != KindHash then Change(e, Refused(WrongType))
    else
      var hash := DropFields(e.value.hash, fields);
      Change(if hash == map[] then None else Some(e.value.(hash := hash)), Count(|e.value.hash| - |hash|))
  }

  function Push(e: Option<Entry>, left: seq<string>, right: seq<string>): Change {
    if e.Some? && e.value.kind != KindList then Change(e, Refused(WrongType)) else
    var base := if e.Some? then e.value else Entry(KindList, "", map[], [], None);
    var list := left + base.list + right;
    Change(Some(base.(list := list)), Count(|list|))
  }

  function Pop(e: Option<Entry>, left: bool): Change {
    if e.None? then Change(e, Text(None))
    else if e.value.kind != KindList then Change(e, Refused(WrongType))
    else
      var list := e.value.list;
      var n := |list|;
      if n == 0 then Change(e, Text(None))
      else
        var rest := if left then list[1..] else list[..n - 1];
        Change(
          if rest == [] then None else Some(e.value.(list := rest)),
          Text(Some(if left then list[0] else list[n - 1])))
  }

  /** The effect of `op` on a key whose live entry is `e`. */
  function Update(op: KeyOp, e: Option<Entry>, now: int): Change {
    match op
    case Set(value, ttl) => Change(Some(StringEntry(value, Deadline(ttl, now))), Done)
    case SetNX(value, ttl) =>
      if e.Some? then Change(e, Flag(false))
      else Change(Some(StringEntry(value, Deadline(ttl, now))), Flag(true))
    case SetXX(value, ttl) =>
      if e.None? then Change(e, Flag(false))
      else Change(Some(StringEntry(value, Deadline(ttl, now))), Flag(true))
    case Get =>
      if e.None? then Change(e, Text(None))
      else Change(e, if e.value.kind != KindString then Refused(WrongType) else Text(Some(e.value.str)))
    case Append(suffix) =>
      if e.None? then Change(Some(StringEntry(suffix, None)), Count(|suffix|))
      else if e.value.kind != KindString then Change(e, Refused(WrongType))
      else Change(Some(e.value.(str := e.value.str + suffix)), Count(|e.value.str + suffix|))
    case GetSet(value) =>
      if e.None? then Change(Some(StringEntry(value, None)), Text(None))
      else if e.value.kind != KindString then Change(e, Refused(WrongType))
      else Change(Some(StringEntry(value, None)), Text(Some(e.value.str)))
    case IncrBy(delta) => Increment(e, delta)
    case Del => Change(None, Flag(e.Some?))
    case Exists => Change(e, Flag(e.Some?))
    case TypeOf => Change(e, KindIs(if e.Some? then e.value.kind else KindNone))
    case Expire(ttl) =>
      if e.None? then Change(e, Flag(false))
      else Change(Some(e.value.(expiresAt := Some(now + ttl))), Flag(true))
    case Persist =>
      if e.None? || e.value.expiresAt.None? then Change(e, Flag(false))
      else Change(Some(e.value.(expiresAt := None)), Flag(true))
    case TTL =>
      if e.None? then Change(e, Remaining(false, None))
      else if e.value.expiresAt.None? then Change(e, Remaining(true, None))
      else Change(e, Remaining(true, Some(Until(e.value.expiresAt.value, now))))
    case HSet(pairs) => PutHash(e, pairs)
    case HGet(field) =>
      if e.None? then Change(e, Text(None))
      else if e.value.kind != KindHash then Change(e, Refused(WrongType))
      else Change(e, Text(if field in e.value.hash then Some(e.value.hash[field]) else None))
    case HDel(fields) => DropHash(e, fields)
    case LPush(values) => Push(e, Reverse(values), [])
    case RPush(values) => Push(e, [], values)
    case LPop => Pop(e, true)
    case RPop => Pop(e, false)
    case LIndex(index) =>
      if e.None? then Change(e, Text(None))
      else if e.value.kind != KindList then Change(e, Refused(WrongType))
      else
        var i := NormalizeIndex(index, |e.value.list|);
        Change(e, Text(if 0 <= i < |e.value.list| then Some(e.value.list[i]) else None))
    case LRange(start, stop) =>
      if e.None? then Change(e, Items([]))
      else if e.value.kind != KindList then Change(e, Refused(WrongType))
      else Change(e, Items(Slice(e.value.list, start, stop)))
  }

  /** On a key whose live entry is `e`, the operation gives the key a deadline of its own. */
  predicate SetsDeadline(op: KeyOp, e: Option<Entry>) {
    match op
    case Set(_, ttl) => ttl > 0
    case SetNX(_, ttl) => ttl > 0 && e.None?
    case SetXX(_, ttl) => ttl > 0 && e.Some?
    case Expire(_) => e.Some?
    case _ => false
  }

  // ---- Operations on the whole keyspace ----

  /** The unexpired entries at `now`. */
  function Live(m: Space, now: int): (r: Space)
    ensures forall k :: k in r <==> k in m && !m[k].Expired(now)
    ensures forall k :: k in r ==> r[k] == m[k]
  {
    map k | k in m && !m[k].Expired(now) :: m[k]
  }

  function Look(m: Space, k: string): Option<Entry> {
    if k in m then Some(m[k]) else None
  }

  function LiveEntry(e: Option<Entry>, now: int): Option<Entry> {
    if e.Some? && e.value.Expired(now) then None else e
  }

  /** `m` with the entry at `k` replaced, or removed when `e` is None. */
  function Put(m: Space, k: string, e: Option<Entry>): (r: Space)
    ensures forall j :: Look(r, j) == if j == k then e else Look(m, j)
  {
    if e.Some? then m[k := e.value] else m - {k}
  }

  datatype Next = Next(space: Space, reply: Reply)

  /** One operation at instant `now`: keys past their deadline vanish, then `op` acts. */
  function Step(m: Space, k: string, op: KeyOp, now: int): Next {
    var live := Live(m, now);
    var change := Update(op, Look(live, k), now);
    Next(Put(live, k, LiveEntry(change.entry, now)), change.reply)
  }

  /** No deadline lies before `now`. */
  ghost predicate Quiet(m: Space, now: int) {
    Live(m, now) == m
  }

  lemma SameLooks(a: Space, b: Space)
    requires forall k :: Look(a, k) == Look(b, k)
    ensures a == b
  {
    forall k ensures k in a <==> k in b { assert Look(a, k) == Look(b, k); }
    forall k | k in a ensures a[k] == b[k] { assert Look(a, k) == Look(b, k); }
  }

  lemma LookLive(m: Space, now: int, k: string)
    ensures Look(Live(m, now), k) == LiveEntry(Look(m, k), now)
  {}

  /** Dropping the dead after a write is dropping them before it and filtering what is written. */
  lemma LivePut(m: Space, k: string, e: Option<Entry>, now: int)
    ensures Live(Put(m, k, e), now) == Put(Live(m, now), k, LiveEntry(e, now))
  {
    var a, b := Live(Put(m, k, e), now), Put(Live(m, now), k, LiveEntry(e, now));
    forall j ensures Look(a, j) == Look(b, j) {
      LookLive(Put(m, k, e), now, j);
      LookLive(m, now, j);
    }
    SameLooks(a, b);
  }

  lemma LiveLive(m: Space, now: int, later: int)
    requires now <= later
    ensures Live(Live(m, now), later) == Live(m, later)
  {}

  lemma PutSame(m: Space, k: string)
    ensures Put(m, k, Look(m, k)) == m
  {
    SameLooks(Put(m, k, Look(m, k)), m);
  }

  /** Every operation leaves only live entries behind. */
  lemma StepQuiet(m: Space, k: string, op: KeyOp, now: int)
    ensures Quiet(Step(m, k, op, now).space, now)
  {
    var live := Live(m, now);
    var e := LiveEntry(Update(op, Look(live, k), now).entry, now);
    LivePut(live, k, e, now);
    LiveLive(m, now, now);
  }

  /** An operation on one key leaves every other key alone. */
  lemma StepElsewhere(m: Space, k: string, op: KeyOp, now: int, j: string)
    requires j != k
    ensures Look(Step(m, k, op, now).space, j) == Look(Live(m, now), j)
  {}

  // ---- Shape ----

  lemma PutFieldsKeepsKeys(hash: map<string, string>, pairs: seq<(string, string)>)
    ensures hash.Keys <= PutFields(hash, pairs).Keys
    ensures pairs != [] ==> PutFields(hash, pairs) != map[]
  {
    if pairs != [] {
      PutFieldsKeepsKeys(hash, pairs[..|pairs| - 1]);
      assert pairs[|pairs| - 1].0 in PutFields(hash, pairs);
    }
  }

  ghost predicate WellFormedEntry(e: Option<Entry>) {
    e.Some? ==> e.value.WellFormed()
  }

  lemma PutHashWellFormed(e: Option<Entry>, pairs: seq<(string, string)>)
    requires pairs != [] && WellFormedEntry(e)
    ensures WellFormedEntry(PutHash(e, pairs).entry)
  {
    PutFieldsKeepsKeys(if e.Some? then e.value.hash else map[], pairs);
  }

  lemma PushWellFormed(e: Option<Entry>, left: seq<string>, right: seq<string>)
    requires left != [] || right != []
    requires WellFormedEntry(e)
    ensures WellFormedEntry(Push(e, left, right).entry)
  {
    var base := if e.Some? then e.value.list else [];
    assert |left + base + right| > 0;
  }

  lemma UpdateWellFormed(op: KeyOp, e: Option<Entry>, now: int)
    requires Proper(op) && WellFormedEntry(e)
    ensures WellFormedEntry(Update(op, e, now).entry)
  {
    match op
    case HSet(pairs) => PutHashWellFormed(e, pairs);
    case LPush(values) => PushWellFormed(e, Reverse(values), []);
    case RPush(values) => PushWellFormed(e, [], values);
    case _ =>
  }

  /** Every operation the command layer issues keeps payloads and kinds in step and leaves
      no empty collection. */
  lemma StepWellFormed(m: Space, k: string, op: KeyOp, now: int)
    requires Proper(op) && WellFormed(m)
    ensures WellFormed(Step(m, k, op, now).space)
  {
    var live := Live(m, now);
    UpdateWellFormed(op, Look(live, k), now);
    var r := Step(m, k, op, now).space;
    forall j | j in r ensures r[j].WellFormed() {
      assert Look(r, j) == if j == k then LiveEntry(Update(op, Look(live, k), now).entry, now) else Look(live, j);
    }
  }

  lemma RefusedKeeps(op: KeyOp, e: Option<Entry>, now: int)
    requires Update(op, e, now).reply.Refused?
    ensures Update(op, e, now).entry == e
  {}

  lemma PutLive(m: Space, k: string, now: int)
    ensures Put(Live(m, now), k, LiveEntry(Look(Live(m, now), k), now)) == Live(m, now)
  {
    LookLive(m, now, k);
    PutSame(Live(m, now), k);
  }

  /** An operation that answers with an error changes nothing that is live. */
  lemma RefusedChangesNothing(m: Space, k: string, op: KeyOp, now: int)
    requires Step(m, k, op, now).reply.Refused?
    ensures Step(m, k, op, now).space == Live(m, now)
  {
    RefusedKeeps(op, Look(Live(m, now), k), now);
    PutLive(m, k, now);
  }
}
