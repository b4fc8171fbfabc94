/** Hashes as a client reads them back: every field holds what was last written to it. */
module Hashes {
  import opened Basics
  import opened Resp
  import opened Keyspace
  import opened Commands
  import opened History
  import opened LogFilter
  import opened Words
  import opened ClientRuns

  /** A hash, or nothing. */
  predicate IsHash(e: Option<Entry>) {
    e.Some? ==> e.value.kind == KindHash
  }

  function FieldAt(e: Option<Entry>, field: string): Option<string>
    requires IsHash(e)
  {
    if e.Some? && field in e.value.hash then Some(e.value.hash[field]) else None
  }

  // ---- What is written ----

  /** A value for a field, or its removal. */
  datatype FieldWrite = FieldWrite(field: string, value: Option<string>)

  /** What was last written to the field, if anything was. */
  function LastWrite(writes: seq<FieldWrite>, field: string): Option<FieldWrite> {
    if writes == [] then None else
    var last := writes[|writes| - 1];
    if last.field == field then Some(last) else LastWrite(writes[..|writes| - 1], field)
  }

  /** What the field holds after the writes. */
  function Written(writes: seq<FieldWrite>, field: string, before: Option<string>): Option<string> {
    var last := LastWrite(writes, field);
    if last.Some? then last.value.value else before
  }

  function Named(writes: seq<FieldWrite>): set<string> {
    set i | 0 <= i < |writes| :: writes[i].field
  }

  /** Write `i` names the field, and none after it does. */
  ghost predicate IsLast(writes: seq<FieldWrite>, i: nat, field: string)
    requires i < |writes|
  {
    writes[i].field == field && forall j :: i < j < |writes| ==> writes[j].field != field
  }

  /** What LastWrite finds: there is something to find exactly if a write names the field, and it
      is the last one that does. */
  lemma {:induction false} LastWriteIsLast(writes: seq<FieldWrite>, field: string)
    ensures LastWrite(writes, field).Some? <==> field in Named(writes)
    ensures forall i :: 0 <= i < |writes| && IsLast(writes, i, field) ==> LastWrite(writes, field) == Some(writes[i])
  {
    if writes != [] {
      var n := |writes| - 1;
      LastWriteIsLast(writes[..n], field);
      assert Named(writes) == Named(writes[..n]) + {writes[n].field};
      forall i | 0 <= i < |writes| && IsLast(writes, i, field) ensures LastWrite(writes, field) == Some(writes[i]) {
        if i < n {
          assert IsLast(writes[..n], i, field);
        }
      }
    }
  }

  lemma {:induction false} WrittenConcat(
      first: seq<FieldWrite>, second: seq<FieldWrite>, field: string, before: Option<string>)
    ensures Written(first + second, field, before) == Written(second, field, Written(first, field, before))
  {
    if second == [] {
      assert first + second == first;
    } else {
      var n := |second| - 1;
      LastApart(first, second);
      assert (first + second)[..|first + second| - 1] == first + second[..n];
      WrittenConcat(first, second[..n], field, before);
    }
  }

  // ---- HSET and HDEL, one at a time ----

  /** HSET with fields and values, or HDEL with fields, on `key`. */
  predicate OnHash(args: Command, key: string) {
    |args| >= 3 && args[1] == key
    && (Calls(args, "HSET") ==> |args| >= 4 && |args| % 2 == 0)
    && (Calls(args, "HSET") || Calls(args, "HDEL"))
  }

  /** What the client writes. */
  function WritesOf(args: Command): seq<FieldWrite>
    requires |args| >= 3 && (Calls(args, "HSET") ==> |args| % 2 == 0)
  {
    if Calls(args, "HSET")
    then seq(|args| / 2 - 1, i requires 0 <= i < |args| / 2 - 1 => FieldWrite(args[2 * i + 2], Some(args[2 * i + 3])))
    else seq(|args| - 2, i requires 0 <= i < |args| - 2 => FieldWrite(args[i + 2], None))
  }

  /** Every field holds what was last written to it, or what it held; the deadline is kept as
      long as there is a field. */
  ghost predicate Rewritten(before: Option<Entry>, writes: seq<FieldWrite>, after: Option<Entry>) {
    && IsHash(before) && IsHash(after)
    && (forall f :: FieldAt(after, f) == Written(writes, f, FieldAt(before, f)))
    && (after.Some? ==> DeadlineOf(after) == DeadlineOf(before))
    && (after.Some? <==> exists f :: FieldAt(after, f).Some?)
  }

  /** The named fields that were there before. */
  function Present(e: Option<Entry>, writes: seq<FieldWrite>): set<string>
    requires IsHash(e)
  {
    set f | f in Named(writes) && FieldAt(e, f).Some?
  }

  /** The named fields that were not. */
  function Absent(e: Option<Entry>, writes: seq<FieldWrite>): set<string>
    requires IsHash(e)
  {
    set f | f in Named(writes) && FieldAt(e, f).None?
  }

  function Pairs(writes: seq<FieldWrite>): seq<(string, string)>
    requires forall i :: 0 <= i < |writes| ==> writes[i].value.Some?
  {
    seq(|writes|, i requires 0 <= i < |writes| => (writes[i].field, writes[i].value.value))
  }

  /** `after` is `hash` with the writes done to it. */
  ghost predicate Stored(hash: map<string, string>, writes: seq<FieldWrite>, after: map<string, string>) {
    && after.Keys == hash.Keys + Named(writes)
    && forall f :: f in after ==> Some(after[f]) == Written(writes, f, if f in hash then Some(hash[f]) else None)
  }

  lemma StoredOneMore(hash: map<string, string>, writes: seq<FieldWrite>, before: map<string, string>, value: string)
    requires writes != [] && writes[|writes| - 1].value == Some(value)
    requires Stored(hash, writes[..|writes| - 1], before)
    ensures Stored(hash, writes, before[writes[|writes| - 1].field := value])
  {
    var n := |writes| - 1;
    assert Named(writes) == Named(writes[..n]) + {writes[n].field};
  }

  lemma {:induction false} PutFieldsWrites(hash: map<string, string>, writes: seq<FieldWrite>)
    requires forall i :: 0 <= i < |writes| ==> writes[i].value.Some?
    ensures Stored(hash, writes, PutFields(hash, Pairs(writes)))
  {
    if writes == [] {
      assert Pairs(writes) == [];
    } else {
      var n := |writes| - 1;
      PutFieldsWrites(hash, writes[..n]);
      assert Pairs(writes)[..n] == Pairs(writes[..n]);
      StoredOneMore(hash, writes, PutFields(hash, Pairs(writes[..n])), writes[n].value.value);
    }
  }

  lemma {:induction false} RemovalsWrite(writes: seq<FieldWrite>, field: string, before: Option<string>)
    requires forall i :: 0 <= i < |writes| ==> writes[i].value.None?
    ensures Written(writes, field, before) == if field in Named(writes) then None else before
  {
    if writes != [] {
      var n := |writes| - 1;
      RemovalsWrite(writes[..n], field, before);
      assert Named(writes) == Named(writes[..n]) + {writes[n].field};
    }
  }

  lemma UnionSize(a: set<string>, b: set<string>)
    ensures |a + b| == |a| + |b - a|
  {
    assert a + b == a + (b - a);
  }

  lemma DifferenceSize(a: set<string>, b: set<string>)
    ensures |a| - |a - b| == |a * b|
  {
    assert a == (a - b) + a * b;
  }

  function HashAt(e: Option<Entry>): map<string, string> {
    if e.Some? then e.value.hash else map[]
  }

  lemma PutHashFields(e: Option<Entry>, writes: seq<FieldWrite>)
    requires IsHash(e) && writes != [] && forall i :: 0 <= i < |writes| ==> writes[i].value.Some?
    ensures Rewritten(e, writes, PutHash(e, Pairs(writes)).entry)
  {
    var after := PutHash(e, Pairs(writes)).entry;
    PutFieldsWrites(HashAt(e), writes);
    forall f ensures FieldAt(after, f) == Written(writes, f, FieldAt(e, f)) {
      LastWriteIsLast(writes, f);
    }
    assert writes[0].field in Named(writes);
    assert FieldAt(after, writes[0].field).Some?;
  }

  lemma PutHashCounts(e: Option<Entry>, writes: seq<FieldWrite>)
    requires IsHash(e) && forall i :: 0 <= i < |writes| ==> writes[i].value.Some?
    ensures PutHash(e, Pairs(writes)).reply == Count(|Absent(e, writes)|)
  {
    var hash := HashAt(e);
    var after := PutFields(hash, Pairs(writes));
    PutFieldsWrites(hash, writes);
    UnionSize(hash.Keys, Named(writes));
    assert Absent(e, writes) == Named(writes) - hash.Keys;
    assert |after.Keys| == |after| && |hash.Keys| == |hash|;
  }

  lemma DropHashRewrites(e: Option<Entry>, writes: seq<FieldWrite>, fields: seq<string>)
    requires IsHash(e) && Elements(fields) == Named(writes)
    requires forall i :: 0 <= i < |writes| ==> writes[i].value.None?
    ensures var change := DropHash(e, fields);
      Rewritten(e, writes, change.entry) && change.reply == Count(|Present(e, writes)|)
  {
    var hash, after := HashAt(e), DropHash(e, fields).entry;
    var left := DropFields(hash, fields);
    forall f ensures FieldAt(after, f) == Written(writes, f, FieldAt(e, f)) {
      RemovalsWrite(writes, f, FieldAt(e, f));
    }
    if left != map[] {
      var f :| f in left;
      assert FieldAt(after, f).Some?;
    }
    DifferenceSize(hash.Keys, Named(writes));
    assert left.Keys == hash.Keys - Named(writes);
    assert Present(e, writes) == hash.Keys * Named(writes);
    assert |left.Keys| == |left| && |hash.Keys| == |hash|;
  }

  lemma HSetParses(args: Command, key: string)
    requires OnHash(args, key) && Calls(args, "HSET")
    ensures Parse(args) == Single(key, HSet(Pairs(WritesOf(args))))
  {
    CalledBy(args, NameHSet);
    var writes := WritesOf(args);
    forall i | 0 <= i < |writes| ensures PairUp(args[2..])[i] == Pairs(writes)[i] {
      assert args[2..][2 * i] == args[2 * i + 2] && args[2..][2 * i + 1] == args[2 * i + 3];
    }
    assert PairUp(args[2..]) == Pairs(writes);
  }

  lemma HDelParses(args: Command, key: string)
    requires OnHash(args, key) && !Calls(args, "HSET")
    ensures Parse(args) == Single(key, HDel(args[2..])) && Elements(args[2..]) == Named(WritesOf(args))
  {
    CalledBy(args, NameHDel);
    var writes := WritesOf(args);
    forall f ensures f in Elements(args[2..]) <==> f in Named(writes) {
      if f in Elements(args[2..]) {
        var i :| 0 <= i < |args[2..]| && args[2..][i] == f;
        assert writes[i].field == f;
      }
    }
  }

  /** What HSET answers, or HDEL: how many of the named fields are new, or were there. */
  function Counted(args: Command, e: Option<Entry>): nat
    requires |args| >= 3 && (Calls(args, "HSET") ==> |args| % 2 == 0) && IsHash(e)
  {
    if Calls(args, "HSET") then |Absent(e, WritesOf(args))| else |Present(e, WritesOf(args))|
  }

  /** An executor that serves one HSET or HDEL on a live hash as it should. */
  ghost predicate ServesHash(g: Engine, m: Space, key: string, args: Command, now: int) {
    OnHash(args, key) && LiveEntry(Look(m, key), now) == Look(m, key) && IsHash(Look(m, key)) ==>
      var e, writes, o := Look(m, key), WritesOf(args), g.exec(m, args, now);
      && Rewritten(e, writes, Look(o.space, key))
      && o.answer == One(Count(Counted(args, e)))
  }

  lemma RewrittenLive(before: Option<Entry>, writes: seq<FieldWrite>, after: Option<Entry>, now: int)
    requires Rewritten(before, writes, after) && LiveEntry(before, now) == before
    ensures LiveEntry(after, now) == after
  {}

  lemma UpdateServes(m: Space, key: string, args: Command, op: KeyOp, change: Change, now: int)
    requires OnHash(args, key) && Parse(args) == Single(key, op)
    requires var e := Look(m, key);
      && LiveEntry(e, now) == e && IsHash(e) && change == Update(op, e, now)
      && Rewritten(e, WritesOf(args), change.entry) && change.reply == Count(Counted(args, e))
    ensures ServesHash(VOLTKV, m, key, args, now)
  {
    ExecOnKey(m, args, key, op, now);
    RewrittenLive(Look(m, key), WritesOf(args), change.entry, now);
  }

  lemma HSetCommand(m: Space, key: string, args: Command, now: int)
    requires OnHash(args, key) && Calls(args, "HSET")
    requires LiveEntry(Look(m, key), now) == Look(m, key) && IsHash(Look(m, key))
    ensures ServesHash(VOLTKV, m, key, args, now)
  {
    var e, writes := Look(m, key), WritesOf(args);
    HSetParses(args, key);
    PutHashFields(e, writes);
    PutHashCounts(e, writes);
    UpdateServes(m, key, args, HSet(Pairs(writes)), PutHash(e, Pairs(writes)), now);
  }

  lemma HDelCommand(m: Space, key: string, args: Command, now: int)
    requires OnHash(args, key) && !Calls(args, "HSET")
    requires LiveEntry(Look(m, key), now) == Look(m, key) && IsHash(Look(m, key))
    ensures ServesHash(VOLTKV, m, key, args, now)
  {
    var e, writes, fields := Look(m, key), WritesOf(args), args[2..];
    HDelParses(args, key);
    DropHashRewrites(e, writes, fields);
    DropUpdates(e, fields, now);
    UpdateServes(m, key, args, HDel(fields), DropHash(e, fields), now);
  }

  lemma DropUpdates(e: Option<Entry>, fields: seq<string>, now: int)
    ensures Update(HDel(fields), e, now) == DropHash(e, fields)
  {}

  /** HSET gives each named field the value of the last pair that names it, HDEL takes the named
      ones away, and no other field changes. HSET answers how many of them are new, HDEL how many
      there were. */
  lemma HashCommand(m: Space, key: string, args: Command, now: int)
    ensures ServesHash(VOLTKV, m, key, args, now)
  {
    if OnHash(args, key) && LiveEntry(Look(m, key), now) == Look(m, key) && IsHash(Look(m, key)) {
      if Calls(args, "HSET") {
        HSetCommand(m, key, args, now);
      } else {
        HDelCommand(m, key, args, now);
      }
    }
  }

  // ---- Runs ----

  ghost predicate HashRun(events: seq<Event>, key: string) {
    forall i :: 0 <= i < |events| ==> OnHash(events[i].args, key)
  }

  /** Everything the client has written, in order. */
  function AllWrites(events: seq<Event>, key: string): seq<FieldWrite>
    requires HashRun(events, key)
  {
    if events == [] then [] else
    var n := |events| - 1;
    AllWrites(events[..n], key) + WritesOf(events[n].args)
  }

  lemma RewrittenTwice(
      start: Option<Entry>, first: seq<FieldWrite>, e: Option<Entry>, second: seq<FieldWrite>, end: Option<Entry>)
    requires Holds(start, first, e) && Rewritten(e, second, end)
    ensures Holds(start, first + second, end)
  {
    forall f ensures FieldAt(end, f) == Written(first + second, f, FieldAt(start, f)) {
      WrittenConcat(first, second, f, FieldAt(start, f));
    }
  }

  /** Every field holds what was last written to it since the start; the deadline is the one it
      had there, or none. */
  ghost predicate Holds(start: Option<Entry>, writes: seq<FieldWrite>, e: Option<Entry>) {
    && IsHash(start) && IsHash(e)
    && (forall f :: FieldAt(e, f) == Written(writes, f, FieldAt(start, f)))
    && (DeadlineOf(e) == DeadlineOf(start) || DeadlineOf(e) == None)
  }

  lemma {:induction false} ServedHash(g: Engine, m: Space, key: string, events: seq<Event>)
    requires forall m, args, now :: ServesHash(g, m, key, args, now)
    requires HashRun(events, key) && IsHash(Look(m, key)) && Outlasts(Look(m, key), events)
    ensures Holds(Look(m, key), AllWrites(events, key), Look(RunFrom(g, m, events).space, key))
  {
    if events != [] {
      var n := |events| - 1;
      var start, before := Look(m, key), RunFrom(g, m, events[..n]).space;
      ServedHash(g, m, key, events[..n]);
      assert LiveEntry(start, events[n].now) == start;
      assert LiveEntry(Look(before, key), events[n].now) == Look(before, key);
      assert ServesHash(g, before, key, events[n].args, events[n].now);
      RewrittenTwice(start, AllWrites(events[..n], key), Look(before, key), WritesOf(events[n].args),
                     Look(g.exec(before, events[n].args, events[n].now).space, key));
    }
  }

  /** Any run of HSET and HDEL, in any case, on a missing key or a hash that does not expire
      meanwhile leaves in every field what was last written to it. */
  lemma ClientHash(m: Space, key: string, events: seq<Event>)
    requires HashRun(events, key) && IsHash(Look(m, key)) && Outlasts(Look(m, key), events)
    ensures Holds(Look(m, key), AllWrites(events, key), Look(RunFrom(VOLTKV, m, events).space, key))
  {
    forall m, args, now ensures ServesHash(VOLTKV, m, key, args, now) {
      HashCommand(m, key, args, now);
    }
    ServedHash(VOLTKV, m, key, events);
  }

  /** HGET shows one field of a live hash. */
  lemma HGetShows(m: Space, args: Command, now: int)
    requires Calls(args, "HGET") && |args| == 3
    ensures var e := LiveEntry(Look(m, args[1]), now);
      Exec(m, args, now).answer == One(if IsHash(e) then Text(FieldAt(e, args[2])) else Refused(WrongType))
  {
    CalledBy(args, NameHGet);
    ExecOnKey(m, args, args[1], HGet(args[2]), now);
  }

  /** HGET answers what was last written to the field as long as the hash is live. */
  lemma HashShows(m: Space, key: string, field: string, events: seq<Event>, later: int)
    requires HashRun(events, key) && IsHash(Look(m, key)) && Outlasts(Look(m, key), events)
    requires LiveEntry(Look(m, key), later) == Look(m, key)
    ensures Exec(RunFrom(VOLTKV, m, events).space, ["HGET", key, field], later).answer
      == One(Text(Written(AllWrites(events, key), field, FieldAt(Look(m, key), field))))
  {
    ClientHash(m, key, events);
    HGetShows(RunFrom(VOLTKV, m, events).space, ["HGET", key, field], later);
  }
}
