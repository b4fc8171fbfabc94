/** voltkv's executor undoes its own compaction: the commands emitted for a key recreate it. */
module CompactionProof {
  import opened Basics
  import opened Decimal
  import opened Resp
  import opened Keyspace
  import opened Commands
  import opened Simulation
  import opened History
  import opened LogFilter
  import opened Compaction

  // ---- One key ----

  /** The part of a hash that lies in some fields. */
  function Picked(hash: map<string, string>, fields: seq<string>): map<string, string> {
    map f | f in hash && f in fields :: hash[f]
  }

  lemma PickedMore(hash: map<string, string>, fields: seq<string>, f: string)
    requires f in hash
    ensures Picked(hash, fields + [f]) == Picked(hash, fields)[f := hash[f]]
  {
    forall g ensures g in Picked(hash, fields + [f]) <==> g in Picked(hash, fields)[f := hash[f]] {}
  }

  lemma PairsMore(fields: seq<string>, f: string, hash: map<string, string>)
    requires f in hash && forall g :: g in fields ==> g in hash
    ensures PairUp(Flatten(fields + [f], hash)) == PairUp(Flatten(fields, hash)) + [(f, hash[f])]
  {
    var flat := Flatten(fields, hash);
    assert (fields + [f])[..|fields|] == fields;
    assert Flatten(fields + [f], hash) == flat + [f, hash[f]];
    forall i | 0 <= i < |fields| ensures PairUp(flat + [f, hash[f]])[i] == PairUp(flat)[i] {
      assert (flat + [f, hash[f]])[2 * i] == flat[2 * i] && (flat + [f, hash[f]])[2 * i + 1] == flat[2 * i + 1];
    }
  }

  lemma {:induction false} PutFlattened(fields: seq<string>, hash: map<string, string>)
    requires forall f :: f in fields ==> f in hash
    ensures PutFields(map[], PairUp(Flatten(fields, hash))) == Picked(hash, fields)
  {
    if fields == [] {
      assert PairUp(Flatten(fields, hash)) == [];
    } else {
      var n := |fields| - 1;
      var start, f := fields[..n], fields[n];
      assert fields == start + [f] && f in fields;
      PutFlattened(start, hash);
      PairsMore(start, f, hash);
      var before := PairUp(Flatten(start, hash));
      assert (before + [(f, hash[f])])[..|before|] == before;
      PickedMore(hash, start, f);
    }
  }

  lemma HashRestored(s: Snap)
    requires IsSnap(s)
    ensures PutFields(map[], PairUp(Flatten(s.fields, s.entry.hash))) == s.entry.hash
  {
    PutFlattened(s.fields, s.entry.hash);
    assert Picked(s.entry.hash, s.fields) == s.entry.hash;
  }

  lemma HSetArgsParse(key: string, flat: Command)
    requires |flat| >= 2 && |flat| % 2 == 0
    ensures Parse(["HSET", key] + flat) == Single(key, HSet(PairUp(flat)))
  {
    HSetReads();
    assert (["HSET", key] + flat)[2..] == flat;
  }

  lemma HSetParses(s: Snap)
    requires IsSnap(s) && s.entry.hash != map[]
    ensures Parse(["HSET", s.key] + Flatten(s.fields, s.entry.hash))
      == Single(s.key, HSet(PairUp(Flatten(s.fields, s.entry.hash))))
  {
    var f :| f in s.entry.hash;
    assert f in s.fields;
    HSetArgsParse(s.key, Flatten(s.fields, s.entry.hash));
  }

  lemma RPushParses(key: string, list: seq<string>)
    requires list != []
    ensures Parse(["RPUSH", key] + list) == Single(key, RPush(list))
  {
    RPushReads();
    assert (["RPUSH", key] + list)[2..] == list;
  }

  lemma PExpireParses(key: string, ms: int)
    requires 0 <= ms && IsInt64(ms * MILLISECOND)
    ensures Parse(["PEXPIRE", key, FormatInt(ms)]) == Single(key, Expire(ms * MILLISECOND))
  {
    PExpireReads();
    ParseFormat(ms);
  }

  lemma StepOnAbsent(m: Space, key: string, op: KeyOp, now: int)
    requires Quiet(m, now) && key !in m
    ensures Step(m, key, op, now).space == Put(m, key, LiveEntry(Update(op, None, now).entry, now))
  {}

  lemma StepOnPresent(m: Space, key: string, e: Entry, op: KeyOp, now: int)
    requires Quiet(m, now) && !e.Expired(now)
    ensures Step(m[key := e], key, op, now).space == Put(m, key, LiveEntry(Update(op, Some(e), now).entry, now))
  {
    LivePut(m, key, Some(e), now);
    var a, b := Step(m[key := e], key, op, now).space, Put(m, key, LiveEntry(Update(op, Some(e), now).entry, now));
    assert m[key := e] == Put(m, key, Some(e));
    SameLooks(a, b);
  }

  lemma StringRestores(m: Space, s: Snap, r: int)
    requires Quiet(m, r) && s.key !in m
    requires s.entry.WellFormed() && s.entry.kind == KindString
    ensures Exec(m, ["SET", s.key, s.entry.str], r).space == m[s.key := s.entry.(expiresAt := None)]
  {
    PlainSetExec(m, s.key, s.entry.str, r);
    StepOnAbsent(m, s.key, Set(s.entry.str, 0), r);
  }

  lemma HashRestores(m: Space, s: Snap, args: Command, r: int)
    requires Quiet(m, r) && s.key !in m
    requires IsSnap(s) && s.entry.WellFormed() && s.entry.kind == KindHash
    requires args == ["HSET", s.key] + Flatten(s.fields, s.entry.hash)
    ensures Exec(m, args, r).space == m[s.key := s.entry.(expiresAt := None)]
  {
    var op := HSet(PairUp(Flatten(s.fields, s.entry.hash)));
    HSetParses(s);
    HashRestored(s);
    ExecParsed(m, args, s.key, op, r);
    StepOnAbsent(m, s.key, op, r);
  }

  lemma ListRestores(m: Space, s: Snap, args: Command, r: int)
    requires Quiet(m, r) && s.key !in m
    requires s.entry.WellFormed() && s.entry.kind == KindList
    requires args == ["RPUSH", s.key] + s.entry.list
    ensures Exec(m, args, r).space == m[s.key := s.entry.(expiresAt := None)]
  {
    RPushParses(s.key, s.entry.list);
    ExecParsed(m, args, s.key, RPush(s.entry.list), r);
    StepOnAbsent(m, s.key, RPush(s.entry.list), r);
    assert [] + [] + s.entry.list == s.entry.list;
  }

  /** The payload command rebuilds the entry without its expiry. */
  lemma BodyRestores(m: Space, s: Snap, r: int)
    requires Quiet(m, r) && s.key !in m
    requires IsSnap(s) && s.entry.WellFormed()
    ensures |Body(s)| == 1
    ensures Exec(m, Body(s)[0], r).space == m[s.key := s.entry.(expiresAt := None)]
  {
    match s.entry.kind {
      case KindString => StringRestores(m, s, r);
      case KindHash => HashRestores(m, s, Body(s)[0], r);
      case KindList => ListRestores(m, s, Body(s)[0], r);
    }
  }

  lemma MsBound(t: int, now: int)
    ensures var ms := MsUntil(t, now); 0 <= ms && IsInt64(ms * MILLISECOND)
  {}

  lemma PExpireRestores(m: Space, key: string, e: Entry, ms: int, r: int)
    requires Quiet(m, r) && !e.Expired(r)
    requires 0 < ms && IsInt64(ms * MILLISECOND)
    ensures Exec(m[key := e], ["PEXPIRE", key, FormatInt(ms)], r).space
      == m[key := e.(expiresAt := Some(r + ms * MILLISECOND))]
  {
    PExpireParses(key, ms);
    ExecParsed(m[key := e], ["PEXPIRE", key, FormatInt(ms)], key, Expire(ms * MILLISECOND), r);
    StepOnPresent(m, key, e, Expire(ms * MILLISECOND), r);
  }

  lemma SnapshotRestores(m: Space, s: Snap, now: int, r: int)
    requires Quiet(m, r) && s.key !in m
    requires IsSnap(s) && s.entry.WellFormed()
    ensures Replay(VOLTKV, m, SnapshotCommands(s, now), At(r)) == m[s.key := Restored(s.entry, now, r)]
  {
    var body, bare := Body(s), s.entry.(expiresAt := None);
    BodyRestores(m, s, r);
    ReplayOne(VOLTKV, m, body[0], At(r));
    assert body == [body[0]];
    if s.entry.expiresAt.Some? && MsUntil(s.entry.expiresAt.value, now) > 0 {
      ExpiryRestores(m, body, bare, s, now, r);
    }
  }

  lemma ExpiryRestores(m: Space, body: seq<Command>, bare: Entry, s: Snap, now: int, r: int)
    requires Quiet(m, r) && bare == s.entry.(expiresAt := None)
    requires s.entry.expiresAt.Some? && MsUntil(s.entry.expiresAt.value, now) > 0
    requires Replay(VOLTKV, m, body, At(r)) == m[s.key := bare]
    ensures Replay(VOLTKV, m, body + [["PEXPIRE", s.key, FormatInt(MsUntil(s.entry.expiresAt.value, now))]], At(r))
      == m[s.key := Restored(s.entry, now, r)]
  {
    var ms := MsUntil(s.entry.expiresAt.value, now);
    assert Restored(s.entry, now, r) == bare.(expiresAt := Some(r + ms * MILLISECOND));
    MsBound(s.entry.expiresAt.value, now);
    PExpireRestores(m, s.key, bare, ms, r);
    ReplayThen(m, body, ["PEXPIRE", s.key, FormatInt(ms)], r, m[s.key := bare]);
  }

  lemma ReplayThen(m: Space, records: seq<Command>, record: Command, now: int, mid: Space)
    requires Replay(VOLTKV, m, records, At(now)) == mid
    ensures Replay(VOLTKV, m, records + [record], At(now)) == Exec(mid, record, now).space
  {
    ReplaySnoc(VOLTKV, m, records, record, At(now));
  }

  lemma VoltkvRestoresSnaps()
    ensures RestoresSnaps(VOLTKV)
  {
    forall m: Space, s: Snap, now: int, r: int | Quiet(m, r) && s.key !in m && IsSnap(s) && s.entry.WellFormed()
      ensures RestoresSnap(VOLTKV, m, s, now, r)
    {
      SnapshotRestores(m, s, now, r);
    }
  }

  /** A key with less than a millisecond to live. */
  const DYING: Snap := Snap("k", StringEntry("v", Some(MILLISECOND - 1)), [])

  const DYING_SPACE: Space := map[DYING.key := DYING.entry]

  lemma DyingSnapshot()
    ensures IsSnapshot(DYING_SPACE, [DYING]) && WellFormed(DYING_SPACE) && Quiet(DYING_SPACE, 0)
  {
    assert SnapOf(DYING_SPACE, DYING);
    assert [DYING][0] == DYING;
  }

  /** The failing input: compaction makes a key that is about to expire permanent. */
  lemma CompactionCanLoseExpiry()
    ensures IsSnapshot(DYING_SPACE, [DYING]) && Quiet(DYING_SPACE, 0)
    ensures DYING_SPACE[DYING.key].expiresAt.Some?
    ensures NoExpiry(Replay(VOLTKV, map[], RewriteCommands([DYING], 0), At(0)))
  {
    DyingSnapshot();
    VoltkvRestoresSnaps();
    CompactionRebuilds(VOLTKV, DYING_SPACE, [DYING], 0, 0);
    assert NoExpiry(RestoredSpace(DYING_SPACE, 0, 0));
  }

  // ---- Deadline-free snapshots ----

  lemma BodyTtlFree(s: Snap)
    requires IsSnap(s)
    ensures forall c :: c in Body(s) ==> TtlFree(c)
  {
    match s.entry.kind {
      case KindString => PlainSetTtlFree(s.key, s.entry.str);
      case KindHash => if s.entry.hash != map[] { HSetParses(s); }
      case KindList => if s.entry.list != [] { RPushParses(s.key, s.entry.list); }
      case KindNone =>
    }
  }

  lemma {:induction false} RewriteTtlFree(m: Space, snaps: seq<Snap>, now: int)
    requires NoExpiry(m)
    requires forall i :: 0 <= i < |snaps| ==> SnapOf(m, snaps[i]) && Walkable(snaps[i])
    ensures forall c :: c in RewriteCommands(snaps, now) ==> TtlFree(c)
  {
    if snaps != [] {
      var n := |snaps| - 1;
      RewriteTtlFree(m, snaps[..n], now);
      assert SnapOf(m, snaps[n]);
      BodyTtlFree(snaps[n]);
    }
  }
}
