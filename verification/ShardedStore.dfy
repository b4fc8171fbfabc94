/** The sharded store: lock-striped maps with lazy expiry, proved to behave as the one flat
    map of module Keyspace. Each method is one critical section; `now` is the instant the
    method reads from the clock. */
module ShardedStore {
  import opened Basics
  import opened Decimal
  import opened Keyspace
  import Glob

  // ---- Powers of two and masks ----

  function Pow2(k: nat): (p: nat)
    ensures p >= 1
  {
    if k == 0 then 1 else 2 * Pow2(k - 1)
  }

  ghost predicate IsPow2(n: int) {
    exists k: nat :: n == Pow2(k)
  }

  lemma {:induction false} Pow2Monotone(a: nat, b: nat)
    requires a < b
    ensures 2 * Pow2(a) <= Pow2(b)
  {
    if a + 1 < b {
      Pow2Monotone(a, b - 1);
    }
  }

  /** The least power of two at or above `n`. */
  method NextPow2(n: int) returns (p: nat)
    ensures IsPow2(p) && n <= p
    ensures forall q :: IsPow2(q) && n <= q ==> p <= q
  {
    if n < 1 {
      assert 1 == Pow2(0);
      return 1;
    }
    p := 1;
    ghost var k: nat := 0;
    while p < n
      invariant p == Pow2(k)
      invariant k > 0 ==> Pow2(k - 1) < n
      decreases n - p
    {
      p := p * 2;
      k := k + 1;
    }
    forall q | IsPow2(q) && n <= q ensures p <= q {
      var j: nat :| q == Pow2(j);
      if j < k - 1 {
        Pow2Monotone(j, k - 1);
      } else if k <= j - 1 {
        Pow2Monotone(k, j);
      }
    }
  }

  /** Bitwise and of two naturals, one binary digit at a time. */
  function BitAnd(a: nat, b: nat): (r: nat)
    ensures r <= b
  {
    if a == 0 || b == 0 then 0
    else 2 * BitAnd(a / 2, b / 2) + (if a % 2 == 1 && b % 2 == 1 then 1 else 0)
  }

  /** Masking with a power of two less one is taking the remainder. */
  lemma {:induction false} MaskIsRemainder(h: nat, k: nat)
    ensures BitAnd(h, Pow2(k) - 1) == h % Pow2(k)
  {
    if k > 0 {
      var p := Pow2(k - 1);
      MaskIsRemainder(h / 2, k - 1);
      assert (Pow2(k) - 1) / 2 == p - 1 && (Pow2(k) - 1) % 2 == 1;
      HalfRemainder(h, p);
    }
  }

  lemma HalfRemainder(h: nat, p: nat)
    requires p >= 1
    ensures h % (2 * p) == 2 * ((h / 2) % p) + h % 2
  {
    var q, r := (h / 2) / p, (h / 2) % p;
    assert h / 2 == q * p + r;
    assert h == (2 * p) * q + (2 * r + h % 2);
    RemainderUnique(h, 2 * p, q, 2 * r + h % 2);
  }

  lemma RemainderUnique(h: nat, d: nat, q: nat, r: nat)
    requires d >= 1 && r < d && h == d * q + r
    ensures h % d == r
  {
    QuotientUnique(d, q, r, h / d, h % d);
  }

  lemma QuotientUnique(d: nat, q: nat, r: nat, q': nat, r': nat)
    requires d * q + r == d * q' + r' && r < d && r' < d
    ensures r == r'
  {
    if q < q' {
      AtLeastOnce(d, q, q');
    } else if q' < q {
      AtLeastOnce(d, q', q);
    }
  }

  lemma AtLeastOnce(d: nat, small: nat, large: nat)
    requires small < large
    ensures d * large >= d * small + d
  {
    var e := large - small - 1;
    assert d * large == d * small + d * e + d by {
      assert large == small + e + 1;
    }
    assert d * e >= 0;
  }

  // ---- One operation, seen from the flat map ----

  /** Going from `before` to `after` and answering `reply` is what `op` on `key` does to the
      flat map of live entries. */
  ghost predicate Does(before: Space, key: string, op: KeyOp, now: int, after: Space, reply: Reply) {
    && Live(after, now) == Step(before, key, op, now).space
    && reply == Step(before, key, op, now).reply
  }

  /** The live entry a method finds, and what the reference says to do with it. */
  function Found(m: Space, key: string, now: int): Option<Entry> {
    LiveEntry(Look(m, key), now)
  }

  function Asked(m: Space, key: string, op: KeyOp, now: int): Change {
    Update(op, Found(m, key, now), now)
  }

  lemma AskedPop(m: Space, key: string, left: bool, now: int)
    ensures Asked(m, key, if left then KeyOp.LPop else KeyOp.RPop, now) == Pop(Found(m, key, now), left)
  {}

  lemma AskedHSet(m: Space, key: string, pairs: seq<(string, string)>, now: int)
    ensures Asked(m, key, KeyOp.HSet(pairs), now) == PutHash(Found(m, key, now), pairs)
  {}

  lemma AskedRange(m: Space, key: string, start: int, stop: int, now: int)
    ensures var e := Found(m, key, now);
      Asked(m, key, KeyOp.LRange(start, stop), now) == Change(e,
        if e.None? then Items([])
        else if e.value.kind != KindList then Refused(WrongType)
        else Items(Slice(e.value.list, start, stop)))
  {}

  lemma PopTakes(e: Entry, left: bool, list: seq<string>, rest: Option<Entry>, r: Reply)
    requires e.kind == KindList && |e.list| > 0
    requires list == if left then e.list[1..] else e.list[..|e.list| - 1]
    requires rest == if |list| == 0 then None else Some(e.(list := list))
    requires r == Text(Some(if left then e.list[0] else e.list[|e.list| - 1]))
    ensures Pop(Some(e), left) == Change(rest, r)
  {}

  lemma DropHashWrites(e: Entry, fields: seq<string>, hash: map<string, string>, rest: Option<Entry>, removed: int)
    requires e.kind == KindHash
    requires hash == DropFields(e.hash, fields) && removed == |e.hash| - |hash|
    requires rest == if |hash| == 0 then None else Some(e.(hash := hash))
    ensures DropHash(Some(e), fields) == Change(rest, Count(removed))
  {
    assert |hash| == 0 <==> hash == map[];
  }

  /** Writing what the reference says, over dead or live entries alike, is enough. */
  lemma WriteDoes(m: Space, key: string, op: KeyOp, now: int, e: Option<Entry>, reply: Reply)
    requires Asked(m, key, op, now) == Change(e, reply)
    ensures Does(m, key, op, now, Put(m, key, e), reply)
  {
    LookLive(m, now, key);
    LivePut(m, key, e, now);
  }

  /** Writing nothing is enough when the reference leaves the entry as found. */
  lemma ReadDoes(m: Space, key: string, op: KeyOp, now: int, reply: Reply)
    requires Asked(m, key, op, now) == Change(Found(m, key, now), reply)
    ensures Does(m, key, op, now, m, reply)
  {
    LookLive(m, now, key);
    PutSame(Live(m, now), key);
    LookLive(Live(m, now), now, key);
    LiveLive(m, now, now);
  }

  /** An entry that has expired can be removed without anyone noticing. */
  lemma RemovalUnseen(m: Space, key: string, now: int)
    requires key in m && m[key].Expired(now)
    ensures Live(Put(m, key, None), now) == Live(m, now)
  {
    LivePut(m, key, None, now);
    LookLive(m, now, key);
    PutSame(Live(m, now), key);
  }

  class Shard {
    var data: Space

    constructor ()
      ensures data == map[]
    {
      data := map[];
    }
  }

  class Store {
    const shards: seq<Shard>
    const mask: nat
    const hash: string -> nat

    /** Shards are distinct, one more than the mask, and each key lives only in its own. */
    ghost predicate Valid()
      reads shards
    {
      && |shards| == mask + 1
      && (forall i, j :: 0 <= i < j < |shards| ==> shards[i] != shards[j])
      && (forall i, k :: 0 <= i < |shards| && k in shards[i].data ==> Home(k) == i)
    }

    /** The index of the shard responsible for a key. */
    function Home(key: string): nat {
      BitAnd(hash(key), mask)
    }

    /** Every entry physically present, dead ones included, as one map. */
    ghost function Physical(): (m: Space)
      requires Valid()
      reads shards
      ensures forall k :: Look(m, k) == Look(shards[Home(k)].data, k)
    {
      var keys := set i, k | 0 <= i < |shards| && k in shards[i].data :: k;
      map k | k in keys :: shards[Home(k)].data[k]
    }

    /** A store of at least `shardCount` shards, rounded up to a power of two, so that masking
        a hash is taking it modulo the number of shards. */
    constructor (shardCount: int, hash: string -> nat)
      ensures Valid() && Physical() == map[] && fresh(shards)
      ensures this.hash == hash
      ensures IsPow2(|shards|) && shardCount <= |shards|
      ensures forall q :: IsPow2(q) && shardCount <= q ==> |shards| <= q
      ensures forall key :: Home(key) == hash(key) % |shards|
    {
      var n := NextPow2(shardCount);
      var made: seq<Shard> := [];
      while |made| < n
        invariant |made| <= n
        invariant forall i :: 0 <= i < |made| ==> fresh(made[i]) && made[i].data == map[]
        invariant forall i, j :: 0 <= i < j < |made| ==> made[i] != made[j]
      {
        var sh := new Shard();
        made := made + [sh];
      }
      this.shards := made;
      this.mask := n - 1;
      this.hash := hash;
      new;
      ghost var k: nat :| n == Pow2(k);
      forall key ensures Home(key) == hash(key) % n {
        MaskIsRemainder(hash(key), k);
      }
      SameLooks(Physical(), map[]);
    }

    // ---- Access to the owning shard ----

    /** sh.data[key] = e */
    method Assign(key: string, e: Entry)
      requires Valid()
      modifies shards
      ensures Valid() && Physical() == Put(old(Physical()), key, Some(e))
    {
      ghost var was := Physical();
      var sh := shards[Home(key)];
      sh.data := sh.data[key := e];
      forall k ensures Look(Physical(), k) == if k == key then Some(e) else Look(was, k) {
        assert Look(was, k) == old(Look(shards[Home(k)].data, k));
      }
      SameLooks(Physical(), Put(was, key, Some(e)));
    }

    /** delete(sh.data, key) */
    method Delete(key: string)
      requires Valid()
      modifies shards
      ensures Valid() && Physical() == Put(old(Physical()), key, None)
    {
      ghost var was := Physical();
      var sh := shards[Home(key)];
      sh.data := sh.data - {key};
      forall k ensures Look(Physical(), k) == if k == key then None else Look(was, k) {
        assert Look(was, k) == old(Look(shards[Home(k)].data, k));
      }
      SameLooks(Physical(), Put(was, key, None));
    }

    method Lookup(key: string) returns (e: Option<Entry>)
      requires Valid()
      ensures e == Look(Physical(), key)
    {
      var sh := shards[Home(key)];
      e := if key in sh.data then Some(sh.data[key]) else None;
    }

    method GetLive(key: string, now: int) returns (e: Option<Entry>)
      requires Valid()
      ensures e == Found(Physical(), key, now)
    {
      e := Lookup(key);
      if e.Some? && e.value.Expired(now) {
        e := None;
      }
    }

    // ---- Strings ----

    method Set(key: string, value: string, ttl: int, now: int)
      requires Valid()
      modifies shards
      ensures Valid() && Does(old(Physical()), key, KeyOp.Set(value, ttl), now, Physical(), Done)
    {
      var e := StringEntry(value, None);
      if ttl > 0 {
        e := e.(expiresAt := Some(now + ttl));
      }
      WriteDoes(Physical(), key, KeyOp.Set(value, ttl), now, Some(e), Done);
      Assign(key, e);
    }

    method SetNX(key: string, value: string, ttl: int, now: int) returns (stored: bool)
      requires Valid()
      modifies shards
      ensures Valid() && Does(old(Physical()), key, KeyOp.SetNX(value, ttl), now, Physical(), Flag(stored))
    {
      var found := GetLive(key, now);
      if found.Some? {
        ReadDoes(Physical(), key, KeyOp.SetNX(value, ttl), now, Flag(false));
        return false;
      }
      var e := StringEntry(value, None);
      if ttl > 0 {
        e := e.(expiresAt := Some(now + ttl));
      }
      WriteDoes(Physical(), key, KeyOp.SetNX(value, ttl), now, Some(e), Flag(true));
      Assign(key, e);
      return true;
    }

    method SetXX(key: string, value: string, ttl: int, now: int) returns (stored: bool)
      requires Valid()
      modifies shards
      ensures Valid() && Does(old(Physical()), key, KeyOp.SetXX(value, ttl), now, Physical(), Flag(stored))
    {
      var found := GetLive(key, now);
      if found.None? {
        ReadDoes(Physical(), key, KeyOp.SetXX(value, ttl), now, Flag(false));
        return false;
      }
      var e := StringEntry(value, None);
      if ttl > 0 {
        e := e.(expiresAt := Some(now + ttl));
      }
      WriteDoes(Physical(), key, KeyOp.SetXX(value, ttl), now, Some(e), Flag(true));
      Assign(key, e);
      return true;
    }

    /** Reads the string, deleting the entry on the way out when it has expired. */
    method Get(key: string, now: int) returns (r: Reply)
      requires Valid()
      modifies shards
      ensures Valid() && Does(old(Physical()), key, KeyOp.Get, now, Physical(), r)
    {
      var e := Lookup(key);
      if e.None? {
        ReadDoes(Physical(), key, KeyOp.Get, now, Text(None));
        return Text(None);
      }
      if e.value.Expired(now) {
        ReadDoes(Physical(), key, KeyOp.Get, now, Text(None));
        LazyDelete(key, now);
        return Text(None);
      }
      r := if e.value.kind != KindString then Refused(WrongType) else Text(Some(e.value.str));
      ReadDoes(Physical(), key, KeyOp.Get, now, r);
    }

    /** Removes the entry at `key` if it is still there and has expired: invisible at `now`. */
    method LazyDelete(key: string, now: int)
      requires Valid()
      modifies shards
      ensures Valid() && Live(Physical(), now) == Live(old(Physical()), now)
    {
      var cur := Lookup(key);
      if cur.Some? && cur.value.Expired(now) {
        RemovalUnseen(Physical(), key, now);
        Delete(key);
      }
    }

    method Append(key: string, suffix: string, now: int) returns (r: Reply)
      requires Valid()
      modifies shards
      ensures Valid() && Does(old(Physical()), key, KeyOp.Append(suffix), now, Physical(), r)
    {
      var found := GetLive(key, now);
      var e := StringEntry("", None);
      if found.Some? {
        e := found.value;
        if e.kind != KindString {
          ReadDoes(Physical(), key, KeyOp.Append(suffix), now, Refused(WrongType));
          return Refused(WrongType);
        }
      }
      assert "" + suffix == suffix;
      e := e.(str := e.str + suffix);
      WriteDoes(Physical(), key, KeyOp.Append(suffix), now, Some(e), Count(|e.str|));
      Assign(key, e);
      return Count(|e.str|);
    }

    method GetSet(key: string, value: string, now: int) returns (r: Reply)
      requires Valid()
      modifies shards
      ensures Valid() && Does(old(Physical()), key, KeyOp.GetSet(value), now, Physical(), r)
    {
      var found := GetLive(key, now);
      r := Text(None);
      if found.Some? {
        if found.value.kind != KindString {
          ReadDoes(Physical(), key, KeyOp.GetSet(value), now, Refused(WrongType));
          return Refused(WrongType);
        }
        r := Text(Some(found.value.str));
      }
      WriteDoes(Physical(), key, KeyOp.GetSet(value), now, Some(StringEntry(value, None)), r);
      Assign(key, StringEntry(value, None));
    }

    method IncrBy(key: string, delta: int, now: int) returns (r: Reply)
      requires Valid()
      modifies shards
      ensures Valid() && Does(old(Physical()), key, KeyOp.IncrBy(delta), now, Physical(), r)
    {
      var cur := 0;
      var found := GetLive(key, now);
      var e := StringEntry("", None);
      if found.Some? {
        e := found.value;
        if e.kind != KindString {
          ReadDoes(Physical(), key, KeyOp.IncrBy(delta), now, Refused(WrongType));
          return Refused(WrongType);
        }
        var n := ParseInt(e.str);
        if n.None? {
          ReadDoes(Physical(), key, KeyOp.IncrBy(delta), now, Refused(NotInteger));
          return Refused(NotInteger);
        }
        cur := n.value;
      }
      if (delta > 0 && cur > MAX_INT64 - delta) || (delta < 0 && cur < MIN_INT64 - delta) {
        ReadDoes(Physical(), key, KeyOp.IncrBy(delta), now, Refused(Overflow));
        return Refused(Overflow);
      }
      cur := cur + delta;
      e := e.(str := FormatInt(cur));
      WriteDoes(Physical(), key, KeyOp.IncrBy(delta), now, Some(e), Count(cur));
      Assign(key, e);
      return Count(cur);
    }

    // ---- Any kind ----

    method Del(key: string, now: int) returns (existed: bool)
      requires Valid()
      modifies shards
      ensures Valid() && Does(old(Physical()), key, KeyOp.Del, now, Physical(), Flag(existed))
    {
      var e := Lookup(key);
      existed := e.Some? && !e.value.Expired(now);
      WriteDoes(Physical(), key, KeyOp.Del, now, None, Flag(existed));
      Delete(key);
    }

    method Exists(key: string, now: int) returns (r: bool)
      requires Valid()
      ensures Does(Physical(), key, KeyOp.Exists, now, Physical(), Flag(r))
    {
      var e := GetLive(key, now);
      ReadDoes(Physical(), key, KeyOp.Exists, now, Flag(e.Some?));
      return e.Some?;
    }

    method Type(key: string, now: int) returns (kind: Kind)
      requires Valid()
      ensures Does(Physical(), key, KeyOp.TypeOf, now, Physical(), KindIs(kind))
    {
      var e := GetLive(key, now);
      kind := if e.None? then KindNone else e.value.kind;
      ReadDoes(Physical(), key, KeyOp.TypeOf, now, KindIs(kind));
    }

    method Expire(key: string, ttl: int, now: int) returns (done: bool)
      requires Valid()
      modifies shards
      ensures Valid() && Does(old(Physical()), key, KeyOp.Expire(ttl), now, Physical(), Flag(done))
    {
      var found := GetLive(key, now);
      if found.None? {
        ReadDoes(Physical(), key, KeyOp.Expire(ttl), now, Flag(false));
        return false;
      }
      var e := found.value.(expiresAt := Some(now + ttl));
      WriteDoes(Physical(), key, KeyOp.Expire(ttl), now, Some(e), Flag(true));
      Assign(key, e);
      return true;
    }

    method Persist(key: string, now: int) returns (done: bool)
      requires Valid()
      modifies shards
      ensures Valid() && Does(old(Physical()), key, KeyOp.Persist, now, Physical(), Flag(done))
    {
      var found := GetLive(key, now);
      if found.None? || found.value.expiresAt.None? {
        ReadDoes(Physical(), key, KeyOp.Persist, now, Flag(false));
        return false;
      }
      var e := found.value.(expiresAt := None);
      WriteDoes(Physical(), key, KeyOp.Persist, now, Some(e), Flag(true));
      Assign(key, e);
      return true;
    }

    /** The clock is read a second time, at `later`, for what remains. */
    method TTL(key: string, now: int, later: int) returns (r: Reply)
      requires Valid()
      ensures r == Update(KeyOp.TTL, Found(Physical(), key, now), later).reply
      ensures later == now ==> Does(Physical(), key, KeyOp.TTL, now, Physical(), r)
    {
      var e := GetLive(key, now);
      if e.None? {
        r := Remaining(false, None);
      } else if e.value.expiresAt.None? {
        r := Remaining(true, None);
      } else {
        r := Remaining(true, Some(Until(e.value.expiresAt.value, later)));
      }
      if later == now {
        ReadDoes(Physical(), key, KeyOp.TTL, now, r);
      }
    }

    // ---- Hashes ----

    method HSet(key: string, pairs: seq<(string, string)>, now: int) returns (r: Reply)
      requires Valid()
      modifies shards
      ensures Valid() && Does(old(Physical()), key, KeyOp.HSet(pairs), now, Physical(), r)
    {
      var found := GetLive(key, now);
      var e := Entry(KindHash, "", map[], [], None);
      if found.Some? {
        e := found.value;
        if e.kind != KindHash {
          AskedHSet(Physical(), key, pairs, now);
          ReadDoes(Physical(), key, KeyOp.HSet(pairs), now, Refused(WrongType));
          return Refused(WrongType);
        }
      }
      var hash, added := PutAll(e.hash, pairs);
      AskedHSet(Physical(), key, pairs, now);
      HSetWrites(found, e, pairs, hash, added);
      e := e.(hash := hash);
      WriteDoes(Physical(), key, KeyOp.HSet(pairs), now, Some(e), Count(added));
      Assign(key, e);
      return Count(added);
    }

    method HGet(key: string, field: string, now: int) returns (r: Reply)
      requires Valid()
      ensures Does(Physical(), key, KeyOp.HGet(field), now, Physical(), r)
    {
      var e := GetLive(key, now);
      if e.None? {
        r := Text(None);
      } else if e.value.kind != KindHash {
        r := Refused(WrongType);
      } else {
        r := Text(if field in e.value.hash then Some(e.value.hash[field]) else None);
      }
      ReadDoes(Physical(), key, KeyOp.HGet(field), now, r);
    }

    method HDel(key: string, fields: seq<string>, now: int) returns (r: Reply)
      requires Valid()
      modifies shards
      ensures Valid() && Does(old(Physical()), key, KeyOp.HDel(fields), now, Physical(), r)
    {
      var found := GetLive(key, now);
      if found.None? {
        ReadDoes(Physical(), key, KeyOp.HDel(fields), now, Count(0));
        return Count(0);
      }
      if found.value.kind != KindHash {
        ReadDoes(Physical(), key, KeyOp.HDel(fields), now, Refused(WrongType));
        return Refused(WrongType);
      }
      var hash, removed := DropAll(found.value.hash, fields);
      ghost var rest := if |hash| == 0 then None else Some(found.value.(hash := hash));
      DropHashWrites(found.value, fields, hash, rest, removed);
      WriteDoes(Physical(), key, KeyOp.HDel(fields), now, rest, Count(removed));
      if |hash| == 0 {
        Delete(key);
      } else {
        Assign(key, found.value.(hash := hash));
      }
      return Count(removed);
    }

    // ---- Lists ----

    method LPush(key: string, values: seq<string>, now: int) returns (r: Reply)
      requires Valid()
      modifies shards
      ensures Valid() && Does(old(Physical()), key, KeyOp.LPush(values), now, Physical(), r)
    {
      var found := GetLive(key, now);
      var e := Entry(KindList, "", map[], [], None);
      if found.Some? {
        e := found.value;
        if e.kind != KindList {
          ReadDoes(Physical(), key, KeyOp.LPush(values), now, Refused(WrongType));
          return Refused(WrongType);
        }
      }
      var list := Prepend(values, e.list);
      assert list == Reverse(values) + e.list + [];
      e := e.(list := list);
      WriteDoes(Physical(), key, KeyOp.LPush(values), now, Some(e), Count(|list|));
      Assign(key, e);
      return Count(|list|);
    }

    method RPush(key: string, values: seq<string>, now: int) returns (r: Reply)
      requires Valid()
      modifies shards
      ensures Valid() && Does(old(Physical()), key, KeyOp.RPush(values), now, Physical(), r)
    {
      var found := GetLive(key, now);
      var e := Entry(KindList, "", map[], [], None);
      if found.Some? {
        e := found.value;
        if e.kind != KindList {
          ReadDoes(Physical(), key, KeyOp.RPush(values), now, Refused(WrongType));
          return Refused(WrongType);
        }
      }
      var list := e.list + values;
      assert list == [] + e.list + values;
      e := e.(list := list);
      WriteDoes(Physical(), key, KeyOp.RPush(values), now, Some(e), Count(|list|));
      Assign(key, e);
      return Count(|list|);
    }

    method LPop(key: string, now: int) returns (r: Reply)
      requires Valid()
      modifies shards
      ensures Valid() && Does(old(Physical()), key, KeyOp.LPop, now, Physical(), r)
    {
      r := TakeEnd(key, true, now);
    }

    method RPop(key: string, now: int) returns (r: Reply)
      requires Valid()
      modifies shards
      ensures Valid() && Does(old(Physical()), key, KeyOp.RPop, now, Physical(), r)
    {
      r := TakeEnd(key, false, now);
    }

    method TakeEnd(key: string, left: bool, now: int) returns (r: Reply)
      requires Valid()
      modifies shards
      ensures Valid()
      ensures Does(old(Physical()), key, if left then KeyOp.LPop else KeyOp.RPop, now, Physical(), r)
    {
      ghost var op := if left then KeyOp.LPop else KeyOp.RPop;
      var e := GetLive(key, now);
      AskedPop(Physical(), key, left, now);
      if e.None? || e.value.kind != KindList || |e.value.list| == 0 {
        r := if e.Some? && e.value.kind != KindList then Refused(WrongType) else Text(None);
        assert Pop(e, left) == Change(e, r);
        ReadDoes(Physical(), key, op, now, r);
        return;
      }
      var list := e.value.list;
      if left {
        r := Text(Some(list[0]));
        list := list[1..];
      } else {
        r := Text(Some(list[|list| - 1]));
        list := list[..|list| - 1];
      }
      ghost var rest := if |list| == 0 then None else Some(e.value.(list := list));
      PopTakes(e.value, left, list, rest, r);
      WriteDoes(Physical(), key, op, now, rest, r);
      if |list| == 0 {
        Delete(key);
      } else {
        Assign(key, e.value.(list := list));
      }
    }

    method LIndex(key: string, index: int, now: int) returns (r: Reply)
      requires Valid()
      ensures Does(Physical(), key, KeyOp.LIndex(index), now, Physical(), r)
    {
      var e := GetLive(key, now);
      if e.None? {
        r := Text(None);
      } else if e.value.kind != KindList {
        r := Refused(WrongType);
      } else {
        var i := NormalizeIndex(index, |e.value.list|);
        r := Text(if i < 0 || i >= |e.value.list| then None else Some(e.value.list[i]));
      }
      ReadDoes(Physical(), key, KeyOp.LIndex(index), now, r);
    }

    method LRange(key: string, start: int, stop: int, now: int) returns (r: Reply)
      requires Valid()
      ensures Does(Physical(), key, KeyOp.LRange(start, stop), now, Physical(), r)
    {
      var e := GetLive(key, now);
      if e.None? {
        r := Items([]);
      } else if e.value.kind != KindList {
        r := Refused(WrongType);
      } else {
        var items := CutOut(e.value.list, start, stop);
        r := Items(items);
      }
      AskedRange(Physical(), key, start, stop, now);
      ReadDoes(Physical(), key, KeyOp.LRange(start, stop), now, r);
    }

    // ---- Scans ----

    ghost function KeysUpTo(i: nat): set<string>
      requires Valid()
      reads shards
    {
      set k | k in Physical() && Home(k) < i
    }

    lemma NextShard(i: nat)
      requires Valid() && i < |shards|
      ensures KeysUpTo(i + 1) == KeysUpTo(i) + shards[i].data.Keys
      ensures KeysUpTo(i) !! shards[i].data.Keys
      ensures forall k :: k in shards[i].data ==> k in Physical() && Physical()[k] == shards[i].data[k]
    {
      forall k ensures k in shards[i].data <==> k in Physical() && Home(k) == i {
        assert Look(Physical(), k) == Look(shards[Home(k)].data, k);
      }
      forall k | k in shards[i].data ensures Physical()[k] == shards[i].data[k] {
        assert Look(Physical(), k) == Look(shards[Home(k)].data, k);
      }
    }

    lemma AllShards()
      requires Valid()
      ensures KeysUpTo(|shards|) == Physical().Keys
      ensures KeysUpTo(0) == {}
    {}

    /** Every live key the pattern matches, each exactly once, in some order. */
    method Keys(pattern: string, now: int) returns (out: seq<string>)
      requires Valid()
      ensures Lists(out, Matching(Physical(), Physical().Keys, pattern, now))
    {
      out := [];
      AllShards();
      for i := 0 to |shards|
        invariant Lists(out, Matching(Physical(), KeysUpTo(i), pattern, now))
      {
        var more := MatchingKeys(shards[i].data, pattern, now);
        NextShard(i);
        MatchingShard(Physical(), shards[i].data, KeysUpTo(i), pattern, now);
        ListsConcat(out, more, Matching(Physical(), KeysUpTo(i), pattern, now),
                    Matching(Physical(), shards[i].data.Keys, pattern, now));
        out := out + more;
      }
    }

    method FlushDB()
      requires Valid()
      modifies shards
      ensures Valid() && Physical() == map[]
    {
      for i := 0 to |shards|
        invariant Valid()
        invariant forall j :: 0 <= j < i ==> shards[j].data == map[]
      {
        var sh := shards[i];
        sh.data := map[];
      }
      SameLooks(Physical(), map[]);
    }

    lemma LiveNextShard(i: nat, now: int)
      requires Valid() && i < |shards|
      ensures |LiveAmong(Physical(), KeysUpTo(i + 1), now)|
        == |LiveAmong(Physical(), KeysUpTo(i), now)| + |LiveAmong(shards[i].data, shards[i].data.Keys, now)|
    {
      NextShard(i);
      LiveShard(Physical(), shards[i].data, KeysUpTo(i), now);
    }

    /** Adds one shard's live keys to a count, under its lock. */
    method CountNext(counted: nat, i: nat, now: int) returns (total: nat)
      requires Valid() && i < |shards|
      requires counted == |LiveAmong(Physical(), KeysUpTo(i), now)|
      ensures total == |LiveAmong(Physical(), KeysUpTo(i + 1), now)|
    {
      var here := CountLive(shards[i].data, now);
      LiveNextShard(i, now);
      total := counted + here;
    }

    /** The number of live keys. */
    method DBSize(now: int) returns (total: nat)
      requires Valid()
      ensures total == |Live(Physical(), now)|
    {
      total := 0;
      AllShards();
      for i := 0 to |shards|
        invariant total == |LiveAmong(Physical(), KeysUpTo(i), now)|
      {
        total := CountNext(total, i, now);
      }
      LiveAmongAll(Physical(), now);
    }

    /** Sweeping removes exactly the dead entries and counts them. */
    method SweepExpired(now: int) returns (removed: nat)
      requires Valid()
      modifies shards
      ensures Valid() && Physical() == Live(old(Physical()), now)
      ensures |old(Physical())| == |Physical()| + removed
    {
      removed := 0;
      ghost var before := Physical();
      NothingSwept(before, now);
      for i := 0 to |shards|
        invariant Valid()
        invariant |before| == |Physical()| + removed
        invariant SweptUpTo(before, i, now)
      {
        var dead := SweepShard(i, now, before);
        removed := removed + dead;
      }
      AllSwept(before, now);
    }

    /** The first `i` shards hold what was live of `before`, the others all of it. */
    ghost predicate SweptUpTo(before: Space, i: nat, now: int)
      requires Valid()
      reads shards
    {
      forall k :: Look(Physical(), k) == if Home(k) < i then LiveEntry(Look(before, k), now) else Look(before, k)
    }

    lemma NothingSwept(before: Space, now: int)
      requires Valid() && before == Physical()
      ensures SweptUpTo(before, 0, now)
    {}

    lemma AllSwept(before: Space, now: int)
      requires Valid() && SweptUpTo(before, |shards|, now)
      ensures Physical() == Live(before, now)
    {
      forall k ensures Look(Physical(), k) == Look(Live(before, now), k) {
        LookLive(before, now, k);
      }
      SameLooks(Physical(), Live(before, now));
    }

    /** One shard's part of a sweep, under its lock. */
    method SweepShard(i: nat, now: int, ghost before: Space) returns (removed: nat)
      requires Valid() && i < |shards| && SweptUpTo(before, i, now)
      modifies shards
      ensures Valid() && SweptUpTo(before, i + 1, now)
      ensures |old(Physical())| == |Physical()| + removed
    {
      ghost var was, data := Physical(), shards[i].data;
      NextShard(i);
      var swept, dead := Sweep(shards[i].data, now);
      Replace(i, swept);
      removed := dead;
      RemovedSize(was, data, swept);
      assert Physical() == was - (data.Keys - swept.Keys);
      PartSwept(Physical(), was, before, data, i, now);
    }

    lemma PartSwept(m: Space, was: Space, before: Space, data: Space, i: nat, now: int)
      requires forall k :: Look(m, k) == if Home(k) == i then Look(Live(data, now), k) else Look(was, k)
      requires forall k :: Home(k) == i ==> Look(was, k) == Look(data, k)
      requires forall k :: Look(was, k) == if Home(k) < i then LiveEntry(Look(before, k), now) else Look(before, k)
      ensures forall k :: Look(m, k) == if Home(k) < i + 1 then LiveEntry(Look(before, k), now) else Look(before, k)
    {
      forall k ensures Look(m, k) == if Home(k) < i + 1 then LiveEntry(Look(before, k), now) else Look(before, k) {
        LookLive(data, now, k);
      }
    }

    /** Puts a shard's map in place of one it is part of. */
    method Replace(i: nat, part: Space)
      requires Valid() && i < |shards|
      requires forall k :: k in part ==> k in shards[i].data && part[k] == shards[i].data[k]
      modifies shards
      ensures Valid()
      ensures forall k :: Look(Physical(), k) == if Home(k) == i then Look(part, k) else Look(old(Physical()), k)
      ensures Physical() == old(Physical()) - (old(shards[i].data).Keys - part.Keys)
    {
      ghost var was, gone := Physical(), shards[i].data.Keys - part.Keys;
      ghost var data := shards[i].data;
      var sh := shards[i];
      sh.data := part;
      forall k ensures Look(Physical(), k) == if Home(k) == i then Look(part, k) else Look(was, k) {
        assert Look(was, k) == old(Look(shards[Home(k)].data, k));
      }
      ReplacedLooks(Physical(), was, data, part, i);
    }

    lemma ReplacedLooks(m: Space, was: Space, data: Space, part: Space, i: nat)
      requires forall k :: Look(m, k) == if Home(k) == i then Look(part, k) else Look(was, k)
      requires forall k :: Home(k) == i ==> Look(was, k) == Look(data, k)
      requires forall k :: k in data ==> Home(k) == i
      requires forall k :: k in part ==> k in data && part[k] == data[k]
      ensures m == was - (data.Keys - part.Keys)
    {
      var gone := data.Keys - part.Keys;
      forall k ensures Look(m, k) == Look(was - gone, k) {}
      SameLooks(m, was - gone);
    }

    lemma SnapshotNextShard(out: seq<(string, Entry)>, more: seq<(string, Entry)>, i: nat, now: int)
      requires Valid() && i < |shards|
      requires SnapshotOf(out, Live(Physical(), now), KeysUpTo(i))
      requires SnapshotOf(more, Live(shards[i].data, now), shards[i].data.Keys)
      ensures SnapshotOf(out + more, Live(Physical(), now), KeysUpTo(i + 1))
    {
      NextShard(i);
      SnapshotMore(out, more, Physical(), shards[i].data, KeysUpTo(i), now);
    }

    /** Adds one shard's part to a snapshot, under its lock. */
    method SnapshotNext(taken: seq<(string, Entry)>, i: nat, now: int) returns (out: seq<(string, Entry)>)
      requires Valid() && i < |shards|
      requires SnapshotOf(taken, Live(Physical(), now), KeysUpTo(i))
      ensures SnapshotOf(out, Live(Physical(), now), KeysUpTo(i + 1))
    {
      var more := SnapshotShard(shards[i].data, now);
      SnapshotNextShard(taken, more, i, now);
      out := taken + more;
    }

    /** Every live entry, each exactly once, in some order. */
    method SnapshotAll(now: int) returns (out: seq<(string, Entry)>)
      requires Valid()
      ensures SnapshotOf(out, Live(Physical(), now), Physical().Keys)
    {
      out := [];
      AllShards();
      for i := 0 to |shards|
        invariant SnapshotOf(out, Live(Physical(), now), KeysUpTo(i))
      {
        out := SnapshotNext(out, i, now);
      }
      assert KeysUpTo(|shards|) == Physical().Keys;
    }
  }

  // ---- Walking one shard ----

  /** A Go map range: every key once, in some order. */
  method Range<V>(data: map<string, V>) returns (keys: seq<string>)
    ensures Lists(keys, data.Keys)
  {
    keys := [];
    var todo := data.Keys;
    while todo != {}
      invariant todo <= data.Keys
      invariant Lists(keys, data.Keys - todo)
      decreases todo
    {
      var k :| k in todo;
      ListsConcat(keys, [k], data.Keys - todo, {k});
      assert data.Keys - todo + {k} == data.Keys - (todo - {k});
      keys := keys + [k];
      todo := todo - {k};
    }
  }

  lemma ListsConcat(a: seq<string>, b: seq<string>, inA: set<string>, inB: set<string>)
    requires Lists(a, inA) && Lists(b, inB) && inA !! inB
    ensures Lists(a + b, inA + inB)
  {
    forall i, j | 0 <= i < j < |a + b| ensures (a + b)[i] != (a + b)[j] {
      if i < |a| <= j {
        assert a[i] in a && b[j - |a|] in b;
      }
    }
  }

  ghost function Matching(m: Space, keys: set<string>, pattern: string, now: int): set<string> {
    set k | k in keys && k in m && !m[k].Expired(now) && Glob.InLanguage(Glob.Tokens(pattern), k)
  }

  method MatchingKeys(data: Space, pattern: string, now: int) returns (out: seq<string>)
    ensures Lists(out, Matching(data, data.Keys, pattern, now))
  {
    out := [];
    var keys := Range(data);
    for i := 0 to |keys|
      invariant forall k :: k in out <==> k in keys[..i] && k in Matching(data, data.Keys, pattern, now)
      invariant NoDuplicates(out)
    {
      var k := keys[i];
      assert k in keys;
      assert k !in keys[..i];
      assert keys[..i + 1] == keys[..i] + [k];
      if !data[k].Expired(now) {
        var matched := Glob.GlobMatch(pattern, k);
        if matched {
          out := out + [k];
        }
      }
    }
    assert keys[..|keys|] == keys;
  }

  lemma MatchingShard(m: Space, data: Space, before: set<string>, pattern: string, now: int)
    requires before !! data.Keys
    requires forall k :: k in data ==> k in m && m[k] == data[k]
    ensures Matching(m, before + data.Keys, pattern, now)
      == Matching(m, before, pattern, now) + Matching(m, data.Keys, pattern, now)
    ensures Matching(m, before, pattern, now) !! Matching(m, data.Keys, pattern, now)
    ensures Matching(m, data.Keys, pattern, now) == Matching(data, data.Keys, pattern, now)
  {}

  ghost function LiveAmong(m: Space, keys: set<string>, now: int): set<string> {
    set k | k in keys && k in m && !m[k].Expired(now)
  }

  method CountLive(data: Space, now: int) returns (total: nat)
    ensures total == |LiveAmong(data, data.Keys, now)|
  {
    total := 0;
    var keys := Range(data);
    ghost var seen: set<string> := {};
    for i := 0 to |keys|
      invariant forall k :: k in seen <==> k in keys[..i] && k in LiveAmong(data, data.Keys, now)
      invariant total == |seen|
    {
      var k := keys[i];
      assert k in keys;
      assert k !in keys[..i];
      assert keys[..i + 1] == keys[..i] + [k];
      if !data[k].Expired(now) {
        total := total + 1;
        seen := seen + {k};
      }
    }
    assert keys[..|keys|] == keys;
    assert seen == LiveAmong(data, data.Keys, now);
  }

  lemma LiveShard(m: Space, data: Space, before: set<string>, now: int)
    requires before !! data.Keys
    requires forall k :: k in data ==> k in m && m[k] == data[k]
    ensures |LiveAmong(m, before + data.Keys, now)|
      == |LiveAmong(m, before, now)| + |LiveAmong(data, data.Keys, now)|
  {
    var a, b := LiveAmong(m, before, now), LiveAmong(data, data.Keys, now);
    assert LiveAmong(m, before + data.Keys, now) == a + b;
    assert a !! b;
  }

  lemma LiveAmongAll(m: Space, now: int)
    ensures |LiveAmong(m, m.Keys, now)| == |Live(m, now)|
  {
    assert LiveAmong(m, m.Keys, now) == Live(m, now).Keys;
    assert |Live(m, now).Keys| == |Live(m, now)|;
  }

  method Sweep(data: Space, now: int) returns (swept: Space, removed: nat)
    ensures swept == Live(data, now) && removed == |data| - |swept|
  {
    swept, removed := data, 0;
    var keys := Range(data);
    for i := 0 to |keys|
      invariant forall k :: Look(swept, k) == if k in keys[..i] then LiveEntry(Look(data, k), now) else Look(data, k)
      invariant removed == |data| - |swept|
    {
      var k := keys[i];
      assert k in keys;
      assert k !in keys[..i];
      assert keys[..i + 1] == keys[..i] + [k];
      assert Look(swept, k) == Look(data, k);
      if data[k].Expired(now) {
        RemoveSize(swept, k);
        swept := swept - {k};
        removed := removed + 1;
      }
    }
    assert keys[..|keys|] == keys;
    SameLooks(swept, Live(data, now));
  }

  lemma RemoveSize(m: Space, k: string)
    requires k in m
    ensures |m - {k}| == |m| - 1
  {
    assert (m - {k}).Keys == m.Keys - {k};
    assert |m.Keys| == |m| && |(m - {k}).Keys| == |m - {k}|;
  }

  /** Removing from a map what was removed from a part of it. */
  lemma RemovedSize(m: Space, data: Space, swept: Space)
    requires data.Keys <= m.Keys && swept.Keys <= data.Keys
    ensures |m - (data.Keys - swept.Keys)| == |m| - (|data| - |swept|)
  {
    DropManySize(m, data.Keys - swept.Keys);
    SubsetDifference(data.Keys, swept.Keys);
    assert |data.Keys| == |data| && |swept.Keys| == |swept|;
  }

  lemma DropManySize(m: Space, keys: set<string>)
    requires keys <= m.Keys
    ensures |m - keys| == |m| - |keys|
  {
    assert (m - keys).Keys == m.Keys - keys;
    assert |m.Keys| == |m| && |(m - keys).Keys| == |m - keys|;
    SubsetDifference(m.Keys, keys);
  }

  lemma SubsetDifference(a: set<string>, b: set<string>)
    requires b <= a
    ensures |a - b| == |a| - |b|
  {
    assert a == b + (a - b);
  }

  /** `out` pairs each of the given keys that is live with its entry, each once. */
  ghost predicate SnapshotOf(out: seq<(string, Entry)>, live: Space, keys: set<string>) {
    && (forall i, j :: 0 <= i < j < |out| ==> out[i].0 != out[j].0)
    && (forall i :: 0 <= i < |out| ==> out[i].0 in keys && out[i].0 in live && live[out[i].0] == out[i].1)
    && (forall k :: k in keys && k in live ==> exists i :: 0 <= i < |out| && out[i].0 == k)
  }

  method SnapshotShard(data: Space, now: int) returns (out: seq<(string, Entry)>)
    ensures SnapshotOf(out, Live(data, now), data.Keys)
  {
    out := [];
    var keys := Range(data);
    for i := 0 to |keys|
      invariant SnapshotOf(out, Live(data, now), Elements(keys[..i]))
    {
      var k := keys[i];
      OneMoreElement(keys, i);
      if !data[k].Expired(now) {
        SnapshotOne(out, Live(data, now), Elements(keys[..i]), k);
        out := out + [(k, data[k])];
      }
    }
    TakeAll(keys);
    assert Elements(keys) == data.Keys;
  }

  lemma SnapshotOne(out: seq<(string, Entry)>, live: Space, keys: set<string>, k: string)
    requires SnapshotOf(out, live, keys) && k in live && k !in keys
    ensures SnapshotOf(out + [(k, live[k])], live, keys + {k})
  {
    var all := out + [(k, live[k])];
    forall j | j in keys + {k} && j in live ensures exists i :: 0 <= i < |all| && all[i].0 == j {
      if j == k {
        assert all[|out|].0 == k;
      } else {
        var i :| 0 <= i < |out| && out[i].0 == j;
        assert all[i].0 == j;
      }
    }
  }

  lemma SnapshotMore(
      out: seq<(string, Entry)>, more: seq<(string, Entry)>, m: Space, data: Space, before: set<string>, now: int)
    requires before !! data.Keys
    requires forall k :: k in data ==> k in m && m[k] == data[k]
    requires SnapshotOf(out, Live(m, now), before) && SnapshotOf(more, Live(data, now), data.Keys)
    ensures SnapshotOf(out + more, Live(m, now), before + data.Keys)
  {
    var all, live := out + more, Live(m, now);
    forall k | k in before + data.Keys && k in live ensures exists i :: 0 <= i < |all| && all[i].0 == k {
      if k in before {
        var i :| 0 <= i < |out| && out[i].0 == k;
        assert all[i].0 == k;
      } else {
        assert k in Live(data, now);
        var i :| 0 <= i < |more| && more[i].0 == k;
        assert all[|out| + i].0 == k;
      }
    }
    forall i | 0 <= i < |all| ensures all[i].0 in before + data.Keys && all[i].0 in live && live[all[i].0] == all[i].1 {
      if i >= |out| { assert all[i] == more[i - |out|]; }
    }
  }

  // ---- The loops inside the operations ----

  lemma HSetWrites(found: Option<Entry>, e: Entry, pairs: seq<(string, string)>, hash: map<string, string>, added: int)
    requires e == if found.Some? then found.value else Entry(KindHash, "", map[], [], None)
    requires e.kind == KindHash && hash == PutFields(e.hash, pairs) && added == |hash| - |e.hash|
    ensures PutHash(found, pairs) == Change(Some(e.(hash := hash)), Count(added))
  {}

  method PutAll(base: map<string, string>, pairs: seq<(string, string)>)
    returns (hash: map<string, string>, added: int)
    ensures hash == PutFields(base, pairs) && added == |hash| - |base|
  {
    hash, added := base, 0;
    for i := 0 to |pairs|
      invariant hash == PutFields(base, pairs[..i])
      invariant added == |hash| - |base|
    {
      assert pairs[..i + 1][..i] == pairs[..i];
      if pairs[i].0 !in hash {
        added := added + 1;
      }
      PutSize(hash, pairs[i].0, pairs[i].1);
      hash := hash[pairs[i].0 := pairs[i].1];
    }
    assert pairs[..|pairs|] == pairs;
  }

  lemma PutSize(hash: map<string, string>, f: string, v: string)
    ensures |hash[f := v]| == |hash| + if f in hash then 0 else 1
  {
    assert hash[f := v].Keys == hash.Keys + {f};
    assert |hash.Keys| == |hash| && |hash[f := v].Keys| == |hash[f := v]|;
    if f in hash { assert hash.Keys + {f} == hash.Keys; }
  }

  lemma DropNone(base: map<string, string>)
    ensures DropFields(base, []) == base
  {}

  lemma DropAbsent(hash: map<string, string>, f: string)
    requires f !in hash
    ensures hash - {f} == hash
  {}

  method DropAll(base: map<string, string>, fields: seq<string>)
    returns (hash: map<string, string>, removed: int)
    ensures hash == DropFields(base, fields) && removed == |base| - |hash|
  {
    hash, removed := base, 0;
    DropNone(base);
    for i := 0 to |fields|
      invariant hash == DropFields(base, fields[..i])
      invariant removed == |base| - |hash|
    {
      DropOneMore(base, fields, i);
      if fields[i] in hash {
        DropSize(hash, fields[i]);
        hash := hash - {fields[i]};
        removed := removed + 1;
      } else {
        DropAbsent(hash, fields[i]);
      }
    }
    assert fields[..|fields|] == fields;
  }

  lemma DropOneMore(base: map<string, string>, fields: seq<string>, i: nat)
    requires i < |fields|
    ensures DropFields(base, fields[..i + 1]) == DropFields(base, fields[..i]) - {fields[i]}
  {
    assert fields[..i + 1] == fields[..i] + [fields[i]];
    assert Elements(fields[..i + 1]) == Elements(fields[..i]) + {fields[i]};
  }

  lemma DropSize(hash: map<string, string>, f: string)
    requires f in hash
    ensures |hash - {f}| == |hash| - 1
  {
    assert (hash - {f}).Keys == hash.Keys - {f};
    assert |hash.Keys| == |hash| && |(hash - {f}).Keys| == |hash - {f}|;
  }

  /** Prepending one value after the other leaves the last one at the head. */
  method Prepend(values: seq<string>, base: seq<string>) returns (list: seq<string>)
    ensures list == Reverse(values) + base
  {
    list := base;
    for i := 0 to |values|
      invariant list == Reverse(values[..i]) + base
    {
      assert Reverse(values[..i + 1]) == [values[i]] + Reverse(values[..i]);
      list := [values[i]] + list;
    }
    assert values[..|values|] == values;
  }

  method CutOut(list: seq<string>, start: int, stop: int) returns (items: seq<string>)
    ensures items == Slice(list, start, stop)
  {
    var n := |list|;
    var lo := NormalizeIndex(start, n);
    var hi := NormalizeIndex(stop, n);
    if lo < 0 {
      lo := 0;
    }
    if hi >= n {
      hi := n - 1;
    }
    if lo > hi || n == 0 {
      return [];
    }
    return list[lo..hi + 1];
  }
}
