/** Runs of the sharded store against runs of one flat map. */
module Refinement {
  import opened Keyspace
  import opened ShardedStore

  /** One call of a run: an operation on a key, or a sweep by the background goroutine. */
  datatype Call = Op(key: string, op: KeyOp, now: int) | Sweep(now: int)

  datatype Flat = Flat(space: Space, replies: seq<Reply>)

  /** The flat map after one more call, and what it answered; a sweep does not exist for it. */
  function FlatCall(before: Flat, call: Call): Flat {
    match call
    case Op(key, op, now) =>
      var next := Step(before.space, key, op, now);
      Flat(next.space, before.replies + [next.reply])
    case Sweep(now) => before
  }

  /** The flat map after `calls`. */
  function FlatRun(calls: seq<Call>): Flat {
    if calls == [] then Flat(map[], []) else
    FlatCall(FlatRun(calls[..|calls| - 1]), calls[|calls| - 1])
  }

  ghost predicate NonDecreasing(calls: seq<Call>) {
    forall i, j :: 0 <= i < j < |calls| ==> calls[i].now <= calls[j].now
  }

  method DispatchString(store: Store, key: string, op: KeyOp, now: int) returns (r: Reply)
    requires store.Valid()
    requires op.Set? || op.SetNX? || op.SetXX? || op.Get? || op.Append? || op.GetSet? || op.IncrBy?
    modifies store.shards
    ensures store.Valid() && Does(old(store.Physical()), key, op, now, store.Physical(), r)
  {
    match op
    case Set(value, ttl) => store.Set(key, value, ttl, now); r := Done;
    case SetNX(value, ttl) => var b := store.SetNX(key, value, ttl, now); r := Flag(b);
    case SetXX(value, ttl) => var b := store.SetXX(key, value, ttl, now); r := Flag(b);
    case Get => r := store.Get(key, now);
    case Append(suffix) => r := store.Append(key, suffix, now);
    case GetSet(value) => r := store.GetSet(key, value, now);
    case IncrBy(delta) => r := store.IncrBy(key, delta, now);
  }

  method DispatchGeneric(store: Store, key: string, op: KeyOp, now: int) returns (r: Reply)
    requires store.Valid()
    requires op.Del? || op.Exists? || op.TypeOf? || op.Expire? || op.Persist? || op.TTL?
    modifies store.shards
    ensures store.Valid() && Does(old(store.Physical()), key, op, now, store.Physical(), r)
  {
    match op
    case Del => var b := store.Del(key, now); r := Flag(b);
    case Exists => var b := store.Exists(key, now); r := Flag(b);
    case TypeOf => var kind := store.Type(key, now); r := KindIs(kind);
    case Expire(ttl) => var b := store.Expire(key, ttl, now); r := Flag(b);
    case Persist => var b := store.Persist(key, now); r := Flag(b);
    case TTL => r := store.TTL(key, now, now);
  }

  method DispatchCollection(store: Store, key: string, op: KeyOp, now: int) returns (r: Reply)
    requires store.Valid()
    requires op.HSet? || op.HGet? || op.HDel? || op.LPush? || op.RPush? || op.LPop? || op.RPop? || op.LIndex? || op.LRange?
    modifies store.shards
    ensures store.Valid() && Does(old(store.Physical()), key, op, now, store.Physical(), r)
  {
    match op
    case HSet(pairs) => r := store.HSet(key, pairs, now);
    case HGet(field) => r := store.HGet(key, field, now);
    case HDel(fields) => r := store.HDel(key, fields, now);
    case LPush(values) => r := store.LPush(key, values, now);
    case RPush(values) => r := store.RPush(key, values, now);
    case LPop => r := store.LPop(key, now);
    case RPop => r := store.RPop(key, now);
    case LIndex(index) => r := store.LIndex(key, index, now);
    case LRange(start, stop) => r := store.LRange(key, start, stop, now);
  }

  /** The store method an operation names. */
  method Dispatch(store: Store, key: string, op: KeyOp, now: int) returns (r: Reply)
    requires store.Valid()
    modifies store.shards
    ensures store.Valid() && Does(old(store.Physical()), key, op, now, store.Physical(), r)
  {
    if op.Set? || op.SetNX? || op.SetXX? || op.Get? || op.Append? || op.GetSet? || op.IncrBy? {
      r := DispatchString(store, key, op, now);
    } else if op.Del? || op.Exists? || op.TypeOf? || op.Expire? || op.Persist? || op.TTL? {
      r := DispatchGeneric(store, key, op, now);
    } else {
      r := DispatchCollection(store, key, op, now);
    }
  }

  /** The flat map mirrors the live entries from the latest call on. */
  ghost predicate Mirrors(physical: Space, flat: Space, since: int) {
    forall now :: since <= now ==> Live(physical, now) == Live(flat, now)
  }

  lemma StepMirrors(physical: Space, flat: Space, key: string, op: KeyOp, now: int, after: Space, reply: Reply, since: int)
    requires Mirrors(physical, flat, since) && since <= now
    requires Does(physical, key, op, now, after, reply)
    ensures reply == Step(flat, key, op, now).reply
    ensures Mirrors(after, Step(flat, key, op, now).space, now)
  {
    assert Live(physical, now) == Live(flat, now);
    forall later | now <= later ensures Live(after, later) == Live(Step(flat, key, op, now).space, later) {
      LiveLive(after, now, later);
    }
  }

  lemma SweepMirrors(physical: Space, flat: Space, now: int, since: int)
    requires Mirrors(physical, flat, since) && since <= now
    ensures Mirrors(Live(physical, now), flat, now)
  {
    forall later | now <= later ensures Live(Live(physical, now), later) == Live(flat, later) {
      LiveLive(physical, now, later);
    }
  }

  lemma FlatSnoc(calls: seq<Call>, i: nat)
    requires i < |calls|
    ensures FlatRun(calls[..i + 1]) == FlatCall(FlatRun(calls[..i]), calls[i])
  {
    assert calls[..i + 1][..i] == calls[..i];
  }

  /** One call on the store, which mirrors the flat map before and after it. */
  method RunCall(store: Store, call: Call, replies: seq<Reply>, ghost flat: Flat, ghost since: int)
    returns (replies': seq<Reply>)
    requires store.Valid() && Mirrors(store.Physical(), flat.space, since) && since <= call.now
    requires replies == flat.replies
    modifies store.shards
    ensures store.Valid() && Mirrors(store.Physical(), FlatCall(flat, call).space, call.now)
    ensures replies' == FlatCall(flat, call).replies
  {
    ghost var physical := store.Physical();
    match call {
      case Op(key, op, now) =>
        var r := Dispatch(store, key, op, now);
        StepMirrors(physical, flat.space, key, op, now, store.Physical(), r, since);
        replies' := replies + [r];
      case Sweep(now) =>
        SweepMirrors(physical, flat.space, now, since);
        var removed := store.SweepExpired(now);
        replies' := replies;
    }
  }

  /** Refinement: for any shard count, hash function and run with a non-decreasing clock, the
      sharded store with its dead entries still in place and sweeps in between answers every
      operation as the flat map does, and ends with the same live entries. */
  method RunStore(shardCount: int, hash: string -> nat, calls: seq<Call>) returns (store: Store, replies: seq<Reply>)
    requires NonDecreasing(calls)
    ensures store.Valid()
    ensures replies == FlatRun(calls).replies
    ensures calls != [] ==>
      var now := calls[|calls| - 1].now; Live(store.Physical(), now) == Live(FlatRun(calls).space, now)
  {
    store := new Store(shardCount, hash);
    replies := [];
    ghost var since := if calls == [] then 0 else calls[0].now;
    for i := 0 to |calls|
      invariant store.Valid() && fresh(store.shards)
      invariant replies == FlatRun(calls[..i]).replies
      invariant calls != [] ==> since == calls[if i == 0 then 0 else i - 1].now
      invariant Mirrors(store.Physical(), FlatRun(calls[..i]).space, since)
    {
      FlatSnoc(calls, i);
      replies := RunCall(store, calls[i], replies, FlatRun(calls[..i]), since);
      since := calls[i].now;
    }
    assert calls[..|calls|] == calls;
  }
}
