/** The relation between a live keyspace and the one a replay rebuilds, and the proof that
    every command keeps it: same keys, kinds and values, and on the replayed side each
    expiry is either absent or the live one shifted to the replay clock. */
module Simulation {
  import opened Basics
  import opened Resp
  import opened Keyspace
  import opened Commands

  ghost predicate SamePayload(a: Entry, b: Entry) {
    a.kind == b.kind && a.str == b.str && a.hash == b.hash && a.list == b.list
  }

  /** `b` may have lost the expiry of `a`; if it has one, it is that of `a` moved by one of
      `shifts`. */
  ghost predicate EntrySim(a: Option<Entry>, b: Option<Entry>, shifts: iset<int>) {
    if a.Some? && b.Some? then
      && SamePayload(a.value, b.value)
      && (b.value.expiresAt.Some? ==>
            a.value.expiresAt.Some? && b.value.expiresAt.value - a.value.expiresAt.value in shifts)
    else a == b
  }

  /** By how much a replay may move each key's deadline. */
  type Drift = string -> iset<int>

  /** The same shifts for every key. */
  ghost function Steady(shifts: iset<int>): Drift {
    (_: string) => shifts
  }

  ghost predicate Sim(a: Space, b: Space, drift: Drift) {
    forall k :: EntrySim(Look(a, k), Look(b, k), drift(k))
  }

  ghost const ZERO: iset<int> := iset{0}

  /** No shift: the two sides were measured at one instant. */
  ghost const NO_SHIFT: Drift := Steady(ZERO)

  ghost predicate NoExpiry(m: Space) {
    forall k :: k in m ==> m[k].expiresAt.None?
  }

  lemma SimRefl(m: Space)
    ensures Sim(m, m, NO_SHIFT)
  {}

  lemma SimWiden(a: Space, b: Space, drift: Drift, more: Drift)
    requires Sim(a, b, drift)
    requires forall k :: drift(k) <= more(k)
    ensures Sim(a, b, more)
  {
    forall k ensures EntrySim(Look(a, k), Look(b, k), more(k)) {
      assert EntrySim(Look(a, k), Look(b, k), drift(k));
      assert drift(k) <= more(k);
    }
  }

  lemma SimTrans(a: Space, b: Space, c: Space, drift: Drift)
    requires Sim(a, b, NO_SHIFT) && Sim(b, c, drift)
    ensures Sim(a, c, drift)
  {
    forall k ensures EntrySim(Look(a, k), Look(c, k), drift(k)) {
      assert EntrySim(Look(a, k), Look(b, k), ZERO);
      assert EntrySim(Look(b, k), Look(c, k), drift(k));
    }
  }

  ghost predicate Adds(first: iset<int>, second: iset<int>, both: iset<int>, d: int, e: int) {
    d in first && e in second ==> d + e in both
  }

  /** Shifts add up. */
  ghost predicate AddUpTo(first: iset<int>, second: iset<int>, both: iset<int>) {
    forall d, e :: Adds(first, second, both, d, e)
  }

  lemma EntrySimAdd(a: Option<Entry>, b: Option<Entry>, c: Option<Entry>,
                    first: iset<int>, second: iset<int>, both: iset<int>)
    requires EntrySim(a, b, first) && EntrySim(b, c, second) && AddUpTo(first, second, both)
    ensures EntrySim(a, c, both)
  {
    if a.Some? && c.Some? && c.value.expiresAt.Some? {
      var d := b.value.expiresAt.value - a.value.expiresAt.value;
      var e := c.value.expiresAt.value - b.value.expiresAt.value;
      assert Adds(first, second, both, d, e);
      assert d + e == c.value.expiresAt.value - a.value.expiresAt.value;
    }
  }

  lemma SimAdd(a: Space, b: Space, c: Space, first: Drift, second: Drift, both: Drift)
    requires Sim(a, b, first) && Sim(b, c, second)
    requires forall k :: AddUpTo(first(k), second(k), both(k))
    ensures Sim(a, c, both)
  {
    forall k ensures EntrySim(Look(a, k), Look(c, k), both(k)) {
      assert EntrySim(Look(a, k), Look(b, k), first(k));
      assert EntrySim(Look(b, k), Look(c, k), second(k));
      EntrySimAdd(Look(a, k), Look(b, k), Look(c, k), first(k), second(k), both(k));
    }
  }

  /** Where the live side has no expiries, related keyspaces are equal. */
  lemma SimExact(a: Space, b: Space, drift: Drift)
    requires Sim(a, b, drift) && NoExpiry(a)
    ensures a == b
  {
    forall k ensures Look(a, k) == Look(b, k) {
      assert EntrySim(Look(a, k), Look(b, k), drift(k));
    }
    SameLooks(a, b);
  }

  // ---- Every operation keeps the relation ----

  /** By how much the deadline may be off after `op`: exactly by the distance of the two
      instants if `op` sets it. */
  ghost function Restamped(op: KeyOp, a: Option<Entry>, t: int, rt: int, shifts: iset<int>): iset<int> {
    if SetsDeadline(op, a) then iset{rt - t} else shifts
  }

  ghost predicate Respects(op: KeyOp, a: Option<Entry>, b: Option<Entry>, t: int, rt: int, shifts: iset<int>) {
    EntrySim(LiveEntry(Update(op, a, t).entry, t), LiveEntry(Update(op, b, rt).entry, rt),
             Restamped(op, a, t, rt, shifts))
  }

  /** `after` is `before` with its payload changed, or with the key created or removed. */
  ghost predicate KeepsExpiry(before: Option<Entry>, after: Option<Entry>) {
    after.Some? ==> after.value.expiresAt == if before.Some? then before.value.expiresAt else None
  }

  lemma KeptExpirySim(a: Option<Entry>, b: Option<Entry>, a': Option<Entry>, b': Option<Entry>,
                      t: int, rt: int, shifts: iset<int>)
    requires EntrySim(a, b, shifts)
    requires LiveEntry(a, t) == a && LiveEntry(b, rt) == b
    requires KeepsExpiry(a, a') && KeepsExpiry(b, b')
    requires a'.Some? == b'.Some? && (a'.Some? ==> SamePayload(a'.value, b'.value))
    ensures EntrySim(LiveEntry(a', t), LiveEntry(b', rt), shifts)
  {}

  lemma HashRespects(op: KeyOp, a: Option<Entry>, b: Option<Entry>, t: int, rt: int, shifts: iset<int>)
    requires op.HSet? || op.HGet? || op.HDel?
    requires EntrySim(a, b, shifts)
    requires LiveEntry(a, t) == a && LiveEntry(b, rt) == b
    ensures Respects(op, a, b, t, rt, shifts)
  {
    KeptExpirySim(a, b, Update(op, a, t).entry, Update(op, b, rt).entry, t, rt, shifts);
  }

  lemma PushRespects(op: KeyOp, a: Option<Entry>, b: Option<Entry>, t: int, rt: int, shifts: iset<int>)
    requires op.LPush? || op.RPush?
    requires EntrySim(a, b, shifts)
    requires LiveEntry(a, t) == a && LiveEntry(b, rt) == b
    ensures Respects(op, a, b, t, rt, shifts)
  {
    KeptExpirySim(a, b, Update(op, a, t).entry, Update(op, b, rt).entry, t, rt, shifts);
  }

  lemma PopRespects(op: KeyOp, a: Option<Entry>, b: Option<Entry>, t: int, rt: int, shifts: iset<int>)
    requires op.LPop? || op.RPop?
    requires EntrySim(a, b, shifts)
    requires LiveEntry(a, t) == a && LiveEntry(b, rt) == b
    ensures Respects(op, a, b, t, rt, shifts)
  {
    KeptExpirySim(a, b, Update(op, a, t).entry, Update(op, b, rt).entry, t, rt, shifts);
  }

  lemma AssignRespects(op: KeyOp, a: Option<Entry>, b: Option<Entry>, t: int, rt: int, shifts: iset<int>)
    requires op.Set? || op.SetNX? || op.SetXX?
    requires EntrySim(a, b, shifts)
    requires LiveEntry(a, t) == a && LiveEntry(b, rt) == b
    ensures Respects(op, a, b, t, rt, shifts)
  {}

  lemma StringRespects(op: KeyOp, a: Option<Entry>, b: Option<Entry>, t: int, rt: int, shifts: iset<int>)
    requires op.Get? || op.Append? || op.GetSet?
    requires EntrySim(a, b, shifts)
    requires LiveEntry(a, t) == a && LiveEntry(b, rt) == b
    ensures Respects(op, a, b, t, rt, shifts)
  {}

  lemma IncrRespects(op: KeyOp, a: Option<Entry>, b: Option<Entry>, t: int, rt: int, shifts: iset<int>)
    requires op.IncrBy?
    requires EntrySim(a, b, shifts)
    requires LiveEntry(a, t) == a && LiveEntry(b, rt) == b
    ensures Respects(op, a, b, t, rt, shifts)
  {
    KeptExpirySim(a, b, Update(op, a, t).entry, Update(op, b, rt).entry, t, rt, shifts);
  }

  lemma ExpireRespects(op: KeyOp, a: Option<Entry>, b: Option<Entry>, t: int, rt: int, shifts: iset<int>)
    requires op.Expire?
    requires EntrySim(a, b, shifts)
    requires LiveEntry(a, t) == a && LiveEntry(b, rt) == b
    ensures Respects(op, a, b, t, rt, shifts)
  {}

  lemma GenericRespects(op: KeyOp, a: Option<Entry>, b: Option<Entry>, t: int, rt: int, shifts: iset<int>)
    requires op.Del? || op.Exists? || op.TypeOf? || op.Persist? || op.TTL?
    requires EntrySim(a, b, shifts)
    requires LiveEntry(a, t) == a && LiveEntry(b, rt) == b
    ensures Respects(op, a, b, t, rt, shifts)
  {}

  lemma UpdateRespects(op: KeyOp, a: Option<Entry>, b: Option<Entry>, t: int, rt: int, shifts: iset<int>)
    requires EntrySim(a, b, shifts)
    requires LiveEntry(a, t) == a && LiveEntry(b, rt) == b
    ensures Respects(op, a, b, t, rt, shifts)
  {
    if op.Set? || op.SetNX? || op.SetXX? {
      AssignRespects(op, a, b, t, rt, shifts);
    } else if op.Get? || op.Append? || op.GetSet? {
      StringRespects(op, a, b, t, rt, shifts);
    } else if op.IncrBy? {
      IncrRespects(op, a, b, t, rt, shifts);
    } else if op.Expire? {
      ExpireRespects(op, a, b, t, rt, shifts);
    } else if op.Del? || op.Exists? || op.TypeOf? || op.Persist? || op.TTL? {
      GenericRespects(op, a, b, t, rt, shifts);
    } else if op.HSet? || op.HGet? || op.HDel? {
      HashRespects(op, a, b, t, rt, shifts);
    } else if op.LPush? || op.RPush? {
      PushRespects(op, a, b, t, rt, shifts);
    } else if op.LPop? || op.RPop? {
      PopRespects(op, a, b, t, rt, shifts);
    } else {
      ListReadRespects(op, a, b, t, rt, shifts);
    }
  }

  lemma ListReadRespects(op: KeyOp, a: Option<Entry>, b: Option<Entry>, t: int, rt: int, shifts: iset<int>)
    requires op.LIndex? || op.LRange?
    requires EntrySim(a, b, shifts)
    requires LiveEntry(a, t) == a && LiveEntry(b, rt) == b
    ensures Respects(op, a, b, t, rt, shifts)
  {}

  lemma PutSim(a: Space, b: Space, key: string, ea: Option<Entry>, eb: Option<Entry>, drift: Drift, after: Drift)
    requires Sim(a, b, drift) && EntrySim(ea, eb, after(key))
    requires forall k :: k != key ==> drift(k) <= after(k)
    ensures Sim(Put(a, key, ea), Put(b, key, eb), after)
  {
    forall k ensures EntrySim(Look(Put(a, key, ea), k), Look(Put(b, key, eb), k), after(k)) {
      if k != key {
        assert EntrySim(Look(a, k), Look(b, k), drift(k));
        assert drift(k) <= after(k);
      }
    }
  }

  lemma EntrySimWiden(a: Option<Entry>, b: Option<Entry>, shifts: iset<int>, more: iset<int>)
    requires EntrySim(a, b, shifts) && shifts <= more
    ensures EntrySim(a, b, more)
  {}

  lemma StepRespects(a: Space, b: Space, key: string, op: KeyOp, t: int, rt: int, drift: Drift, after: Drift)
    requires Sim(a, b, drift)
    requires Quiet(a, t) && Quiet(b, rt)
    requires forall k :: k != key ==> drift(k) <= after(k)
    requires Restamped(op, Look(a, key), t, rt, drift(key)) <= after(key)
    ensures Sim(Step(a, key, op, t).space, Step(b, key, op, rt).space, after)
  {
    var ea, eb := Look(a, key), Look(b, key);
    assert EntrySim(ea, eb, drift(key));
    LookLive(a, t, key);
    LookLive(b, rt, key);
    UpdateRespects(op, ea, eb, t, rt, drift(key));
    var ea', eb' := LiveEntry(Update(op, ea, t).entry, t), LiveEntry(Update(op, eb, rt).entry, rt);
    EntrySimWiden(ea', eb', Restamped(op, ea, t, rt, drift(key)), after(key));
    PutSim(a, b, key, ea', eb', drift, after);
  }

  // ---- Every command keeps the relation ----

  lemma {:induction false} MSetQuiet(m: Space, pairs: seq<(string, string)>, now: int)
    ensures Quiet(ExecMSet(m, pairs, now).space, now)
  {
    if pairs == [] {
      LiveLive(m, now, now);
    } else {
      var n := |pairs| - 1;
      StepQuiet(ExecMSet(m, pairs[..n], now).space, pairs[n].0, Set(pairs[n].1, 0), now);
    }
  }

  /** Whatever a command leaves is live at its own instant. */
  lemma ExecQuiet(m: Space, args: Command, now: int)
    ensures Quiet(Exec(m, args, now).space, now)
  {
    ActQuiet(m, Parse(args), args, now);
  }

  lemma OtherQuiet(m: Space, request: Request, args: Command, now: int)
    requires !request.Single? && !request.MSet?
    ensures Quiet(Act(m, request, args, now).space, now)
  {
    LiveLive(m, now, now);
  }

  lemma ActQuiet(m: Space, request: Request, args: Command, now: int)
    ensures Quiet(Act(m, request, args, now).space, now)
  {
    if request.Single? {
      StepQuiet(m, request.key, request.op, now);
    } else if request.MSet? {
      MSetQuiet(m, request.pairs, now);
    } else {
      OtherQuiet(m, request, args, now);
    }
  }

  lemma {:induction false} MSetRespects(a: Space, b: Space, pairs: seq<(string, string)>, t: int, rt: int, drift: Drift)
    requires Sim(a, b, drift)
    requires Quiet(a, t) && Quiet(b, rt)
    ensures Sim(ExecMSet(a, pairs, t).space, ExecMSet(b, pairs, rt).space, drift)
  {
    if pairs != [] {
      var n := |pairs| - 1;
      var before, after := ExecMSet(a, pairs[..n], t).space, ExecMSet(b, pairs[..n], rt).space;
      MSetRespects(a, b, pairs[..n], t, rt, drift);
      MSetQuiet(a, pairs[..n], t);
      MSetQuiet(b, pairs[..n], rt);
      StepRespects(before, after, pairs[n].0, Set(pairs[n].1, 0), t, rt, drift, drift);
    }
  }

  lemma DelRespects(a: Space, b: Space, keys: seq<string>, args: Command, t: int, rt: int, drift: Drift)
    requires Sim(a, b, drift)
    requires Quiet(a, t) && Quiet(b, rt)
    ensures Sim(ExecDel(a, keys, args, t).space, ExecDel(b, keys, args, rt).space, drift)
  {
    var a', b' := ExecDel(a, keys, args, t).space, ExecDel(b, keys, args, rt).space;
    forall k ensures EntrySim(Look(a', k), Look(b', k), drift(k)) {
      assert EntrySim(Look(a, k), Look(b, k), drift(k));
      assert Look(a', k) == if k in keys then None else Look(a, k);
      assert Look(b', k) == if k in keys then None else Look(b, k);
    }
  }

  /** The drift after a command has run at `t` on one side and at `rt` on the other: the keys
      whose deadline it sets are off by the distance of the two instants, the others as before. */
  ghost function Moved(stamps: string -> bool, distance: int, drift: Drift): Drift {
    (k: string) => if stamps(k) then iset{distance} else drift(k)
  }

  /** Running one command on both sides, each at its own quiet instant, keeps the relation. */
  lemma ExecRespects(a: Space, b: Space, args: Command, t: int, rt: int, drift: Drift)
    requires Sim(a, b, drift)
    requires Quiet(a, t) && Quiet(b, rt)
    ensures Sim(Exec(a, args, t).space, Exec(b, args, rt).space, Moved(Stamps(a, args, t), rt - t, drift))
  {
    ActRespects(a, b, Parse(args), args, t, rt, drift);
  }

  lemma SingleRespects(a: Space, b: Space, key: string, op: KeyOp, t: int, rt: int, drift: Drift)
    requires Sim(a, b, drift)
    requires Quiet(a, t) && Quiet(b, rt)
    ensures Sim(Step(a, key, op, t).space, Step(b, key, op, rt).space,
                Moved(StampsOf(a, Single(key, op), t), rt - t, drift))
  {
    StepRespects(a, b, key, op, t, rt, drift, Moved(StampsOf(a, Single(key, op), t), rt - t, drift));
  }

  lemma RestRespects(a: Space, b: Space, request: Request, args: Command, t: int, rt: int, drift: Drift)
    requires !request.Single? && !request.MSet? && !request.DelMany?
    requires Sim(a, b, drift)
    requires Quiet(a, t) && Quiet(b, rt)
    ensures Sim(Act(a, request, args, t).space, Act(b, request, args, rt).space, drift)
  {}

  lemma ActRespects(a: Space, b: Space, request: Request, args: Command, t: int, rt: int, drift: Drift)
    requires Sim(a, b, drift)
    requires Quiet(a, t) && Quiet(b, rt)
    ensures Sim(Act(a, request, args, t).space, Act(b, request, args, rt).space,
                Moved(StampsOf(a, request, t), rt - t, drift))
  {
    var after := Moved(StampsOf(a, request, t), rt - t, drift);
    match request
    case Single(key, op) => SingleRespects(a, b, key, op, t, rt, drift);
    case MSet(pairs) =>
      MSetRespects(a, b, pairs, t, rt, drift);
      SimWiden(ExecMSet(a, pairs, t).space, ExecMSet(b, pairs, rt).space, drift, after);
    case DelMany(keys) =>
      DelRespects(a, b, keys, args, t, rt, drift);
      SimWiden(ExecDel(a, keys, args, t).space, ExecDel(b, keys, args, rt).space, drift, after);
    case _ =>
      RestRespects(a, b, request, args, t, rt, drift);
      SimWiden(Act(a, request, args, t).space, Act(b, request, args, rt).space, drift, after);
  }
}
