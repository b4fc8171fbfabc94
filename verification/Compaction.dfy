/** Log compaction: the commands that recreate a snapshot of the live keyspace, whatever
    order keys and fields are walked in, and what replaying them gives. */
module Compaction {
  import opened Basics
  import opened Decimal
  import opened Resp
  import opened Keyspace
  import opened Commands
  import opened Simulation
  import opened History

  /** One key's state, with the order in which its hash fields will be walked. */
  datatype Snap = Snap(key: string, entry: Entry, fields: seq<string>)

  function MsUntil(t: int, now: int): int {
    var d := Until(t, now);
    if d < 0 then 0 else d / MILLISECOND
  }

  /** Fields and values alternating, in the order of `fields`. */
  function Flatten(fields: seq<string>, hash: map<string, string>): (r: Command)
    requires forall f :: f in fields ==> f in hash
    ensures |r| == 2 * |fields|
    ensures forall i :: 0 <= i < |fields| ==> r[2 * i] == fields[i] && r[2 * i + 1] == hash[fields[i]]
  {
    if fields == [] then [] else
    var last := fields[|fields| - 1];
    Flatten(fields[..|fields| - 1], hash) + [last, hash[last]]
  }

  /** The fields to walk are fields of the hash. */
  ghost predicate Walkable(s: Snap) {
    forall f :: f in s.fields ==> f in s.entry.hash
  }

  ghost predicate IsSnap(s: Snap) {
    Walkable(s) && Lists(s.fields, s.entry.hash.Keys)
  }

  /** The command that recreates the payload, if there is one to recreate. */
  function Body(s: Snap): seq<Command>
    requires Walkable(s)
  {
    match s.entry.kind
    case KindString => [["SET", s.key, s.entry.str]]
    case KindHash => if s.entry.hash == map[] then [] else [["HSET", s.key] + Flatten(s.fields, s.entry.hash)]
    case KindList => if s.entry.list == [] then [] else [["RPUSH", s.key] + s.entry.list]
    case KindNone => []
  }

  function SnapshotCommands(s: Snap, now: int): seq<Command>
    requires Walkable(s)
  {
    var body := Body(s);
    if s.entry.expiresAt.None? || body == [] then body else
    var ms := MsUntil(s.entry.expiresAt.value, now);
    if ms <= 0 then body else body + [["PEXPIRE", s.key, FormatInt(ms)]]
  }

  ghost predicate SnapOf(m: Space, s: Snap) {
    IsSnap(s) && s.key in m && m[s.key] == s.entry
  }

  /** `snaps` holds every key of `m` once, in some order. */
  ghost predicate IsSnapshot(m: Space, snaps: seq<Snap>) {
    && (forall i, j :: 0 <= i < j < |snaps| ==> snaps[i].key != snaps[j].key)
    && (forall i :: 0 <= i < |snaps| ==> SnapOf(m, snaps[i]))
    && (forall k :: k in m ==> exists i :: 0 <= i < |snaps| && snaps[i].key == k)
  }

  function RewriteCommands(snaps: seq<Snap>, now: int): seq<Command>
    requires forall i :: 0 <= i < |snaps| ==> Walkable(snaps[i])
  {
    if snaps == [] then [] else
    RewriteCommands(snaps[..|snaps| - 1], now) + SnapshotCommands(snaps[|snaps| - 1], now)
  }

  // ---- What comes back ----

  /** The deadline a key has after compaction at `now` and replay at `r`. */
  function RestoredDeadline(expiresAt: Option<int>, now: int, r: int): Option<int> {
    if expiresAt.Some? && MsUntil(expiresAt.value, now) > 0
    then Some(r + MsUntil(expiresAt.value, now) * MILLISECOND)
    else None
  }

  function Restored(e: Entry, now: int, r: int): Entry {
    e.(expiresAt := RestoredDeadline(e.expiresAt, now, r))
  }

  function RestoredSpace(m: Space, now: int, r: int): Space {
    map k | k in m :: Restored(m[k], now, r)
  }

  // ---- The law of one snapshot ----

  /** Replaying one key's commands where the key is absent puts it back. */
  ghost predicate RestoresSnap(g: Engine, m: Space, s: Snap, now: int, r: int)
    requires Walkable(s)
  {
    Replay(g, m, SnapshotCommands(s, now), At(r)) == m[s.key := Restored(s.entry, now, r)]
  }

  ghost predicate RestoresSnaps(g: Engine) {
    forall m: Space, s: Snap, now: int, r: int ::
      Quiet(m, r) && s.key !in m && IsSnap(s) && s.entry.WellFormed() ==> RestoresSnap(g, m, s, now, r)
  }

  // ---- The whole keyspace ----

  lemma RestoredQuiet(m: Space, now: int, r: int)
    ensures Quiet(RestoredSpace(m, now, r), r)
  {}

  /** Replaying the compacted log at one instant gives every key of the snapshot its payload
      back, and the deadline RestoredDeadline says, in whatever order the snapshot was walked. */
  lemma {:induction false} CompactionRebuilds(g: Engine, m: Space, snaps: seq<Snap>, now: int, r: int)
    requires RestoresSnaps(g) && WellFormed(m) && IsSnapshot(m, snaps)
    ensures Replay(g, map[], RewriteCommands(snaps, now), At(r)) == RestoredSpace(m, now, r)
  {
    if snaps == [] {
      assert m == map[];
      assert Replay(g, map[], [], At(r)) == map[];
    } else {
      var n := |snaps| - 1;
      var rest := m - {snaps[n].key};
      SnapshotWithoutLast(m, snaps);
      CompactionRebuilds(g, rest, snaps[..n], now, r);
      AppendSnapshot(g, m, rest, RewriteCommands(snaps[..n], now), snaps[n], now, r);
    }
  }

  lemma SnapshotWithoutLast(m: Space, snaps: seq<Snap>)
    requires IsSnapshot(m, snaps) && snaps != []
    ensures var s := snaps[|snaps| - 1]; SnapOf(m, s) && IsSnapshot(m - {s.key}, snaps[..|snaps| - 1])
  {
    var n := |snaps| - 1;
    var start, rest := snaps[..n], m - {snaps[n].key};
    forall k | k in rest ensures exists i :: 0 <= i < |start| && start[i].key == k {
      var i :| 0 <= i < |snaps| && snaps[i].key == k;
      assert start[i].key == k;
    }
    forall i | 0 <= i < n ensures SnapOf(rest, start[i]) {
      assert SnapOf(m, snaps[i]);
    }
  }

  lemma AppendSnapshot(g: Engine, m: Space, rest: Space, before: seq<Command>, s: Snap, now: int, r: int)
    requires RestoresSnaps(g) && SnapOf(m, s) && s.entry.WellFormed()
    requires rest == m - {s.key}
    requires Replay(g, map[], before, At(r)) == RestoredSpace(rest, now, r)
    ensures Replay(g, map[], before + SnapshotCommands(s, now), At(r)) == RestoredSpace(m, now, r)
  {
    ReplayConcat(g, map[], before, SnapshotCommands(s, now), r);
    RestoredQuiet(rest, now, r);
    assert RestoresSnap(g, RestoredSpace(rest, now, r), s, now, r);
    RestoredMore(m, s.key, now, r);
  }

  lemma RestoredMore(m: Space, k: string, now: int, r: int)
    requires k in m
    ensures RestoredSpace(m, now, r) == RestoredSpace(m - {k}, now, r)[k := Restored(m[k], now, r)]
  {}

  /** A compaction at `now` moves the deadline `expiresAt`, measured at `now`, by `d`. */
  ghost predicate RoundsBy(expiresAt: Option<int>, now: int, d: int) {
    expiresAt.Some? && RestoredDeadline(expiresAt, now, now) == Some(expiresAt.value + d)
  }

  /** How a compaction of `m` at `now` rounds the deadlines it keeps, key by key. */
  ghost function Rounding(m: Space, now: int): Drift {
    (k: string) => iset d | k in m && RoundsBy(m[k].expiresAt, now, d)
  }

  ghost predicate IsCompactedShift(m: Space, now: int, r: int, k: string, d: int) {
    d - (r - now) in Rounding(m, now)(k)
  }

  /** How far a replay at `r` of a compaction made at `now` moves the deadlines. */
  ghost function CompactedShifts(m: Space, now: int, r: int): Drift {
    (k: string) => iset d | IsCompactedShift(m, now, r, k, d)
  }

  lemma RestoredMirrors(m: Space, now: int, r: int)
    ensures Sim(m, RestoredSpace(m, now, r), CompactedShifts(m, now, r))
  {
    var b := RestoredSpace(m, now, r);
    forall k ensures EntrySim(Look(m, k), Look(b, k), CompactedShifts(m, now, r)(k)) {
      if k in m && b[k].expiresAt.Some? {
        var t, back := m[k].expiresAt.value, b[k].expiresAt.value;
        assert RoundsBy(m[k].expiresAt, now, back - t - (r - now));
        assert IsCompactedShift(m, now, r, k, back - t);
      }
    }
  }

  /** A compacted log always restores the keys, kinds and values of the keyspace and moves its
      deadlines by no more than the time passed and the rounding; a keyspace without expiries
      it restores exactly. */
  lemma CompactionPreserves(g: Engine, m: Space, snaps: seq<Snap>, now: int, r: int)
    requires RestoresSnaps(g) && WellFormed(m) && IsSnapshot(m, snaps)
    ensures Sim(m, Replay(g, map[], RewriteCommands(snaps, now), At(r)), CompactedShifts(m, now, r))
    ensures NoExpiry(m) ==> Replay(g, map[], RewriteCommands(snaps, now), At(r)) == m
  {
    CompactionRebuilds(g, m, snaps, now, r);
    RestoredMirrors(m, now, r);
    if NoExpiry(m) {
      SimExact(m, RestoredSpace(m, now, r), CompactedShifts(m, now, r));
    }
  }

  /** Every remaining time fits in a duration. */
  ghost predicate Near(m: Space, now: int) {
    forall k :: k in m && m[k].expiresAt.Some? ==> m[k].expiresAt.value - now <= MAX_INT64
  }

  /** Then the rounding stays under one millisecond. */
  lemma RoundingUnderOneMs(m: Space, now: int, k: string, d: int)
    requires Near(m, now) && d in Rounding(m, now)(k)
    ensures -MILLISECOND < d <= 0
  {
    CompactedDeadline(m[k].expiresAt.value, now);
  }

  /** Compaction keeps a key's expiry if and only if at least one millisecond of it remains;
      otherwise the key comes back without one. A kept deadline, measured at the instant of
      compaction, is never later than before and less than one millisecond earlier. */
  lemma CompactedDeadline(t: int, now: int)
    requires t - now <= MAX_INT64
    ensures var back := RestoredDeadline(Some(t), now, now);
      && (back.Some? <==> t - now >= MILLISECOND)
      && (back.Some? ==> t - MILLISECOND < back.value <= t)
  {}
}
