/** Compaction end to end: snapshot the sharded store, rewrite the log file, read it back. */
module Rewriting {
  import opened Resp
  import opened Keyspace
  import opened Sessions
  import opened History
  import opened LogFilter
  import opened Compaction
  import opened CompactionProof
  import opened ShardedStore
  import opened AofLog
  import CrashRecovery
  import Recovery

  /** Each snapshot entry with an order in which its hash fields are walked. */
  ghost predicate Walked(entries: seq<(string, Entry)>, snaps: seq<Snap>) {
    && |snaps| == |entries|
    && forall i :: 0 <= i < |snaps| ==> snaps[i].key == entries[i].0 && snaps[i].entry == entries[i].1 && IsSnap(snaps[i])
  }

  method Walk(entries: seq<(string, Entry)>) returns (snaps: seq<Snap>)
    ensures Walked(entries, snaps)
  {
    snaps := [];
    for i := 0 to |entries|
      invariant Walked(entries[..i], snaps)
    {
      var fields := Range(entries[i].1.hash);
      snaps := snaps + [Snap(entries[i].0, entries[i].1, fields)];
    }
    assert entries[..|entries|] == entries;
  }

  lemma WalkedIsSnapshot(live: Space, entries: seq<(string, Entry)>, snaps: seq<Snap>, keys: set<string>)
    requires SnapshotOf(entries, live, keys) && live.Keys <= keys
    requires Walked(entries, snaps)
    ensures IsSnapshot(live, snaps)
    ensures forall i :: 0 <= i < |snaps| ==> Walkable(snaps[i])
  {
    forall k | k in live ensures exists i :: 0 <= i < |snaps| && snaps[i].key == k {
      var i :| 0 <= i < |entries| && entries[i].0 == k;
      assert snaps[i].key == k;
    }
  }

  /** What a compacted file is worth: replayed at any instant, it gives every live key its
      kind and payload back, and its deadline to the millisecond or, if less remained, none. */
  ghost predicate Recreates(file: string, live: Space, now: int) {
    forall r :: CrashRecovery.Reread(VOLTKV, Delivered(file), At(r)) == RestoredSpace(live, now, r)
  }

  lemma RewrittenRecreates(live: Space, snaps: seq<Snap>, now: int, commands: seq<Command>)
    requires WellFormed(live) && IsSnapshot(live, snaps)
    requires forall i :: 0 <= i < |snaps| ==> Walkable(snaps[i])
    requires commands == RewriteCommands(snaps, now) && AllFit(commands)
    ensures Recreates(EncodeAll(commands), live, now)
  {
    RoundTrip(commands);
    Recovery.RewritePlain(snaps, now);
    AllPlainHeard(commands);
    VoltkvRestoresSnaps();
    forall r ensures CrashRecovery.Reread(VOLTKV, Delivered(EncodeAll(commands)), At(r)) == RestoredSpace(live, now, r) {
      CompactionRebuilds(VOLTKV, live, snaps, now, r);
    }
  }

  /** The whole log restores what the queued records make of the snapshotted keyspace; with an
      empty queue, that keyspace itself. */
  ghost predicate RestoresThen(log: seq<Command>, queue: seq<Command>, live: Space, now: int) {
    forall r :: CrashRecovery.Reread(VOLTKV, log, At(r))
      == Replay(VOLTKV, RestoredSpace(live, now, r), Heard(queue), At(r))
  }

  lemma RewrittenRestores(live: Space, snaps: seq<Snap>, now: int, commands: seq<Command>, queue: seq<Command>)
    requires WellFormed(live) && IsSnapshot(live, snaps)
    requires forall i :: 0 <= i < |snaps| ==> Walkable(snaps[i])
    requires commands == RewriteCommands(snaps, now)
    ensures RestoresThen(commands + queue, queue, live, now)
  {
    Recovery.RewritePlain(snaps, now);
    AllPlainHeard(commands);
    HeardAfter(commands, queue);
    VoltkvRestoresSnaps();
    forall r ensures CrashRecovery.Reread(VOLTKV, commands + queue, At(r))
      == Replay(VOLTKV, RestoredSpace(live, now, r), Heard(queue), At(r))
    {
      CompactionRebuilds(VOLTKV, live, snaps, now, r);
      ReplayConcat(VOLTKV, map[], commands, Heard(queue), r);
    }
  }

  /** Rewrites the log at `now` from a snapshot the store made at `taken`. The file then holds
      `commands`; records still queued will follow them. */
  method CompactLog(store: Store, log: Log, taken: int, now: int) returns (ghost commands: seq<Command>)
    requires store.Valid() && WellFormed(Live(store.Physical(), taken))
    requires log.Valid()
    modifies log
    ensures log.Valid() && log.queue == old(log.queue)
    ensures log.file == EncodeAll(commands) && log.history == commands + log.queue
    ensures AllFit(commands) ==> Recreates(log.file, old(Live(store.Physical(), taken)), now)
    ensures RestoresThen(log.history, log.queue, old(Live(store.Physical(), taken)), now)
  {
    ghost var live := Live(store.Physical(), taken);
    var entries := store.SnapshotAll(taken);
    var snaps := Walk(entries);
    WalkedIsSnapshot(live, entries, snaps, store.Physical().Keys);
    log.Rewrite(snaps, now);
    commands := RewriteCommands(snaps, now);
    RewrittenRestores(live, snaps, now, commands, log.queue);
    if AllFit(commands) {
      RewrittenRecreates(live, snaps, now, commands);
      assert Recreates(log.file, live, now);
    }
  }
}
