/** Replaying a log file through the ordinary executor, and a whole life of the server: run
    commands, stop, read the file back. */
module Restart {
  import opened Basics
  import opened Framing
  import opened Resp
  import opened Keyspace
  import opened Commands
  import opened Sessions
  import opened Simulation
  import opened History
  import opened LogFilter
  import opened Pipeline
  import opened ShardedStore
  import opened Refinement
  import opened Executor
  import opened AofLog
  import opened RespReader
  import CrashRecovery
  import Voltkv
  import Recovery

  ghost predicate Monotone(clock: nat -> int) {
    forall i, j :: 0 <= i <= j ==> clock(i) <= clock(j)
  }

  lemma ExecMirrors(physical: Space, flat: Space, args: Command, now: int, after: Space, since: int)
    requires Mirrors(physical, flat, since) && since <= now
    requires Live(after, now) == Exec(physical, args, now).space
    ensures Mirrors(after, Exec(flat, args, now).space, now)
    ensures Exec(physical, args, now) == Exec(flat, args, now)
  {
    assert Live(physical, now) == Live(flat, now);
    ActOnLive(physical, flat, Parse(args), args, now);
    forall later | now <= later ensures Live(after, later) == Live(Exec(flat, args, now).space, later) {
      LiveLive(after, now, later);
    }
  }

  lemma MirrorsLater(physical: Space, flat: Space, since: int, later: int)
    requires Mirrors(physical, flat, since) && since <= later
    ensures Mirrors(physical, flat, later)
  {}

  lemma DeliveredSkips(s: string, rest: string)
    requires Resp.ReadCommand(s) == Got([], rest)
    ensures Delivered(s) == Delivered(rest)
  {}

  lemma DeliveredNothing(s: string)
    requires !Resp.ReadCommand(s).Got?
    ensures Delivered(s) == []
  {}

  /** From its clock on, the store's live entries are those of the flat replay of `done`
      through one connection. */
  ghost predicate ReplayedSoFar(physical: Space, done: seq<Command>, clock: nat -> int) {
    Mirrors(physical, CrashRecovery.Reread(VOLTKV, done, clock), clock(|done|))
  }

  /** `left` is the command in hand and what the unread bytes still deliver. */
  ghost predicate Reads(left: seq<Command>, next: Option<Command>, unread: string) {
    if next.Some? then left != [] && left[0] == next.value && left[1..] == Delivered(unread) else left == []
  }

  /** The next non-empty command, if the stream, which still delivers `left`, has one. */
  method NextCommand(reader: Reader, ghost left: seq<Command>) returns (next: Option<Command>)
    requires reader.Valid() && left == Delivered(reader.Unread())
    modifies reader
    ensures reader.Valid() && Reads(left, next, reader.Unread())
  {
    while true
      invariant reader.Valid() && left == Delivered(reader.Unread())
      decreases |reader.Unread()|
    {
      ghost var unread := reader.Unread();
      var args := reader.ReadCommand();
      if args.Error? {
        DeliveredNothing(unread);
        return None;
      }
      if |args.value| != 0 {
        DeliveredCons(unread, args.value, reader.Unread());
        return Some(args.value);
      }
      DeliveredSkips(unread, reader.Unread());
    }
  }

  /** Reading on leaves the store alone. */
  method ReadOn(reader: Reader, store: Store, ghost left: seq<Command>) returns (next: Option<Command>)
    requires store.Valid() && reader.Valid() && left == Delivered(reader.Unread())
    modifies reader
    ensures store.Valid() && store.Physical() == old(store.Physical())
    ensures reader.Valid() && Reads(left, next, reader.Unread())
  {
    next := NextCommand(reader, left);
  }

  /** Executes the n-th replayed command, without logging. */
  method Apply(store: Store, subs: set<string>, args: Command, clock: nat -> int, n: nat, ghost done: seq<Command>)
    returns (subs': set<string>)
    requires store.Valid() && Monotone(clock) && n == |done| && subs == SubsOf(done)
    requires ReplayedSoFar(store.Physical(), done, clock)
    modifies store.shards
    ensures store.Valid() && subs' == SubsOf(done + [args])
    ensures ReplayedSoFar(store.Physical(), done + [args], clock)
  {
    ghost var physical := store.Physical();
    var answer, records;
    answer, subs', records := Execute(store, null, subs, args, clock(n));
    HeardSnoc(done, args);
    if subs == {} {
      ReplayStep(physical, done, args, args, store.Physical(), clock);
    } else {
      UnheardStep(physical, done, args, clock);
    }
  }

  /** Reads commands off the file and executes each on a fresh store until the first error.
      From then on the store's live entries are those of the flat replay. */
  method ReplayFile(file: string, shardCount: int, hash: string -> nat, clock: nat -> int) returns (store: Store, n: nat)
    requires Monotone(clock)
    ensures store.Valid() && n == |Delivered(file)|
    ensures ReplayedSoFar(store.Physical(), Delivered(file), clock)
  {
    var reader := new Reader(file);
    assert reader.Unread() == file;
    ghost var all := Delivered(file);
    var first := NextCommand(reader, all);
    store := new Store(shardCount, hash);
    n := ReplayRest(reader, store, clock, first, all);
  }

  /** The replay loop, with the first command already in hand. */
  method ReplayRest(reader: Reader, store: Store, clock: nat -> int, first: Option<Command>, ghost all: seq<Command>)
    returns (n: nat)
    requires store.Valid() && store.Physical() == map[] && Monotone(clock)
    requires reader.Valid() && Reads(all, first, reader.Unread())
    modifies store.shards, reader
    ensures store.Valid() && n == |all|
    ensures ReplayedSoFar(store.Physical(), all, clock)
  {
    var next := first;
    var subs: set<string> := {};
    n := 0;
    ghost var left := all;
    MirrorsNothing(store.Physical(), clock);
    assert all[..0] == [];
    while next.Some?
      invariant store.Valid() && reader.Valid()
      invariant n <= |all| && left == all[n..]
      invariant Reads(left, next, reader.Unread())
      invariant ReplayedSoFar(store.Physical(), all[..n], clock) && subs == SubsOf(all[..n])
      decreases |left|
    {
      TakeOneMore(all, n);
      subs := Apply(store, subs, next.value, clock, n, all[..n]);
      left := left[1..];
      n := n + 1;
      next := ReadOn(reader, store, left);
    }
    TakeAll(all);
  }

  lemma MirrorsNothing(physical: Space, clock: nat -> int)
    requires physical == map[]
    ensures ReplayedSoFar(physical, [], clock)
  {}

  lemma ReplayStep(
      physical: Space, done: seq<Command>, args: Command, heard: Command, after: Space, clock: nat -> int)
    requires Monotone(clock)
    requires ReplayedSoFar(physical, done, clock)
    requires Heard(done + [args]) == Heard(done) + [heard]
    requires Live(after, clock(|done|)) == Exec(physical, heard, clock(|done|)).space
    ensures ReplayedSoFar(after, done + [args], clock)
  {
    var flat, now := CrashRecovery.Reread(VOLTKV, done, clock), clock(|done|);
    ExecMirrors(physical, flat, heard, now, after, now);
    RereadSnoc(done, args, heard, clock);
    var flat' := CrashRecovery.Reread(VOLTKV, done + [args], clock);
    assert flat' == Exec(flat, heard, now).space && |done + [args]| == |done| + 1;
    MirrorsLater(after, flat', now, clock(|done| + 1));
  }

  lemma RereadSnoc(done: seq<Command>, args: Command, heard: Command, clock: nat -> int)
    requires Heard(done + [args]) == Heard(done) + [heard]
    ensures CrashRecovery.Reread(VOLTKV, done + [args], clock)
      == Exec(CrashRecovery.Reread(VOLTKV, done, clock), heard, clock(|done|)).space
  {
    ReplaySnoc(VOLTKV, map[], Heard(done), heard, clock);
  }

  /** A command that arrives in subscribe mode does what the empty command does: nothing. */
  lemma UnheardStep(physical: Space, done: seq<Command>, args: Command, clock: nat -> int)
    requires Monotone(clock)
    requires ReplayedSoFar(physical, done, clock)
    requires Heard(done + [args]) == Heard(done) + [[]]
    ensures ReplayedSoFar(physical, done + [args], clock)
  {
    assert Parse([]) == Elsewhere;
    ReplayStep(physical, done, args, [], physical, clock);
  }

  ghost predicate EventsInOrder(events: seq<Event>) {
    forall i, j :: 0 <= i < j < |events| ==> events[i].now <= events[j].now
  }

  lemma RunSnoc(events: seq<Event>, i: nat)
    requires i < |events|
    ensures var before, after := History.Run(VOLTKV, events[..i]), History.Run(VOLTKV, events[..i + 1]);
      var o := Exec(before.space, events[i].args, events[i].now);
      && after.space == o.space && Records(after.points) == Records(before.points) + Records(o.points)
  {
    assert events[..i + 1][..i] == events[..i];
    var before := History.Run(VOLTKV, events[..i]);
    var o := Exec(before.space, events[i].args, events[i].now);
    assert Records(before.points + o.points) == Records(before.points) + Records(o.points);
  }

  lemma {:induction false} RunFits(events: seq<Event>)
    requires forall e :: e in events ==> Fits(e.args)
    ensures AllFit(Records(History.Run(VOLTKV, events).points))
  {
    if events == [] {
      assert Records([]) == [];
    } else {
      var n := |events| - 1;
      RunFits(events[..n]);
      RunSnoc(events, n);
      assert events[..n + 1] == events;
      Recovery.VoltkvDurable();
      assert CrashRecovery.FitKept(VOLTKV, History.Run(VOLTKV, events[..n]).space, events[n].args, events[n].now);
    }
  }

  /** Runs the commands on a fresh store and log, each from a connection outside subscribe mode. */
  method Serve(store: Store, log: Log, events: seq<Event>)
    requires store.Valid() && store.Physical() == map[]
    requires log.Valid() && log.history == []
    requires EventsInOrder(events)
    modifies store.shards, log
    ensures store.Valid() && log.Valid()
    ensures log.history == Records(History.Run(VOLTKV, events).points)
    ensures events != [] ==> Mirrors(store.Physical(), History.Run(VOLTKV, events).space, events[|events| - 1].now)
  {
    assert Records([]) == [];
    ghost var since := if events == [] then 0 else events[0].now;
    for i := 0 to |events|
      invariant store.Valid() && log.Valid()
      invariant log.history == Records(History.Run(VOLTKV, events[..i]).points)
      invariant events != [] ==> since == events[if i == 0 then 0 else i - 1].now
      invariant Mirrors(store.Physical(), History.Run(VOLTKV, events[..i]).space, since)
    {
      ghost var physical := store.Physical();
      var answer, subs, records := Execute(store, log, {}, events[i].args, events[i].now);
      RunSnoc(events, i);
      ExecMirrors(physical, History.Run(VOLTKV, events[..i]).space, events[i].args, events[i].now, store.Physical(), since);
      since := events[i].now;
    }
    assert events[..|events|] == events;
  }

  lemma {:induction false} RunPlain(events: seq<Event>)
    ensures AllPlain(Records(History.Run(VOLTKV, events).points))
  {
    if events == [] {
      assert Records([]) == [];
    } else {
      var n := |events| - 1;
      RunPlain(events[..n]);
      RunSnoc(events, n);
      assert events[..n + 1] == events;
      Recovery.ParsedPlain(events[n].args);
      Recovery.ActLogsPlain(History.Run(VOLTKV, events[..n]).space, Parse(events[n].args), events[n].args, events[n].now);
    }
  }

  /** The file delivers the first records of the run, all of them if nothing is on its way, and
      the connection it is replayed through hears each. */
  lemma FileHeard(log: Log, events: seq<Event>)
    requires log.Valid() && log.history == Records(History.Run(VOLTKV, events).points)
    requires forall e :: e in events ==> Fits(e.args)
    ensures var records, n := log.history, |Delivered(log.file)|;
      && n <= |records| && Delivered(log.file) == records[..n] && Heard(Delivered(log.file)) == records[..n]
      && (log.queue == [] && log.buf == "" ==> n == |records|)
  {
    RunFits(events);
    RunPlain(events);
    FileDelivers(Pipe(log.queue, None, log.buf, log.file), log.history);
    AllPlainHeard(Delivered(log.file));
  }

  /** The store holds what the run had at its n-th record, each expiry absent or moved exactly
      as far as the record that last set it. */
  ghost predicate ComesBack(physical: Space, points: seq<Point>, n: nat, clock: nat -> int)
    requires n <= |points|
  {
    exists m :: Sim(Before(map[], points, n), m, DriftOf(VOLTKV, points[..n], clock)) && Mirrors(physical, m, clock(n))
  }

  /** What a restart owes to a run whose first n records it read back. */
  ghost predicate Restarted(physical: Space, events: seq<Event>, n: nat, clock: nat -> int) {
    var points := History.Run(VOLTKV, events).points;
    && n <= |points|
    && ((forall e :: e in events ==> TtlFree(e.args)) ==> Mirrors(physical, Before(map[], points, n), clock(n)))
    && (QuietRun(VOLTKV, events) && QuietReplay(VOLTKV, Records(points), clock) ==> ComesBack(physical, points, n, clock))
  }

  lemma ReplayRestarts(physical: Space, events: seq<Event>, n: nat, clock: nat -> int)
    requires n <= |History.Run(VOLTKV, events).points|
    requires Mirrors(
      physical, Replay(VOLTKV, map[], Records(History.Run(VOLTKV, events).points)[..n], clock), clock(n))
    ensures Restarted(physical, events, n, clock)
  {
    var points := History.Run(VOLTKV, events).points;
    if forall e :: e in events ==> TtlFree(e.args) {
      Voltkv.TtlFreeReplayIsExact(events, clock, n);
    }
    if QuietRun(VOLTKV, events) {
      Voltkv.ReplaySimulatesRun(events, clock, n);
    }
  }

  /** A life of the server: serve any commands, stop at once or after an orderly close, and read
      the file back into a new store with any number of shards and any hash. The new store
      holds the live keyspace as it stood at the last record delivered: exactly if no command
      sets a deadline, and if no deadline passes, with each expiry absent or moved as far as
      the record that set it. After an orderly close that is the last record of all. */
  method CrashAndRestart(
      events: seq<Event>, orderly: bool, clock: nat -> int,
      shardCount: int, hash: string -> nat, shardCount': int, hash': string -> nat)
    returns (store: Store, n: nat)
    requires forall e :: e in events ==> Fits(e.args)
    requires EventsInOrder(events) && Monotone(clock)
    ensures store.Valid()
    ensures Restarted(store.Physical(), events, n, clock)
    ensures orderly ==> n == |History.Run(VOLTKV, events).points|
  {
    var first := new Store(shardCount, hash);
    var log := new Log("", []);
    Serve(first, log, events);
    if orderly {
      log.Close();
    }
    FileHeard(log, events);
    store, n := ReplayFile(log.file, shardCount', hash', clock);
    ReplayRestarts(store.Physical(), events, n, clock);
  }
}
