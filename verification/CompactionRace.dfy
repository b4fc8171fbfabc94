/** Compaction while the server goes on: what becomes of the records that are under way when
    the snapshot is made, and of those appended before the new file takes the old one's place. */
module CompactionRace {
  import opened Basics
  import opened Resp
  import opened Keyspace
  import opened Commands
  import opened Sessions
  import opened Simulation
  import opened History
  import opened LogFilter
  import opened Compaction
  import opened CompactionProof
  import opened Pipeline
  import CrashRecovery
  import Recovery

  /** A record is appended, or the writer takes one, prints it, or passes bytes on. */
  datatype Move = Late(record: Command) | Takes | Prints | Passes(n: nat)

  ghost predicate Next(p: Pipe, e: Move, p': Pipe) {
    match e
    case Late(record) => Enqueue(p, record, p')
    case Takes => Receive(p, p')
    case Prints => Write(p, p')
    case Passes(n) => Spill(p, n, p')
  }

  /** What happens to the pipe between the snapshot and the swap. */
  ghost predicate Race(ps: seq<Pipe>, es: seq<Move>) {
    && |ps| == |es| + 1
    && |ps[0].queue| <= QUEUE_CAPACITY
    && forall i {:trigger es[i]} :: 0 <= i < |es| ==> Next(ps[i], es[i], ps[i + 1])
  }

  /** The records appended since the snapshot. */
  function LateOnes(es: seq<Move>): seq<Command> {
    if es == [] then [] else
    var last := es[|es| - 1];
    LateOnes(es[..|es| - 1]) + if last.Late? then [last.record] else []
  }

  /** How many records the writer has printed since the snapshot. */
  function Printed(es: seq<Move>): nat {
    if es == [] then 0 else
    Printed(es[..|es| - 1]) + if es[|es| - 1].Prints? then 1 else 0
  }

  /** The new file in place of the old one, whose unflushed bytes are gone with it. */
  function Swapped(p: Pipe, commands: seq<Command>): Pipe {
    Pipe(p.queue, p.inflight, "", EncodeAll(commands))
  }

  predicate EndsWith(s: seq<Command>, end: seq<Command>) {
    |end| <= |s| && s[|s| - |end|..] == end
  }

  lemma NextWaits(p: Pipe, e: Move, p': Pipe)
    requires Next(p, e, p')
    ensures Waiting(p') ==
      match e
      case Late(record) => Waiting(p) + [record]
      case Prints => Waiting(p)[1..]
      case _ => Waiting(p)
    ensures e.Prints? ==> Waiting(p) != []
    ensures |p.queue| <= QUEUE_CAPACITY ==> |p'.queue| <= QUEUE_CAPACITY
  {}

  lemma AppendLate(before: seq<Command>, late: seq<Command>, record: Command, n: nat)
    requires n <= |before + late|
    ensures (before + late)[n..] + [record] == (before + (late + [record]))[n..]
  {}

  /** Of what waited and what came since, the writer has printed the first ones. */
  ghost predicate StillWaits(before: seq<Command>, es: seq<Move>, p: Pipe) {
    var all := before + LateOnes(es);
    && |p.queue| <= QUEUE_CAPACITY
    && Printed(es) <= |all| && Waiting(p) == all[Printed(es)..]
  }

  lemma OneMove(es: seq<Move>)
    requires es != []
    ensures var start, e := es[..|es| - 1], es[|es| - 1];
      && LateOnes(es) == (if e.Late? then LateOnes(start) + [e.record] else LateOnes(start))
      && Printed(es) == if e.Prints? then Printed(start) + 1 else Printed(start)
  {}

  lemma DropOne(all: seq<Command>, n: nat)
    requires n < |all|
    ensures all[n..][1..] == all[n + 1..]
  {}

  lemma WaitsOn(before: seq<Command>, es: seq<Move>, p: Pipe, p': Pipe)
    requires es != [] && Next(p, es[|es| - 1], p')
    requires StillWaits(before, es[..|es| - 1], p)
    ensures StillWaits(before, es, p')
  {
    var start, e := es[..|es| - 1], es[|es| - 1];
    NextWaits(p, e, p');
    OneMove(es);
    if e.Late? {
      AppendLate(before, LateOnes(start), e.record, Printed(start));
    } else if e.Prints? {
      DropOne(before + LateOnes(start), Printed(start));
    }
  }

  lemma {:induction false} StillWaiting(ps: seq<Pipe>, es: seq<Move>)
    requires Race(ps, es)
    ensures StillWaits(Waiting(ps[0]), es, ps[|es|])
  {
    if es == [] {
      assert Waiting(ps[0]) + [] == Waiting(ps[0]);
    } else {
      var n := |es| - 1;
      StillWaiting(ps[..n + 1], es[..n]);
      assert Next(ps[n], es[n], ps[n + 1]);
      WaitsOn(Waiting(ps[0]), es, ps[n], ps[n + 1]);
    }
  }

  lemma SwappedCarries(p: Pipe, commands: seq<Command>)
    requires |p.queue| <= QUEUE_CAPACITY
    ensures Carries(Swapped(p, commands), commands + Waiting(p))
  {
    var p' := Swapped(p, commands);
    EncodeAppend(commands, Waiting(p));
    assert Waiting(p') == Waiting(p);
    assert p'.file + p'.buf == p'.file;
  }

  /** What the new log holds, in every interleaving of appends and writer: the commands of the
      snapshot, then what still waits. The records appended since the snapshot are all among it
      if and only if the writer has printed none of them by the swap. */
  lemma LateRecordsSurvive(ps: seq<Pipe>, es: seq<Move>, commands: seq<Command>)
    requires Race(ps, es)
    ensures var before, late, waiting, n := Waiting(ps[0]), LateOnes(es), Waiting(ps[|es|]), Printed(es);
      && Carries(Swapped(ps[|es|], commands), commands + waiting)
      && (EndsWith(waiting, late) <==> n <= |before|)
      && (n <= |before| ==> waiting == before[n..] + late)
      && (n > |before| ==> n - |before| <= |late| && waiting == late[n - |before|..])
  {
    StillWaiting(ps, es);
    SwappedCarries(ps[|es|], commands);
    var before, late, n := Waiting(ps[0]), LateOnes(es), Printed(es);
    if n <= |before| {
      assert (before + late)[n..] == before[n..] + late;
    } else {
      assert (before + late)[n..] == late[n - |before|..];
    }
  }

  /** The stamps of a compacted log followed by the records of `points`. */
  ghost function LogStamps(live: Space, commands: seq<Command>, now: int, points: seq<Point>): seq<Stamp> {
    ReplayStamps(VOLTKV, commands, now, Rounding(live, now)) + PointStamps(VOLTKV, live, points)
  }

  lemma LogStampsSmall(live: Space, commands: seq<Command>, now: int, points: seq<Point>)
    requires Near(live, now)
    ensures CrashRecovery.AllSmall(LogStamps(live, commands, now, points))
  {
    CrashRecovery.RoundingSmall(live, now);
  }

  /** A snapshot made with nothing under way loses nothing if the writer is not faster than the
      swap: the new log restores the keyspace as it stands after everything executed since,
      each expiry absent or moved as far as the record that last set it, with a rounding under
      one millisecond if it is a compacted one. */
  lemma CompactionUnderLoad(
      live: Space, snaps: seq<Snap>, now: int, points: seq<Point>, present: Space, ps: seq<Pipe>, es: seq<Move>)
    requires WellFormed(live) && IsSnapshot(live, snaps)
    requires CrashRecovery.Leads(VOLTKV, live, points, present)
    requires Race(ps, es) && Waiting(ps[0]) == [] && LateOnes(es) == Records(points)
    requires Printed(es) == 0
    ensures var commands := RewriteCommands(snaps, now);
      && Carries(Swapped(ps[|es|], commands), commands + Records(points))
      && CrashRecovery.Restores(VOLTKV, commands + Records(points), LogStamps(live, commands, now, points), present)
      && (Near(live, now) ==> CrashRecovery.AllSmall(LogStamps(live, commands, now, points)))
  {
    var commands := RewriteCommands(snaps, now);
    LateRecordsSurvive(ps, es, commands);
    assert Waiting(ps[0])[0..] + Records(points) == Records(points);
    CompactedRestores(live, snaps, now);
    CompactedSilent(snaps, now);
    Recovery.VoltkvDurable();
    CrashRecovery.RestoresOn(
      VOLTKV, commands, ReplayStamps(VOLTKV, commands, now, Rounding(live, now)), live, points);
    if Near(live, now) {
      LogStampsSmall(live, commands, now, points);
    }
  }

  lemma CompactedSilent(snaps: seq<Snap>, now: int)
    requires forall i :: 0 <= i < |snaps| ==> Walkable(snaps[i])
    ensures var commands := RewriteCommands(snaps, now); Heard(commands) == commands && SubsOf(commands) == {}
  {
    Recovery.RewritePlain(snaps, now);
    AllPlainHeard(RewriteCommands(snaps, now));
  }

  lemma CompactedRestores(live: Space, snaps: seq<Snap>, now: int)
    requires WellFormed(live) && IsSnapshot(live, snaps)
    ensures var commands := RewriteCommands(snaps, now);
      CrashRecovery.Restores(VOLTKV, commands, ReplayStamps(VOLTKV, commands, now, Rounding(live, now)), live)
  {
    var commands := RewriteCommands(snaps, now);
    Recovery.VoltkvDurable();
    CompactedSilent(snaps, now);
    CrashRecovery.CompactedMirrors(VOLTKV, live, snaps, now);
    CrashRecovery.StandingRestores(VOLTKV, live, commands, now, Rounding(live, now));
  }

  /** The same without deadlines: exactly, and at any clock. */
  lemma CompactionUnderLoadExact(
      live: Space, snaps: seq<Snap>, now: int, points: seq<Point>, present: Space, ps: seq<Pipe>, es: seq<Move>,
      clock: nat -> int)
    requires WellFormed(live) && IsSnapshot(live, snaps) && NoExpiry(live) && NoExpiry(present)
    requires CrashRecovery.Leads(VOLTKV, live, points, present)
    requires forall p :: p in points ==> TtlFree(p.record)
    requires Race(ps, es) && Waiting(ps[0]) == [] && LateOnes(es) == Records(points)
    requires Printed(es) == 0
    ensures CrashRecovery.Reread(VOLTKV, RewriteCommands(snaps, now) + Waiting(ps[|es|]), clock) == present
  {
    var commands := RewriteCommands(snaps, now);
    var records := commands + Records(points);
    CompactionUnderLoad(live, snaps, now, points, present, ps, es);
    LateRecordsSurvive(ps, es, commands);
    assert Waiting(ps[0])[0..] + Records(points) == Records(points);
    Recovery.VoltkvDurable();
    RewriteTtlFree(live, snaps, now);
    RecordsFree(points);
    CrashRecovery.FreeRereadQuiet(VOLTKV, records, clock);
    var stamps := LogStamps(live, commands, now, points);
    assert CrashRecovery.RestoresAt(VOLTKV, records, stamps, present, clock);
    CrashRecovery.RestoresExactly(VOLTKV, records, stamps, present, clock);
  }

  lemma RecordsFree(points: seq<Point>)
    requires forall p :: p in points ==> TtlFree(p.record)
    ensures forall c :: c in Records(points) ==> TtlFree(c)
  {
    forall c | c in Records(points) ensures TtlFree(c) {
      var i :| 0 <= i < |points| && Records(points)[i] == c;
      assert points[i] in points;
    }
  }

  // ---- What goes wrong otherwise ----

  const LATE: Command := ["SET", "k", "v"]

  const LATE_MOVES: seq<Move> := [Late(LATE), Takes, Prints]

  /** An empty keyspace is snapshotted; a SET is appended and printed; then comes the swap. */
  function LatePipes(): seq<Pipe> {
    [EMPTY_PIPE, Pipe([LATE], None, "", ""), Pipe([], Some(LATE), "", ""), Pipe([], None, Encode(LATE), "")]
  }

  /** The failing input: the SET is in the store, and in neither the new file nor the queue. */
  lemma LateRecordIsLost()
    ensures IsSnapshot(map[], []) && RewriteCommands([], 0) == []
    ensures Race(LatePipes(), LATE_MOVES) && LateOnes(LATE_MOVES) == [LATE] && Printed(LATE_MOVES) == 1
    ensures Swapped(LatePipes()[3], []) == EMPTY_PIPE
    ensures Exec(map[], LATE, 0).space == map["k" := StringEntry("v", None)]
  {
    LateRace();
    LateMoves();
    LateStored();
  }

  lemma LateRace()
    ensures Race(LatePipes(), LATE_MOVES)
  {
    var ps, es := LatePipes(), LATE_MOVES;
    assert Next(ps[0], es[0], ps[1]);
    assert Next(ps[1], es[1], ps[2]);
    assert "" + Encode(LATE) == Encode(LATE);
    assert Next(ps[2], es[2], ps[3]);
  }

  lemma LateStored()
    ensures Exec(map[], LATE, 0).space == map["k" := StringEntry("v", None)]
  {
    PlainSetExec(map[], "k", "v", 0);
    SameLooks(Step(map[], "k", Set("v", 0), 0).space, map["k" := StringEntry("v", None)]);
  }

  lemma LateMoves()
    ensures LateOnes(LATE_MOVES) == [LATE] && Printed(LATE_MOVES) == 1
  {
    var es := LATE_MOVES;
    assert es[..2] == [Late(LATE), Takes] && es[..2][..1] == [Late(LATE)] && es[..2][..1][..0] == [];
    assert LateOnes(es[..2][..1]) == [LATE] && Printed(es[..2][..1]) == 0;
    assert LateOnes(es[..2]) == [LATE] && Printed(es[..2]) == 0;
  }

  const PUSHED: Command := ["RPUSH", "k", "a"]

  function ListOf(items: seq<string>): Entry {
    Entry(KindList, "", map[], items, None)
  }

  const ONE_ITEM: Space := map["k" := ListOf(["a"])]

  const ONE_SNAP: Snap := Snap("k", ListOf(["a"]), [])

  /** The failing input: a record still queued at the snapshot is already in it, and is replayed
      a second time. */
  lemma QueuedRecordIsReplayedTwice(r: int)
    ensures Exec(map[], PUSHED, r).space == ONE_ITEM && IsSnapshot(ONE_ITEM, [ONE_SNAP])
    ensures CrashRecovery.Reread(VOLTKV, RewriteCommands([ONE_SNAP], r) + [PUSHED], At(r))
      == map["k" := ListOf(["a", "a"])]
  {
    var commands := RewriteCommands([ONE_SNAP], r);
    OneSnapshot();
    PushedOnto(r);
    OneRebuilt(r);
    CompactedSilent([ONE_SNAP], r);
    HeardSnoc(commands, PUSHED);
    ReplayThen(map[], commands, PUSHED, r, ONE_ITEM);
  }

  lemma OneRebuilt(r: int)
    ensures Replay(VOLTKV, map[], RewriteCommands([ONE_SNAP], r), At(r)) == ONE_ITEM
  {
    OneSnapshot();
    VoltkvRestoresSnaps();
    CompactionRebuilds(VOLTKV, ONE_ITEM, [ONE_SNAP], r, r);
    assert RestoredSpace(ONE_ITEM, r, r) == ONE_ITEM;
  }

  lemma OneSnapshot()
    ensures IsSnapshot(ONE_ITEM, [ONE_SNAP]) && WellFormed(ONE_ITEM)
  {
    assert SnapOf(ONE_ITEM, ONE_SNAP);
    assert [ONE_SNAP][0] == ONE_SNAP;
  }

  lemma PushedOnto(now: int)
    ensures Exec(map[], PUSHED, now).space == ONE_ITEM
    ensures Exec(ONE_ITEM, PUSHED, now).space == map["k" := ListOf(["a", "a"])]
  {
    RPushParses("k", ["a"]);
    assert ["RPUSH", "k"] + ["a"] == PUSHED;
    ExecParsed(map[], PUSHED, "k", RPush(["a"]), now);
    ExecParsed(ONE_ITEM, PUSHED, "k", RPush(["a"]), now);
    assert [] + [] + ["a"] == ["a"] && [] + ["a"] + ["a"] == ["a", "a"];
    StepOnAbsent(map[], "k", RPush(["a"]), now);
    StepOnPresent(map[], "k", ListOf(["a"]), RPush(["a"]), now);
  }
}
