/** Histories and their replay, for any command executor that keeps a few laws. What a
    command is and does plays no part here; that voltkv's executor keeps the laws is proved
    in module Voltkv. */
module History {
  import opened Basics
  import opened Resp
  import opened Keyspace
  import opened Commands
  import opened Simulation

  /** `exec` runs one command on a keyspace at an instant; `free` recognises commands that
      set no deadline; `stamps` the keys whose deadline a command sets. */
  datatype Engine = Engine(
    exec: (Space, Command, int) -> Outcome,
    free: Command -> bool,
    stamps: (Space, Command, int) -> (string -> bool))

  /** Applying logged records in order, the i-th at instant `clock(i)`. */
  function Replay(g: Engine, m: Space, records: seq<Command>, clock: nat -> int): Space {
    if records == [] then m else
    var n := |records| - 1;
    g.exec(Replay(g, m, records[..n], clock), records[n], clock(n)).space
  }

  /** The clock of a replay that takes place at a single instant. */
  function At(now: int): nat -> int {
    (_: nat) => now
  }

  // ---- Points ----

  function Records(points: seq<Point>): (r: seq<Command>)
    ensures |r| == |points|
    ensures forall i :: 0 <= i < |points| ==> r[i] == points[i].record
  {
    seq(|points|, i requires 0 <= i < |points| => points[i].record)
  }

  lemma RecordsSnoc(points: seq<Point>, p: Point)
    ensures Records(points + [p]) == Records(points) + [p.record]
  {}

  /** The keyspace just before the i-th point of a history that starts from `m`. */
  function Before(m: Space, points: seq<Point>, i: nat): Space
    requires i <= |points|
  {
    if i == 0 then m else points[i - 1].space
  }

  /** The keyspace at the end of that history. */
  function After(m: Space, points: seq<Point>): Space {
    Before(m, points, |points|)
  }

  /** Executing the record of `p` where it was made gives the keyspace `p` remembers, except
      that it may lose expiries. */
  ghost predicate Explained(g: Engine, prev: Space, p: Point) {
    && Quiet(prev, p.time)
    && WellFormed(p.space)
    && Sim(p.space, g.exec(prev, p.record, p.time).space, NO_SHIFT)
  }

  ghost predicate ExplainedAt(g: Engine, m: Space, points: seq<Point>, i: nat)
    requires i < |points|
  {
    Explained(g, Before(m, points, i), points[i])
  }

  /** Every point of the history follows from the keyspace before it. */
  ghost predicate Chain(g: Engine, m: Space, points: seq<Point>) {
    forall i :: 0 <= i < |points| ==> ExplainedAt(g, m, points, i)
  }

  lemma BeforeConcat(m: Space, points: seq<Point>, more: seq<Point>, i: nat)
    requires i <= |points| + |more|
    ensures Before(m, points + more, i) ==
      if i <= |points| then Before(m, points, i) else Before(After(m, points), more, i - |points|)
  {}

  lemma ExplainedConcat(g: Engine, m: Space, points: seq<Point>, more: seq<Point>, i: nat)
    requires i < |points| + |more|
    requires i < |points| ==> ExplainedAt(g, m, points, i)
    requires i >= |points| ==> ExplainedAt(g, After(m, points), more, i - |points|)
    ensures ExplainedAt(g, m, points + more, i)
  {
    BeforeConcat(m, points, more, i);
  }

  lemma ChainConcat(g: Engine, m: Space, points: seq<Point>, more: seq<Point>)
    requires Chain(g, m, points) && Chain(g, After(m, points), more)
    ensures Chain(g, m, points + more)
    ensures After(m, points + more) == After(After(m, points), more)
  {
    BeforeConcat(m, points, more, |points| + |more|);
    forall i | 0 <= i < |points + more| ensures ExplainedAt(g, m, points + more, i) {
      ExplainedConcat(g, m, points, more, i);
    }
  }

  lemma BeforePrefix(m: Space, points: seq<Point>, k: nat, i: nat)
    requires i <= k <= |points|
    ensures Before(m, points[..k], i) == Before(m, points, i)
  {}

  lemma ExplainedPrefix(g: Engine, m: Space, points: seq<Point>, k: nat, i: nat)
    requires i < k <= |points| && ExplainedAt(g, m, points, i)
    ensures ExplainedAt(g, m, points[..k], i)
  {
    BeforePrefix(m, points, k, i);
  }

  lemma ChainPrefix(g: Engine, m: Space, points: seq<Point>, k: nat)
    requires k <= |points| && Chain(g, m, points)
    ensures Chain(g, m, points[..k]) && After(m, points[..k]) == Before(m, points, k)
  {
    BeforePrefix(m, points, k, k);
    forall i | 0 <= i < k ensures ExplainedAt(g, m, points[..k], i) {
      ExplainedPrefix(g, m, points, k, i);
    }
  }

  lemma ChainLast(g: Engine, m: Space, points: seq<Point>)
    requires points != [] && Chain(g, m, points)
    ensures var n := |points| - 1;
      && Chain(g, m, points[..n])
      && After(m, points[..n]) == Before(m, points, n)
      && Explained(g, After(m, points[..n]), points[n])
      && After(m, points) == points[n].space
  {
    var n := |points| - 1;
    ChainPrefix(g, m, points, n);
    assert ExplainedAt(g, m, points, n);
  }

  lemma BeforeTail(m: Space, points: seq<Point>, i: nat)
    requires i < |points|
    ensures Before(points[0].space, points[1..], i) == Before(m, points, i + 1)
  {}

  lemma ExplainedTail(g: Engine, m: Space, points: seq<Point>, i: nat)
    requires i + 1 < |points| && ExplainedAt(g, m, points, i + 1)
    ensures ExplainedAt(g, points[0].space, points[1..], i)
  {
    BeforeTail(m, points, i);
  }

  lemma ChainFirst(g: Engine, m: Space, points: seq<Point>)
    requires points != [] && Chain(g, m, points)
    ensures Explained(g, m, points[0])
    ensures Chain(g, points[0].space, points[1..]) && After(points[0].space, points[1..]) == After(m, points)
  {
    var rest := points[1..];
    assert ExplainedAt(g, m, points, 0);
    BeforeTail(m, points, |rest|);
    forall i | 0 <= i < |rest| ensures ExplainedAt(g, points[0].space, rest, i) {
      ExplainedTail(g, m, points, i);
    }
  }

  lemma ChainOne(g: Engine, m: Space, p: Point)
    requires Explained(g, m, p)
    ensures Chain(g, m, [p]) && After(m, [p]) == p.space
  {
    assert ExplainedAt(g, m, [p], 0);
  }

  // ---- The laws ----

  /** Whatever a command leaves is live at its own instant. */
  ghost predicate KeepsQuiet(g: Engine) {
    forall m, args, now :: Quiet(g.exec(m, args, now).space, now)
  }

  /** Running one command on two mirrored keyspaces, each at a quiet instant, keeps them so:
      a deadline the command sets is off by the distance of the instants, others as before. */
  ghost predicate KeepsSim(g: Engine) {
    forall a, b, args, t, rt, drift :: SimKept(g, a, b, args, t, rt, drift)
  }

  ghost predicate SimKept(g: Engine, a: Space, b: Space, args: Command, t: int, rt: int, drift: Drift) {
    Sim(a, b, drift) && Quiet(a, t) && Quiet(b, rt)
    ==> Sim(g.exec(a, args, t).space, g.exec(b, args, rt).space, Moved(g.stamps(a, args, t), rt - t, drift))
  }

  /** The records a command logs explain what it did. */
  ghost predicate LogsWhatItDoes(g: Engine) {
    forall m, args, now :: WellFormed(m) ==> Justified(g, m, args, now)
  }

  ghost predicate Justified(g: Engine, m: Space, args: Command, now: int) {
    var o := g.exec(m, args, now);
    && Chain(g, Live(m, now), o.points)
    && After(Live(m, now), o.points) == o.space
    && WellFormed(o.space)
  }

  /** Deadline-free commands leave and log nothing with a deadline. */
  ghost predicate KeepsFree(g: Engine) {
    forall m, args, now :: NoExpiry(m) && g.free(args) ==> LeavesFree(g, g.exec(m, args, now))
  }

  ghost predicate LeavesFree(g: Engine, o: Outcome) {
    NoExpiry(o.space) && forall p :: p in o.points ==> NoExpiry(p.space) && g.free(p.record)
  }

  ghost predicate Lawful(g: Engine) {
    KeepsQuiet(g) && KeepsSim(g) && LogsWhatItDoes(g) && KeepsFree(g)
  }

  // ---- Runs ----

  datatype Event = Event(args: Command, now: int)

  datatype Past = Past(space: Space, points: seq<Point>)

  /** The keyspace and the points logged after running `events` one after the other. */
  function Run(g: Engine, events: seq<Event>): Past {
    if events == [] then Past(map[], []) else
    var n := |events| - 1;
    var before := Run(g, events[..n]);
    var o := g.exec(before.space, events[n].args, events[n].now);
    Past(o.space, before.points + o.points)
  }

  /** No deadline passes during the run: each command finds every key still alive. */
  ghost predicate QuietRun(g: Engine, events: seq<Event>) {
    events == [] ||
    var n := |events| - 1;
    QuietRun(g, events[..n]) && Quiet(Run(g, events[..n]).space, events[n].now)
  }

  /** No deadline of the replayed keyspace passes during the replay. */
  ghost predicate QuietReplay(g: Engine, records: seq<Command>, clock: nat -> int) {
    records == [] ||
    var n := |records| - 1;
    QuietReplay(g, records[..n], clock) && Quiet(Replay(g, map[], records[..n], clock), clock(n))
  }

  lemma {:induction false} RunChains(g: Engine, events: seq<Event>)
    requires Lawful(g) && QuietRun(g, events)
    ensures var h := Run(g, events);
      Chain(g, map[], h.points) && After(map[], h.points) == h.space && WellFormed(h.space)
  {
    if events != [] {
      var n := |events| - 1;
      var before := Run(g, events[..n]);
      RunChains(g, events[..n]);
      assert Justified(g, before.space, events[n].args, events[n].now);
      var o := g.exec(before.space, events[n].args, events[n].now);
      ChainConcat(g, map[], before.points, o.points);
    }
  }

  // ---- How far deadlines move ----

  /** What a record did to deadlines: when, to which keys, and by how much the deadlines it
      carries may be off: by nothing, unless a compaction rounded them. */
  datatype Stamp = Stamp(time: int, sets: string -> bool, slip: Drift)

  /** A record with this stamp, replayed at instant `at`, may move the deadline of `k` by `d`. */
  ghost predicate MovesBy(stamp: Stamp, k: string, at: int, d: int) {
    d - (at - stamp.time) in stamp.slip(k)
  }

  /** The record that last set the deadline of `k`. */
  ghost function LastSet(stamps: seq<Stamp>, k: string): (i: Option<nat>)
    ensures i.Some? ==> i.value < |stamps|
  {
    if stamps == [] then None else
    var n := |stamps| - 1;
    if stamps[n].sets(k) then Some(n) else LastSet(stamps[..n], k)
  }

  /** By how much a replay moves each deadline: as far as the record that last set it moved,
      with its slip. */
  ghost function Shifts(stamps: seq<Stamp>, clock: nat -> int): Drift {
    (k: string) =>
      match LastSet(stamps, k)
      case Some(i) => (iset d | MovesBy(stamps[i], k, clock(i), d))
      case None => iset{}
  }

  lemma ShiftsAt(stamps: seq<Stamp>, clock: nat -> int, k: string)
    ensures var last := LastSet(stamps, k);
      if last.Some? then
        forall d :: d in Shifts(stamps, clock)(k) <==> MovesBy(stamps[last.value], k, clock(last.value), d)
      else
        Shifts(stamps, clock)(k) == iset{}
  {}

  /** One more record moves the deadlines as the law says a command does. */
  lemma ShiftsSnoc(stamps: seq<Stamp>, stamp: Stamp, clock: nat -> int, k: string)
    requires stamp.slip == NO_SHIFT
    ensures Moved(stamp.sets, clock(|stamps|) - stamp.time, Shifts(stamps, clock))(k)
      <= Shifts(stamps + [stamp], clock)(k)
  {
    var more := stamps + [stamp];
    assert more[..|stamps|] == stamps;
    ShiftsAt(stamps, clock, k);
    ShiftsAt(more, clock, k);
  }

  /** The stamp of a record executed on `m` at `time`. */
  ghost function StampOf(g: Engine, m: Space, record: Command, time: int): Stamp {
    Stamp(time, g.stamps(m, record, time), NO_SHIFT)
  }

  /** The stamps of a history that starts from `m`. */
  ghost function PointStamps(g: Engine, m: Space, points: seq<Point>): (r: seq<Stamp>)
    ensures |r| == |points|
  {
    seq(|points|, i requires 0 <= i < |points| =>
      StampOf(g, Before(m, points, i), points[i].record, points[i].time))
  }

  /** By how much a replay moves each deadline: as far as the record that last set it moved. */
  ghost function DriftOf(g: Engine, points: seq<Point>, clock: nat -> int): Drift {
    Shifts(PointStamps(g, map[], points), clock)
  }

  /** Between any two records no more time passes in the replay than passed in the run. */
  ghost predicate NoSlower(points: seq<Point>, clock: nat -> int) {
    forall i, j :: 0 <= i <= j < |points| ==> clock(j) - clock(i) <= points[j].time - points[i].time
  }

  lemma PointStampsSnoc(g: Engine, m: Space, points: seq<Point>)
    requires points != []
    ensures var n := |points| - 1;
      PointStamps(g, m, points) == PointStamps(g, m, points[..n]) +
        [StampOf(g, Before(m, points, n), points[n].record, points[n].time)]
  {
    var n := |points| - 1;
    forall i | 0 <= i < n ensures PointStamps(g, m, points)[i] == PointStamps(g, m, points[..n])[i] {
      BeforePrefix(m, points, n, i);
    }
  }

  // ---- Replay of a chain of points ----

  lemma ReplaySnoc(g: Engine, m: Space, records: seq<Command>, record: Command, clock: nat -> int)
    ensures Replay(g, m, records + [record], clock) ==
      g.exec(Replay(g, m, records, clock), record, clock(|records|)).space
  {
    assert (records + [record])[..|records|] == records;
  }

  lemma ReplayOne(g: Engine, m: Space, record: Command, clock: nat -> int)
    ensures Replay(g, m, [record], clock) == g.exec(m, record, clock(0)).space
  {
    ReplaySnoc(g, m, [], record, clock);
    assert [] + [record] == [record];
  }

  lemma {:induction false} ReplayConcat(g: Engine, m: Space, a: seq<Command>, b: seq<Command>, now: int)
    ensures Replay(g, m, a + b, At(now)) == Replay(g, Replay(g, m, a, At(now)), b, At(now))
  {
    if b == [] {
      assert a + b == a;
    } else {
      var c, x := b[..|b| - 1], b[|b| - 1];
      assert b == c + [x] && a + b == (a + c) + [x];
      ReplayConcat(g, m, a, c, now);
      ReplaySnoc(g, m, a + c, x, At(now));
      ReplaySnoc(g, Replay(g, m, a, At(now)), c, x, At(now));
    }
  }

  lemma ReplayLast(g: Engine, points: seq<Point>, clock: nat -> int)
    requires points != []
    ensures var n := |points| - 1;
      && Records(points)[..n] == Records(points[..n])
      && Replay(g, map[], Records(points), clock)
        == g.exec(Replay(g, map[], Records(points[..n]), clock), points[n].record, clock(n)).space
  {
    var n := |points| - 1;
    assert Records(points)[..n] == Records(points[..n]);
  }

  /** If the replayed keyspace mirrors the live one before a record, it does after it. */
  lemma RecordKeepsSim(g: Engine, live: Space, p: Point, replayed: Space, rt: int, drift: Drift)
    requires KeepsSim(g) && Explained(g, live, p)
    requires Sim(live, replayed, drift) && Quiet(replayed, rt)
    ensures Sim(p.space, g.exec(replayed, p.record, rt).space,
                Moved(g.stamps(live, p.record, p.time), rt - p.time, drift))
  {
    assert SimKept(g, live, replayed, p.record, p.time, rt, drift);
    SimTrans(p.space, g.exec(live, p.record, p.time).space, g.exec(replayed, p.record, rt).space,
             Moved(g.stamps(live, p.record, p.time), rt - p.time, drift));
  }

  lemma MirrorsOneMore(g: Engine, points: seq<Point>, replayed: Space, clock: nat -> int)
    requires KeepsSim(g) && points != []
    requires var n := |points| - 1;
      && Explained(g, Before(map[], points, n), points[n])
      && Sim(Before(map[], points, n), replayed, DriftOf(g, points[..n], clock))
      && Quiet(replayed, clock(n))
    ensures var n := |points| - 1;
      Sim(points[n].space, g.exec(replayed, points[n].record, clock(n)).space, DriftOf(g, points, clock))
  {
    var n := |points| - 1;
    var live, p, drift := Before(map[], points, n), points[n], DriftOf(g, points[..n], clock);
    var moved := Moved(g.stamps(live, p.record, p.time), clock(n) - p.time, drift);
    RecordKeepsSim(g, live, p, replayed, clock(n), drift);
    PointStampsSnoc(g, map[], points);
    forall k ensures moved(k) <= DriftOf(g, points, clock)(k) {
      ShiftsSnoc(PointStamps(g, map[], points[..n]), StampOf(g, live, p.record, p.time), clock, k);
    }
    SimWiden(p.space, g.exec(replayed, p.record, clock(n)).space, moved, DriftOf(g, points, clock));
  }

  /** Replaying the records of a chain gives the keyspace at its end: same keys, kinds and
      values, and every expiry absent or moved exactly as far as the record that last set it. */
  lemma {:induction false} ReplayMirrors(g: Engine, points: seq<Point>, clock: nat -> int)
    requires Lawful(g) && Chain(g, map[], points)
    requires QuietReplay(g, Records(points), clock)
    ensures Sim(After(map[], points), Replay(g, map[], Records(points), clock), DriftOf(g, points, clock))
  {
    if points != [] {
      var start := points[..|points| - 1];
      ReplayLast(g, points, clock);
      ChainLast(g, map[], points);
      ReplayMirrors(g, start, clock);
      MirrorsOneMore(g, points, Replay(g, map[], Records(start), clock), clock);
    }
  }

  /** A mirrored keyspace is quiet when each shift leaves its deadlines no nearer. */
  lemma MirrorQuiet(live: Space, replayed: Space, t: int, rt: int, drift: Drift)
    requires Sim(live, replayed, drift) && Quiet(live, t)
    requires forall k, d :: d in drift(k) ==> rt - t <= d
    ensures Quiet(replayed, rt)
  {
    forall k | k in replayed ensures !replayed[k].Expired(rt) {
      assert EntrySim(Look(live, k), Look(replayed, k), drift(k));
      assert k in Live(live, t);
    }
  }

  lemma DriftNoSlower(g: Engine, points: seq<Point>, clock: nat -> int, k: string, d: int)
    requires points != [] && NoSlower(points, clock)
    requires d in DriftOf(g, points[..|points| - 1], clock)(k)
    ensures clock(|points| - 1) - points[|points| - 1].time <= d
  {
    var n := |points| - 1;
    var stamps := PointStamps(g, map[], points[..n]);
    ShiftsAt(stamps, clock, k);
    var i := LastSet(stamps, k).value;
    assert stamps[i].time == points[i].time && stamps[i].slip(k) == ZERO;
    assert clock(n) - clock(i) <= points[n].time - points[i].time;
  }

  /** A replay no slower than the run lets no deadline pass either. */
  lemma {:induction false} NoSlowerIsQuiet(g: Engine, points: seq<Point>, clock: nat -> int)
    requires Lawful(g) && Chain(g, map[], points) && NoSlower(points, clock)
    ensures QuietReplay(g, Records(points), clock)
  {
    if points != [] {
      var n := |points| - 1;
      var start := points[..n];
      ReplayLast(g, points, clock);
      ChainLast(g, map[], points);
      NoSlowerIsQuiet(g, start, clock);
      ReplayMirrors(g, start, clock);
      forall k, d | d in DriftOf(g, start, clock)(k) ensures clock(n) - points[n].time <= d {
        DriftNoSlower(g, points, clock, k, d);
      }
      MirrorQuiet(After(map[], start), Replay(g, map[], Records(start), clock), points[n].time, clock(n),
                  DriftOf(g, start, clock));
    }
  }

  lemma {:induction false} QuietReplayPrefix(g: Engine, records: seq<Command>, clock: nat -> int, k: nat)
    requires k <= |records| && QuietReplay(g, records, clock)
    ensures QuietReplay(g, records[..k], clock)
  {
    if k < |records| {
      var n := |records| - 1;
      QuietReplayPrefix(g, records[..n], clock, k);
      assert records[..n][..k] == records[..k];
    } else {
      assert records[..k] == records;
    }
  }

  // ---- Without deadlines ----

  lemma NoExpiryQuiet(m: Space, now: int)
    requires NoExpiry(m)
    ensures Quiet(m, now)
  {}

  lemma {:induction false} RunNoExpiry(g: Engine, events: seq<Event>)
    requires Lawful(g)
    requires forall e :: e in events ==> g.free(e.args)
    ensures var h := Run(g, events); NoExpiry(h.space) && forall p :: p in h.points ==> NoExpiry(p.space)
    ensures QuietRun(g, events)
  {
    if events != [] {
      var n := |events| - 1;
      RunNoExpiry(g, events[..n]);
      assert LeavesFree(g, g.exec(Run(g, events[..n]).space, events[n].args, events[n].now));
      NoExpiryQuiet(Run(g, events[..n]).space, events[n].now);
    }
  }

  /** Where no point has an expiry, the replay rebuilds the keyspace exactly, whatever its clock. */
  lemma {:induction false} ReplayIsExact(g: Engine, points: seq<Point>, clock: nat -> int)
    requires Lawful(g) && Chain(g, map[], points)
    requires forall p :: p in points ==> NoExpiry(p.space)
    ensures Replay(g, map[], Records(points), clock) == After(map[], points)
  {
    if points != [] {
      var n := |points| - 1;
      var start := points[..n];
      ReplayLast(g, points, clock);
      ChainLast(g, map[], points);
      ReplayIsExact(g, start, clock);
      var live := After(map[], start);
      if n > 0 { assert start[n - 1] in points; }
      assert points[n] in points;
      NoExpiryQuiet(live, clock(n));
      SimRefl(live);
      RecordKeepsSim(g, live, points[n], live, clock(n), NO_SHIFT);
      SimExact(points[n].space, g.exec(live, points[n].record, clock(n)).space,
               Moved(g.stamps(live, points[n].record, points[n].time), clock(n) - points[n].time, NO_SHIFT));
    }
  }

  /** Records that set no deadline replay quietly at any clock. */
  lemma {:induction false} FreeReplayQuiet(g: Engine, records: seq<Command>, clock: nat -> int)
    requires Lawful(g)
    requires forall r :: r in records ==> g.free(r)
    ensures QuietReplay(g, records, clock) && NoExpiry(Replay(g, map[], records, clock))
  {
    if records != [] {
      var n := |records| - 1;
      FreeReplayQuiet(g, records[..n], clock);
      NoExpiryQuiet(Replay(g, map[], records[..n], clock), clock(n));
      assert records[n] in records;
      assert LeavesFree(g, g.exec(Replay(g, map[], records[..n], clock), records[n], clock(n)));
    }
  }

  // ---- The instant of a replay ----

  lemma {:induction false} ReplayAtQuiet(g: Engine, records: seq<Command>, now: int)
    requires Lawful(g)
    ensures Quiet(Replay(g, map[], records, At(now)), now)
    ensures QuietReplay(g, records, At(now))
  {
    if records != [] {
      var n := |records| - 1;
      ReplayAtQuiet(g, records[..n], now);
      assert Quiet(g.exec(Replay(g, map[], records[..n], At(now)), records[n], now).space, now);
    }
  }

  /** The stamps of records replayed at the single instant `now`, carrying deadlines that are
      off by `slip`. */
  ghost function ReplayStamps(g: Engine, records: seq<Command>, now: int, slip: Drift): (r: seq<Stamp>)
    ensures |r| == |records|
  {
    seq(|records|, i requires 0 <= i < |records| =>
      Stamp(now, g.stamps(Replay(g, map[], records[..i], At(now)), records[i], now), slip))
  }

  lemma ReplayStampsSnoc(g: Engine, records: seq<Command>, now: int)
    requires records != []
    ensures var n := |records| - 1;
      ReplayStamps(g, records, now, NO_SHIFT) == ReplayStamps(g, records[..n], now, NO_SHIFT) +
        [StampOf(g, Replay(g, map[], records[..n], At(now)), records[n], now)]
  {
    var n := |records| - 1;
    forall i | 0 <= i < n
      ensures ReplayStamps(g, records, now, NO_SHIFT)[i] == ReplayStamps(g, records[..n], now, NO_SHIFT)[i]
    {
      assert records[..n][..i] == records[..i];
    }
  }

  lemma ClocksAgreeOnce(g: Engine, a: Space, b: Space, record: Command, stamps: seq<Stamp>, now: int, clock: nat -> int)
    requires KeepsSim(g)
    requires Sim(a, b, Shifts(stamps, clock)) && Quiet(a, now) && Quiet(b, clock(|stamps|))
    ensures Sim(g.exec(a, record, now).space, g.exec(b, record, clock(|stamps|)).space,
                Shifts(stamps + [StampOf(g, a, record, now)], clock))
  {
    var rt, drift, stamp := clock(|stamps|), Shifts(stamps, clock), StampOf(g, a, record, now);
    assert SimKept(g, a, b, record, now, rt, drift);
    forall k ensures Moved(stamp.sets, rt - now, drift)(k) <= Shifts(stamps + [stamp], clock)(k) {
      ShiftsSnoc(stamps, stamp, clock, k);
    }
    SimWiden(g.exec(a, record, now).space, g.exec(b, record, rt).space,
             Moved(stamp.sets, rt - now, drift), Shifts(stamps + [stamp], clock));
  }

  /** A replay in which no deadline passes agrees with the one at a single instant, each expiry
      moved as far as the record that last set it. */
  lemma {:induction false} ClocksAgree(g: Engine, records: seq<Command>, now: int, clock: nat -> int)
    requires Lawful(g) && QuietReplay(g, records, clock)
    ensures Sim(Replay(g, map[], records, At(now)), Replay(g, map[], records, clock),
                Shifts(ReplayStamps(g, records, now, NO_SHIFT), clock))
  {
    if records != [] {
      var n := |records| - 1;
      ClocksAgree(g, records[..n], now, clock);
      ReplayAtQuiet(g, records[..n], now);
      ReplayStampsSnoc(g, records, now);
      ClocksAgreeOnce(g, Replay(g, map[], records[..n], At(now)), Replay(g, map[], records[..n], clock),
                      records[n], ReplayStamps(g, records[..n], now, NO_SHIFT), now, clock);
    }
  }

  lemma {:induction false} SameSets(a: seq<Stamp>, b: seq<Stamp>, k: string)
    requires |a| == |b| && forall i :: 0 <= i < |a| ==> a[i].sets(k) == b[i].sets(k)
    ensures LastSet(a, k) == LastSet(b, k)
  {
    if a != [] {
      var n := |a| - 1;
      SameSets(a[..n], b[..n], k);
    }
  }

  lemma SlipMoves(exact: Stamp, slipped: Stamp, k: string, at: int, d: int, e: int)
    requires exact.time == slipped.time && exact.slip == NO_SHIFT
    requires d in slipped.slip(k) && MovesBy(exact, k, at, e)
    ensures MovesBy(slipped, k, at, d + e)
  {
    assert e == at - exact.time;
  }

  /** A slip of the deadlines adds to what moves them. */
  lemma SlipAdds(g: Engine, records: seq<Command>, now: int, slip: Drift, clock: nat -> int, k: string)
    ensures AddUpTo(slip(k), Shifts(ReplayStamps(g, records, now, NO_SHIFT), clock)(k),
                    Shifts(ReplayStamps(g, records, now, slip), clock)(k))
  {
    var exact, slipped := ReplayStamps(g, records, now, NO_SHIFT), ReplayStamps(g, records, now, slip);
    forall i | 0 <= i < |records| ensures exact[i].sets(k) == slipped[i].sets(k) {}
    SameSets(exact, slipped, k);
    ShiftsAt(exact, clock, k);
    ShiftsAt(slipped, clock, k);
    forall d, e ensures Adds(slip(k), Shifts(exact, clock)(k), Shifts(slipped, clock)(k), d, e) {
      if d in slip(k) && e in Shifts(exact, clock)(k) {
        var i := LastSet(exact, k).value;
        SlipMoves(exact[i], slipped[i], k, clock(i), d, e);
      }
    }
  }

  lemma {:induction false} ReplayWellFormed(g: Engine, records: seq<Command>, clock: nat -> int)
    requires Lawful(g)
    ensures WellFormed(Replay(g, map[], records, clock))
  {
    if records != [] {
      var n := |records| - 1;
      ReplayWellFormed(g, records[..n], clock);
      assert Justified(g, Replay(g, map[], records[..n], clock), records[n], clock(n));
    }
  }
}
