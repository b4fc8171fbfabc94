/** The whole server as a state machine, for any executor that keeps the laws: commands run
    one after the other, their records travel through the pipe, the log is compacted now and
    then, and the process may stop after any step. Whatever the file then holds rebuilds a
    state the server passed through. */
module CrashRecovery {
  import opened Basics
  import opened Resp
  import opened Keyspace
  import opened Commands
  import opened Sessions
  import opened Simulation
  import opened History
  import opened Compaction
  import opened Pipeline

  /** `pending` are records of the current command not yet handed over. `records` is every
      record the log logically holds, each with its stamp; the first `base` of them were whole
      in the file when the server started or last compacted. `trail[i]` is the live keyspace as
      it stood when record base + i was about to be appended; the last one is where `pending`
      starts. */
  datatype Server = Server(
    space: Space,
    pending: seq<Point>,
    pipe: Pipe,
    records: seq<Command>,
    stamps: seq<Stamp>,
    base: nat,
    trail: seq<Space>)

  /** Replaying a whole log through one connection. */
  function Reread(g: Engine, records: seq<Command>, clock: nat -> int): Space {
    Replay(g, map[], Heard(records), clock)
  }

  /** No deadline passes in that replay. */
  ghost predicate QuietReread(g: Engine, records: seq<Command>, clock: nat -> int) {
    QuietReplay(g, Heard(records), clock)
  }

  datatype Move =
    | Execute(args: Command, now: int)
    | HandOver
    | WriterRuns
    | Compact(snaps: seq<Snap>, now: int)

  /** A server on a file that holds exactly `records`, with nothing on its way. Replayed at
      instant `r`, they give its keyspace up to `slip`. */
  ghost function Standing(g: Engine, space: Space, records: seq<Command>, r: int, slip: Drift): Server {
    Server(space, [], Pipe([], None, "", EncodeAll(records)), records, ReplayStamps(g, Heard(records), r, slip),
           |records|, [space])
  }

  /** A server whose log file held exactly `records` and that replayed them at instant `r`. */
  ghost function Started(g: Engine, records: seq<Command>, r: int): Server {
    Standing(g, Reread(g, records, At(r)), records, r, NO_SHIFT)
  }

  ghost function Compacted(g: Engine, space: Space, commands: seq<Command>, now: int): Server {
    Standing(g, space, commands, now, Rounding(space, now))
  }

  /** The live keyspace as it stood when the next record is about to be appended. */
  ghost function LastSpace(trail: seq<Space>): Space {
    if trail == [] then map[] else trail[|trail| - 1]
  }

  /** A step, in a run in which no deadline passes. */
  ghost predicate Next(g: Engine, s: Server, e: Move, s': Server) {
    match e
    case Execute(args, now) =>
      && s.pending == [] && Fits(args) && Quiet(s.space, now)
      && s' == s.(space := g.exec(s.space, args, now).space, pending := g.exec(s.space, args, now).points)
    case HandOver =>
      && s.pending != []
      && Enqueue(s.pipe, s.pending[0].record, s'.pipe)
      && s' == s.(
           pipe := s'.pipe,
           pending := s.pending[1..],
           records := s.records + [s.pending[0].record],
           stamps := s.stamps + [StampOf(g, LastSpace(s.trail), s.pending[0].record, s.pending[0].time)],
           trail := s.trail + [s.pending[0].space])
    case WriterRuns =>
      WriterStep(s.pipe, s'.pipe) && s' == s.(pipe := s'.pipe)
    case Compact(snaps, now) =>
      && s.pending == [] && Waiting(s.pipe) == [] && Quiet(s.space, now)
      && IsSnapshot(s.space, snaps)
      && AllFit(RewriteCommands(snaps, now))
      && s' == Compacted(g, s.space, RewriteCommands(snaps, now), now)
  }

  ghost predicate Run(g: Engine, start: seq<Command>, r: int, ss: seq<Server>, es: seq<Move>) {
    && |ss| == |es| + 1
    && AllFit(start)
    && ss[0] == Started(g, start, r)
    && forall i {:trigger es[i]} :: 0 <= i < |es| ==> Next(g, ss[i], es[i], ss[i + 1])
  }

  // ---- The engine's further laws ----

  /** Commands that fit in memory log records that do. */
  ghost predicate FitKept(g: Engine, m: Space, args: Command, now: int) {
    Fits(args) ==> AllFit(Records(g.exec(m, args, now).points))
  }

  /** A keyspace without deadlines compacts to commands that set none. */
  ghost predicate CompactsFree(g: Engine, m: Space, snaps: seq<Snap>, now: int) {
    NoExpiry(m) && IsSnapshot(m, snaps) ==> forall c :: c in RewriteCommands(snaps, now) ==> g.free(c)
  }

  /** No command logs one that changes the mode of the connection it is replayed through. */
  ghost predicate LogsPlain(g: Engine, m: Space, args: Command, now: int) {
    AllPlain(Records(g.exec(m, args, now).points))
  }

  ghost predicate CompactsPlain(m: Space, snaps: seq<Snap>, now: int) {
    IsSnapshot(m, snaps) ==> AllPlain(RewriteCommands(snaps, now))
  }

  /** No command leaves a deadline further ahead than a duration can say. */
  ghost predicate KeepsNear(g: Engine, m: Space, args: Command, now: int) {
    Near(m, now) ==> Near(g.exec(m, args, now).space, now)
  }

  ghost predicate Durable(g: Engine) {
    && Lawful(g)
    && RestoresSnaps(g)
    && g.free([])
    && (forall m, args, now :: FitKept(g, m, args, now))
    && (forall m, args, now :: LogsPlain(g, m, args, now))
    && (forall m, args, now :: KeepsNear(g, m, args, now))
    && (forall m, snaps, now :: CompactsFree(g, m, snaps, now))
    && (forall m, snaps, now :: CompactsPlain(m, snaps, now))
  }

  // ---- What every step keeps ----

  /** A replay of `records` in which no deadline passes gives `m`, each expiry absent or moved
      as the stamp of the record that last set it says. */
  ghost predicate Restores(g: Engine, records: seq<Command>, stamps: seq<Stamp>, m: Space) {
    forall clock: nat -> int :: RestoresAt(g, records, stamps, m, clock)
  }

  ghost predicate RestoresAt(g: Engine, records: seq<Command>, stamps: seq<Stamp>, m: Space, clock: nat -> int) {
    QuietReread(g, records, clock) ==> Sim(m, Reread(g, records, clock), Shifts(stamps, clock))
  }

  /** The pipe carries the records, and the file the first `base` of them whole. */
  ghost predicate Holds(pipe: Pipe, records: seq<Command>, base: nat)
    requires base <= |records|
  {
    && Carries(pipe, records) && AllFit(records) && SubsOf(records) == {}
    && |EncodeAll(records[..base])| <= |pipe.file|
  }

  ghost predicate LogInv(s: Server) {
    && s.base <= |s.records| && |s.trail| == |s.records| - s.base + 1
    && |s.stamps| == |s.records|
    && Holds(s.pipe, s.records, s.base)
  }

  ghost predicate TrailInv(g: Engine, s: Server)
    requires LogInv(s)
  {
    TrailRestores(g, s.records, s.stamps, s.base, s.trail)
  }

  ghost predicate TrailRestores(g: Engine, records: seq<Command>, stamps: seq<Stamp>, base: nat, trail: seq<Space>)
    requires base + |trail| == |records| + 1 && |stamps| == |records|
  {
    forall i :: 0 <= i < |trail| ==> Restores(g, records[..base + i], stamps[..base + i], trail[i])
  }

  /** The pending records lead from `last` to `space`. */
  ghost predicate Leads(g: Engine, last: Space, pending: seq<Point>, space: Space) {
    && WellFormed(space)
    && Chain(g, last, pending) && After(last, pending) == space
    && AllFit(Records(pending)) && AllPlain(Records(pending))
  }

  ghost predicate PendingInv(g: Engine, s: Server)
    requires LogInv(s)
  {
    Leads(g, s.trail[|s.trail| - 1], s.pending, s.space)
  }

  ghost predicate Inv(g: Engine, s: Server) {
    LogInv(s) && TrailInv(g, s) && PendingInv(g, s)
  }

  lemma TrailAt(g: Engine, s: Server, k: nat)
    requires LogInv(s) && TrailInv(g, s) && s.base <= k <= |s.records|
    ensures Restores(g, s.records[..k], s.stamps[..k], s.trail[k - s.base])
  {
    var i := k - s.base;
    assert Restores(g, s.records[..s.base + i], s.stamps[..s.base + i], s.trail[i]);
  }

  // ---- Starting ----

  lemma RereadWellFormed(g: Engine, records: seq<Command>, clock: nat -> int)
    requires Lawful(g)
    ensures WellFormed(Reread(g, records, clock))
  {
    ReplayWellFormed(g, Heard(records), clock);
  }

  /** A keyspace that a replay at one instant restores up to a slip is restored by every replay. */
  lemma StandingRestores(g: Engine, space: Space, records: seq<Command>, r: int, slip: Drift)
    requires Lawful(g)
    requires Sim(space, Reread(g, records, At(r)), slip)
    ensures Restores(g, records, ReplayStamps(g, Heard(records), r, slip), space)
  {
    forall clock: nat -> int ensures RestoresAt(g, records, ReplayStamps(g, Heard(records), r, slip), space, clock) {
      if QuietReread(g, records, clock) {
        var heard := Heard(records);
        ClocksAgree(g, heard, r, clock);
        forall k ensures AddUpTo(slip(k), Shifts(ReplayStamps(g, heard, r, NO_SHIFT), clock)(k),
                                 Shifts(ReplayStamps(g, heard, r, slip), clock)(k)) {
          SlipAdds(g, heard, r, slip, clock, k);
        }
        SimAdd(space, Reread(g, records, At(r)), Reread(g, records, clock),
               slip, Shifts(ReplayStamps(g, heard, r, NO_SHIFT), clock),
               Shifts(ReplayStamps(g, heard, r, slip), clock));
      }
    }
  }

  lemma StandingLog(g: Engine, space: Space, records: seq<Command>, r: int, slip: Drift)
    requires AllFit(records) && SubsOf(records) == {}
    ensures LogInv(Standing(g, space, records, r, slip))
  {
    WholePipe(records);
    assert records[..|records|] == records;
  }

  lemma NothingPending(g: Engine, space: Space)
    requires WellFormed(space)
    ensures Leads(g, space, [], space)
  {
    assert Records([]) == [];
  }

  lemma OneTrail(g: Engine, records: seq<Command>, stamps: seq<Stamp>, space: Space)
    requires |stamps| == |records| && Restores(g, records, stamps, space)
    ensures TrailRestores(g, records, stamps, |records|, [space])
  {
    assert records[..|records|] == records && stamps[..|records|] == stamps;
  }

  lemma StandingTrail(g: Engine, s: Server, space: Space)
    requires LogInv(s) && s.base == |s.records| && s.trail == [space]
    requires Restores(g, s.records, s.stamps, space)
    ensures TrailInv(g, s)
  {
    OneTrail(g, s.records, s.stamps, space);
  }

  lemma StandingPending(g: Engine, s: Server, space: Space)
    requires LogInv(s) && WellFormed(space)
    requires s.trail == [space] && s.pending == [] && s.space == space
    ensures PendingInv(g, s)
  {
    NothingPending(g, space);
  }

  lemma StandingInv(g: Engine, space: Space, records: seq<Command>, r: int, slip: Drift)
    requires WellFormed(space) && AllFit(records) && SubsOf(records) == {}
    requires Restores(g, records, ReplayStamps(g, Heard(records), r, slip), space)
    ensures Inv(g, Standing(g, space, records, r, slip))
  {
    var s := Standing(g, space, records, r, slip);
    StandingLog(g, space, records, r, slip);
    StandingTrail(g, s, space);
    StandingPending(g, s, space);
  }

  lemma StartedInv(g: Engine, records: seq<Command>, r: int)
    requires Durable(g)
    requires AllFit(records) && SubsOf(records) == {}
    ensures Inv(g, Started(g, records, r))
  {
    var space := Reread(g, records, At(r));
    RereadWellFormed(g, records, At(r));
    SimRefl(space);
    StandingRestores(g, space, records, r, NO_SHIFT);
    StandingInv(g, space, records, r, NO_SHIFT);
  }

  // ---- Executing ----

  lemma ExecuteLeads(g: Engine, m: Space, args: Command, now: int)
    requires Durable(g) && WellFormed(m) && Fits(args) && Quiet(m, now)
    ensures Leads(g, m, g.exec(m, args, now).points, g.exec(m, args, now).space)
  {
    assert Justified(g, m, args, now);
    assert FitKept(g, m, args, now);
    assert LogsPlain(g, m, args, now);
  }

  lemma ExecuteKeepsInv(g: Engine, s: Server, args: Command, now: int, s': Server)
    requires Durable(g)
    requires Inv(g, s) && Next(g, s, Execute(args, now), s')
    ensures Inv(g, s')
  {
    var o := g.exec(s.space, args, now);
    NothingLeads(g, s);
    ExecuteLeads(g, s.space, args, now);
    SameLog(g, s, o.space, o.points);
  }

  lemma NothingLeads(g: Engine, s: Server)
    requires LogInv(s) && PendingInv(g, s)
    ensures s.pending == [] ==> s.trail[|s.trail| - 1] == s.space && WellFormed(s.space)
  {}

  /** What the log holds does not depend on what is under way to it. */
  lemma SameLog(g: Engine, s: Server, space: Space, pending: seq<Point>)
    requires LogInv(s) && TrailInv(g, s) && Leads(g, s.trail[|s.trail| - 1], pending, space)
    ensures Inv(g, s.(space := space, pending := pending))
  {}

  // ---- Logging ----

  lemma HoldsMore(pipe: Pipe, records: seq<Command>, base: nat, record: Command, pipe': Pipe)
    requires base <= |records| && Holds(pipe, records, base)
    requires Enqueue(pipe, record, pipe') && Fits(record) && Plain(record)
    ensures Holds(pipe', records + [record], base)
  {
    EnqueueCarries(pipe, record, pipe', records);
    HeardSnoc(records, record);
    assert (records + [record])[..base] == records[..base];
  }

  lemma HandOverKeepsLog(g: Engine, s: Server, s': Server)
    requires LogInv(s) && PendingInv(g, s) && Next(g, s, HandOver, s')
    ensures LogInv(s')
  {
    assert s.pending[0].record in Records(s.pending) by {
      assert Records(s.pending)[0] == s.pending[0].record;
    }
    HoldsMore(s.pipe, s.records, s.base, s.pending[0].record, s'.pipe);
  }

  lemma TrailRestoresMore(g: Engine, records: seq<Command>, stamps: seq<Stamp>, base: nat, trail: seq<Space>,
                          record: Command, stamp: Stamp, m: Space)
    requires base + |trail| == |records| + 1 && |stamps| == |records|
    requires TrailRestores(g, records, stamps, base, trail)
    requires Restores(g, records + [record], stamps + [stamp], m)
    ensures TrailRestores(g, records + [record], stamps + [stamp], base, trail + [m])
  {
    var more, marks := records + [record], stamps + [stamp];
    forall i | 0 <= i < |trail + [m]| ensures Restores(g, more[..base + i], marks[..base + i], (trail + [m])[i]) {
      if i < |trail| {
        assert Restores(g, records[..base + i], stamps[..base + i], trail[i]);
        assert more[..base + i] == records[..base + i] && marks[..base + i] == stamps[..base + i];
      } else {
        assert more[..base + i] == more && marks[..base + i] == marks;
      }
    }
  }

  lemma WholeTrail(g: Engine, records: seq<Command>, stamps: seq<Stamp>, base: nat, trail: seq<Space>)
    requires base + |trail| == |records| + 1 && |stamps| == |records| && trail != []
    requires TrailRestores(g, records, stamps, base, trail)
    ensures Restores(g, records, stamps, trail[|trail| - 1])
  {
    var i := |trail| - 1;
    assert Restores(g, records[..base + i], stamps[..base + i], trail[i]);
    assert records[..base + i] == records && stamps[..base + i] == stamps;
  }

  lemma LeadsFirst(g: Engine, last: Space, pending: seq<Point>, space: Space)
    requires Leads(g, last, pending, space) && pending != []
    ensures Explained(g, last, pending[0]) && Plain(pending[0].record)
  {
    ChainFirst(g, last, pending);
    assert Records(pending)[0] == pending[0].record;
  }

  lemma LastRestores(g: Engine, s: Server)
    requires LogInv(s) && TrailInv(g, s) && PendingInv(g, s) && s.pending != []
    ensures var last := s.trail[|s.trail| - 1];
      Restores(g, s.records, s.stamps, last) && Explained(g, last, s.pending[0]) && Plain(s.pending[0].record)
  {
    WholeTrail(g, s.records, s.stamps, s.base, s.trail);
    LeadsFirst(g, s.trail[|s.trail| - 1], s.pending, s.space);
  }

  lemma HandOverKeepsTrail(g: Engine, s: Server, s': Server)
    requires Durable(g)
    requires LogInv(s) && TrailInv(g, s) && PendingInv(g, s) && Next(g, s, HandOver, s') && LogInv(s')
    ensures TrailInv(g, s')
  {
    var p, live := s.pending[0], LastSpace(s.trail);
    LastRestores(g, s);
    RestoreOneMore(g, s.records, s.stamps, live, p);
    TrailRestoresMore(g, s.records, s.stamps, s.base, s.trail, p.record, StampOf(g, live, p.record, p.time), p.space);
  }

  lemma HandOverKeepsInv(g: Engine, s: Server, s': Server)
    requires Durable(g)
    requires Inv(g, s) && Next(g, s, HandOver, s')
    ensures Inv(g, s')
  {
    HandOverKeepsLog(g, s, s');
    HandOverKeepsTrail(g, s, s');
    HandOverKeepsPending(g, s, s');
  }

  lemma LeadsOn(g: Engine, last: Space, pending: seq<Point>, space: Space)
    requires Leads(g, last, pending, space) && pending != []
    ensures Leads(g, pending[0].space, pending[1..], space)
  {
    ChainFirst(g, last, pending);
    assert Records(pending[1..]) == Records(pending)[1..];
  }

  lemma HandOverKeepsPending(g: Engine, s: Server, s': Server)
    requires LogInv(s) && PendingInv(g, s) && Next(g, s, HandOver, s') && LogInv(s')
    ensures PendingInv(g, s')
  {
    LeadsOn(g, s.trail[|s.trail| - 1], s.pending, s.space);
  }

  lemma QuietRereadSnoc(g: Engine, records: seq<Command>, c: Command, clock: nat -> int)
    requires SubsOf(records) == {} && QuietReread(g, records + [c], clock)
    ensures QuietReread(g, records, clock) && Quiet(Reread(g, records, clock), clock(|records|))
    ensures Reread(g, records + [c], clock) == g.exec(Reread(g, records, clock), c, clock(|records|)).space
  {
    HeardSnoc(records, c);
    assert (Heard(records) + [c])[..|records|] == Heard(records);
    ReplaySnoc(g, map[], Heard(records), c, clock);
  }

  lemma RestoreOneMore(g: Engine, records: seq<Command>, stamps: seq<Stamp>, live: Space, p: Point)
    requires Durable(g) && |stamps| == |records|
    requires SubsOf(records) == {} && Plain(p.record)
    requires Explained(g, live, p) && Restores(g, records, stamps, live)
    ensures Restores(g, records + [p.record], stamps + [StampOf(g, live, p.record, p.time)], p.space)
  {
    var more, marks := records + [p.record], stamps + [StampOf(g, live, p.record, p.time)];
    forall clock: nat -> int ensures RestoresAt(g, more, marks, p.space, clock) {
      if QuietReread(g, more, clock) {
        QuietRereadSnoc(g, records, p.record, clock);
        assert RestoresAt(g, records, stamps, live, clock);
        OneMoreAt(g, records, stamps, live, p, clock);
      }
    }
  }

  lemma OneMoreAt(g: Engine, records: seq<Command>, stamps: seq<Stamp>, live: Space, p: Point, clock: nat -> int)
    requires KeepsSim(g) && |stamps| == |records| && Explained(g, live, p)
    requires Sim(live, Reread(g, records, clock), Shifts(stamps, clock))
    requires Quiet(Reread(g, records, clock), clock(|records|))
    ensures Sim(p.space, g.exec(Reread(g, records, clock), p.record, clock(|records|)).space,
                Shifts(stamps + [StampOf(g, live, p.record, p.time)], clock))
  {
    var replayed, rt := Reread(g, records, clock), clock(|records|);
    var stamp := StampOf(g, live, p.record, p.time);
    var moved, more := Moved(stamp.sets, rt - p.time, Shifts(stamps, clock)), Shifts(stamps + [stamp], clock);
    RecordKeepsSim(g, live, p, replayed, rt, Shifts(stamps, clock));
    forall k ensures moved(k) <= more(k) {
      ShiftsSnoc(stamps, stamp, clock, k);
    }
    SimWiden(p.space, g.exec(replayed, p.record, rt).space, moved, more);
  }

  lemma RecordsLast(points: seq<Point>)
    requires points != []
    ensures var n := |points| - 1; Records(points) == Records(points[..n]) + [points[n].record]
    ensures var n := |points| - 1;
      AllPlain(Records(points)) ==> AllPlain(Records(points[..n])) && Plain(points[n].record)
  {
    var n := |points| - 1;
    assert Records(points) == Records(points[..n]) + [points[n].record];
  }

  lemma RestoresLast(g: Engine, records: seq<Command>, stamps: seq<Stamp>, live: Space, points: seq<Point>)
    requires Durable(g) && points != []
    requires Explained(g, Before(live, points, |points| - 1), points[|points| - 1])
    requires Plain(points[|points| - 1].record) && |stamps| == |records|
    requires var n := |points| - 1;
      && SubsOf(records + Records(points[..n])) == {}
      && Restores(g, records + Records(points[..n]), stamps + PointStamps(g, live, points[..n]),
                  Before(live, points, n))
    ensures Restores(g, records + Records(points), stamps + PointStamps(g, live, points), points[|points| - 1].space)
  {
    var n := |points| - 1;
    var before, marks := records + Records(points[..n]), stamps + PointStamps(g, live, points[..n]);
    RestoreOneMore(g, before, marks, Before(live, points, n), points[n]);
    RecordsLast(points);
    PointStampsSnoc(g, live, points);
    LastApart(records, Records(points));
    LastApart(stamps, PointStamps(g, live, points));
  }

  /** Restoring goes on along a chain of records. */
  lemma {:induction false} RestoresOn(
      g: Engine, records: seq<Command>, stamps: seq<Stamp>, live: Space, points: seq<Point>)
    requires Durable(g) && |stamps| == |records|
    requires SubsOf(records) == {} && AllPlain(Records(points))
    requires Chain(g, live, points) && Restores(g, records, stamps, live)
    ensures Restores(g, records + Records(points), stamps + PointStamps(g, live, points), After(live, points))
  {
    if points == [] {
      assert records + Records(points) == records && stamps + PointStamps(g, live, points) == stamps;
    } else {
      var start := points[..|points| - 1];
      ChainLast(g, live, points);
      RecordsLast(points);
      RestoresOn(g, records, stamps, live, start);
      PlainHeard(records, Records(start));
      RestoresLast(g, records, stamps, live, points);
    }
  }

  /** What is executed next leads on. */
  lemma LeadsFurther(g: Engine, m: Space, points: seq<Point>, space: Space, args: Command, now: int)
    requires Durable(g) && Leads(g, m, points, space)
    requires Fits(args) && Quiet(space, now)
    ensures Leads(g, m, points + g.exec(space, args, now).points, g.exec(space, args, now).space)
  {
    ExecuteLeads(g, space, args, now);
    LeadsConcat(g, m, points, space, g.exec(space, args, now).points);
  }

  lemma LeadsConcat(g: Engine, m: Space, points: seq<Point>, space: Space, more: seq<Point>)
    requires Leads(g, m, points, space) && Leads(g, space, more, After(space, more))
    ensures Leads(g, m, points + more, After(space, more))
  {
    ChainConcat(g, m, points, more);
    assert Records(points + more) == Records(points) + Records(more);
  }

  /** At the instant of a compaction its commands give the keyspace back, up to the rounding. */
  lemma CompactedMirrors(g: Engine, m: Space, snaps: seq<Snap>, now: int)
    requires Durable(g) && WellFormed(m) && IsSnapshot(m, snaps)
    ensures var commands := RewriteCommands(snaps, now);
      SubsOf(commands) == {} && Sim(m, Reread(g, commands, At(now)), Rounding(m, now))
  {
    var commands := RewriteCommands(snaps, now);
    assert CompactsPlain(m, snaps, now);
    AllPlainHeard(commands);
    CompactionPreserves(g, m, snaps, now, now);
    forall k ensures CompactedShifts(m, now, now)(k) <= Rounding(m, now)(k) {}
    SimWiden(m, Reread(g, commands, At(now)), CompactedShifts(m, now, now), Rounding(m, now));
  }

  lemma CompactKeepsInv(g: Engine, s: Server, snaps: seq<Snap>, now: int, s': Server)
    requires Durable(g)
    requires Inv(g, s) && Next(g, s, Compact(snaps, now), s')
    ensures Inv(g, s')
  {
    var commands := RewriteCommands(snaps, now);
    CompactedMirrors(g, s.space, snaps, now);
    StandingRestores(g, s.space, commands, now, Rounding(s.space, now));
    StandingInv(g, s.space, commands, now, Rounding(s.space, now));
  }

  lemma HoldsOn(pipe: Pipe, records: seq<Command>, base: nat, pipe': Pipe)
    requires base <= |records| && Holds(pipe, records, base) && WriterStep(pipe, pipe')
    ensures Holds(pipe', records, base)
  {
    WriterStepCarries(pipe, pipe', records);
  }

  lemma WriterKeepsLog(s: Server, s': Server)
    requires LogInv(s) && WriterStep(s.pipe, s'.pipe) && s' == s.(pipe := s'.pipe)
    ensures LogInv(s')
  {
    HoldsOn(s.pipe, s.records, s.base, s'.pipe);
  }

  lemma WriterKeepsInv(g: Engine, s: Server, s': Server)
    requires Inv(g, s) && WriterStep(s.pipe, s'.pipe) && s' == s.(pipe := s'.pipe)
    ensures Inv(g, s')
  {
    WriterKeepsLog(s, s');
    SameTrail(g, s, s');
    SamePending(g, s, s');
  }

  lemma SameTrail(g: Engine, s: Server, s': Server)
    requires LogInv(s) && TrailInv(g, s) && LogInv(s') && s' == s.(pipe := s'.pipe)
    ensures TrailInv(g, s')
  {}

  lemma SamePending(g: Engine, s: Server, s': Server)
    requires LogInv(s) && PendingInv(g, s) && LogInv(s') && s' == s.(pipe := s'.pipe)
    ensures PendingInv(g, s')
  {
    var last := s.trail[|s.trail| - 1];
    assert s'.trail[|s'.trail| - 1] == last && s'.pending == s.pending && s'.space == s.space;
    assert Leads(g, last, s.pending, s.space);
  }

  lemma NextKeepsInv(g: Engine, s: Server, e: Move, s': Server)
    requires Durable(g)
    requires Inv(g, s) && Next(g, s, e, s')
    ensures Inv(g, s')
  {
    match e
    case Execute(args, now) => ExecuteKeepsInv(g, s, args, now, s');
    case HandOver => HandOverKeepsInv(g, s, s');
    case WriterRuns => WriterKeepsInv(g, s, s');
    case Compact(snaps, now) => CompactKeepsInv(g, s, snaps, now, s');
  }

  /** What one step keeps, a run keeps. */
  lemma {:induction false} RunInduction(
      step: (Server, Move, Server) -> bool, inv: Server -> bool, ss: seq<Server>, es: seq<Move>, i: nat)
    requires |ss| == |es| + 1 && i <= |es|
    requires inv(ss[0])
    requires forall j {:trigger es[j]} :: 0 <= j < |es| ==> step(ss[j], es[j], ss[j + 1])
    requires forall s, e, s' {:trigger step(s, e, s')} :: inv(s) && step(s, e, s') ==> inv(s')
    ensures inv(ss[i])
  {
    if i > 0 {
      RunInduction(step, inv, ss, es, i - 1);
      assert step(ss[i - 1], es[i - 1], ss[i - 1 + 1]);
    }
  }

  lemma RunKeepsInv(g: Engine, start: seq<Command>, r: int, ss: seq<Server>, es: seq<Move>, i: nat)
    requires Durable(g)
    requires Run(g, start, r, ss, es) && i <= |es|
    requires SubsOf(start) == {}
    ensures Inv(g, ss[i])
  {
    StartedInv(g, start, r);
    var step := (s, e, s') => Next(g, s, e, s');
    var inv := s => Inv(g, s);
    forall s, e, s' | inv(s) && step(s, e, s') ensures inv(s') {
      NextKeepsInv(g, s, e, s');
    }
    RunInduction(step, inv, ss, es, i);
  }

  // ---- How far compactions round ----

  /** No step of the run reads a clock behind `r` or behind an earlier step. */
  ghost predicate Ordered(r: int, es: seq<Move>) {
    es == [] ||
    var n := |es| - 1;
    Ordered(r, es[..n]) && LastInstant(r, es[..n]) <= InstantOf(es[n], LastInstant(r, es[..n]))
  }

  /** The instant of a step; `now` for one that reads no clock. */
  function InstantOf(e: Move, now: int): int {
    if e.Execute? || e.Compact? then e.now else now
  }

  /** The last instant a run has read, started at `r`. */
  function LastInstant(r: int, es: seq<Move>): int {
    if es == [] then r else InstantOf(es[|es| - 1], LastInstant(r, es[..|es| - 1]))
  }

  /** Less than one millisecond, and never later. */
  ghost predicate Small(slip: Drift) {
    forall k, d :: d in slip(k) ==> -MILLISECOND < d <= 0
  }

  ghost predicate AllSmall(stamps: seq<Stamp>) {
    forall i :: 0 <= i < |stamps| ==> Small(stamps[i].slip)
  }

  ghost predicate AllExact(stamps: seq<Stamp>) {
    forall i :: 0 <= i < |stamps| ==> stamps[i].slip == NO_SHIFT
  }

  lemma NearLater(m: Space, now: int, later: int)
    requires Near(m, now) && now <= later
    ensures Near(m, later)
  {}

  lemma {:induction false} ReplayNear(g: Engine, records: seq<Command>, r: int)
    requires Durable(g)
    ensures Near(Replay(g, map[], records, At(r)), r)
  {
    if records != [] {
      var n := |records| - 1;
      ReplayNear(g, records[..n], r);
      assert KeepsNear(g, Replay(g, map[], records[..n], At(r)), records[n], r);
    }
  }

  lemma RoundingSmall(m: Space, now: int)
    requires Near(m, now)
    ensures Small(Rounding(m, now))
  {
    forall k, d | d in Rounding(m, now)(k) ensures -MILLISECOND < d <= 0 {
      RoundingUnderOneMs(m, now, k, d);
    }
  }

  lemma NextKeepsSmall(g: Engine, s: Server, e: Move, s': Server, before: int)
    requires Durable(g) && Next(g, s, e, s')
    requires Near(s.space, before) && AllSmall(s.stamps) && before <= InstantOf(e, before)
    ensures Near(s'.space, InstantOf(e, before)) && AllSmall(s'.stamps)
  {
    var now := InstantOf(e, before);
    NearLater(s.space, before, now);
    if e.Execute? {
      assert KeepsNear(g, s.space, e.args, now);
    } else if e.Compact? {
      RoundingSmall(s.space, now);
    }
  }

  /** What one step keeps up to its instant, an ordered run keeps up to its last. */
  lemma {:induction false} OrderedInduction(
      step: (Server, Move, Server) -> bool, inv: (int, Server) -> bool, r: int, ss: seq<Server>, es: seq<Move>)
    requires |ss| == |es| + 1 && Ordered(r, es)
    requires inv(r, ss[0])
    requires forall j {:trigger es[j]} :: 0 <= j < |es| ==> step(ss[j], es[j], ss[j + 1])
    requires forall t, s, e, s' {:trigger inv(t, s), step(s, e, s')} ::
      inv(t, s) && step(s, e, s') && t <= InstantOf(e, t) ==> inv(InstantOf(e, t), s')
    ensures inv(LastInstant(r, es), ss[|es|])
  {
    if es != [] {
      var n := |es| - 1;
      OrderedInduction(step, inv, r, ss[..n + 1], es[..n]);
      assert step(ss[n], es[n], ss[n + 1]);
    }
  }

  /** In every run whose clock never goes back, the deadlines a record carries are less than one
      millisecond early, however often the log was compacted. */
  lemma RunKeepsSmall(g: Engine, start: seq<Command>, r: int, ss: seq<Server>, es: seq<Move>)
    requires Durable(g)
    requires Run(g, start, r, ss, es) && Ordered(r, es)
    ensures Near(ss[|es|].space, LastInstant(r, es)) && AllSmall(ss[|es|].stamps)
  {
    ReplayNear(g, Heard(start), r);
    var step := (s, e, s') => Next(g, s, e, s');
    var inv := (t, s: Server) => Near(s.space, t) && AllSmall(s.stamps);
    forall t, s, e, s' | inv(t, s) && step(s, e, s') && t <= InstantOf(e, t) ensures inv(InstantOf(e, t), s') {
      NextKeepsSmall(g, s, e, s', t);
    }
    OrderedInduction(step, inv, r, ss, es);
  }

  /** Without compactions every stamp is exact. */
  lemma RunStampsExact(g: Engine, start: seq<Command>, r: int, ss: seq<Server>, es: seq<Move>, i: nat)
    requires Run(g, start, r, ss, es) && i <= |es|
    requires forall e :: e in es ==> !e.Compact?
    ensures AllExact(ss[i].stamps)
  {
    RunInduction((s, e: Move, s') => Next(g, s, e, s') && !e.Compact?, (s: Server) => AllExact(s.stamps), ss, es, i);
  }

  // ---- Crashing ----

  /** How many records a replay of the crashed server's file delivers. */
  function Recovered(s: Server): nat {
    WholeFrames(s.records, |s.pipe.file|)
  }

  lemma BaseSurvives(s: Server)
    requires LogInv(s)
    ensures s.base <= Recovered(s) <= |s.records|
  {
    var k := Recovered(s);
    WholeFramesMeaning(s.records, |s.pipe.file|);
    PrefixLength(s.records, k + 1, s.base);
  }

  lemma PrefixLength(records: seq<Command>, k: nat, n: nat)
    requires n <= |records|
    ensures k <= n ==> |EncodeAll(records[..k])| <= |EncodeAll(records[..n])|
  {
    if k <= n {
      EncodeSplit(records[..n], k);
      assert records[..n][..k] == records[..k];
    }
  }

  /** Nothing is on its way to the file. */
  predicate Drained(s: Server) {
    s.pending == [] && Waiting(s.pipe) == [] && s.pipe.buf == ""
  }

  /** What a file left by a crash is worth: it delivers the first k records the log held, and
      their replay at `clock`, if no deadline passes in it, rebuilds the live keyspace as it
      stood when the last of them was appended; the current one if nothing was on its way. */
  ghost predicate Recovers(g: Engine, s: Server, clock: nat -> int) {
    Delivers(s) && Rebuilds(g, s, clock)
  }

  ghost predicate Delivers(s: Server) {
    var k := Recovered(s);
    && s.base <= k <= |s.records| && k - s.base < |s.trail|
    && Delivered(s.pipe.file) == s.records[..k]
    && (Drained(s) ==> k == |s.records| && s.trail[k - s.base] == s.space)
  }

  ghost predicate Rebuilds(g: Engine, s: Server, clock: nat -> int)
    requires Delivers(s)
  {
    var k := Recovered(s);
    && k <= |s.stamps|
    && RestoresAt(g, s.records[..k], s.stamps[..k], s.trail[k - s.base], clock)
  }

  lemma FileRecovered(p: Pipe, records: seq<Command>)
    requires Carries(p, records) && AllFit(records)
    ensures Delivered(p.file) == records[..WholeFrames(records, |p.file|)]
  {
    FileDelivers(p, records);
  }

  lemma DrainedRecovered(p: Pipe, records: seq<Command>)
    requires Carries(p, records) && AllFit(records)
    requires p.buf == "" && Waiting(p) == []
    ensures WholeFrames(records, |p.file|) == |records|
  {
    FileDelivers(p, records);
    assert |records[..WholeFrames(records, |p.file|)]| == |records|;
  }

  lemma CrashedDelivers(s: Server)
    requires LogInv(s)
    requires s.pending == [] ==> s.trail[|s.trail| - 1] == s.space
    ensures Delivers(s)
  {
    BaseSurvives(s);
    FileRecovered(s.pipe, s.records);
    if Drained(s) {
      DrainedRecovered(s.pipe, s.records);
    }
  }

  lemma CrashedRebuilds(g: Engine, s: Server, clock: nat -> int)
    requires LogInv(s) && TrailInv(g, s) && Delivers(s)
    ensures Rebuilds(g, s, clock)
  {
    var k := Recovered(s);
    TrailAt(g, s, k);
    assert RestoresAt(g, s.records[..k], s.stamps[..k], s.trail[k - s.base], clock);
  }

  lemma CrashedRecovers(g: Engine, s: Server, clock: nat -> int)
    requires Inv(g, s)
    ensures Recovers(g, s, clock)
  {
    NothingLeads(g, s);
    CrashedDelivers(s);
    CrashedRebuilds(g, s, clock);
  }

  lemma EngineRecovers(g: Engine, start: seq<Command>, r: int, ss: seq<Server>, es: seq<Move>, clock: nat -> int)
    requires Durable(g)
    requires Run(g, start, r, ss, es)
    requires SubsOf(start) == {}
    ensures Recovers(g, ss[|es|], clock)
  {
    RunKeepsInv(g, start, r, ss, es, |es|);
    CrashedRecovers(g, ss[|es|], clock);
  }

  // ---- Runs that set no deadline ----

  ghost predicate DeadlineFree(g: Engine, s: Server) {
    && NoExpiry(s.space)
    && (forall m :: m in s.trail ==> NoExpiry(m))
    && (forall p :: p in s.pending ==> NoExpiry(p.space) && g.free(p.record))
    && (forall c :: c in s.records ==> g.free(c))
  }

  lemma NextKeepsDeadlineFree(g: Engine, s: Server, e: Move, s': Server)
    requires Durable(g)
    requires Inv(g, s) && DeadlineFree(g, s) && Next(g, s, e, s')
    requires FreeMove(g, e)
    ensures DeadlineFree(g, s')
  {
    match e
    case Execute(args, now) =>
      assert LeavesFree(g, g.exec(s.space, args, now));
    case HandOver => assert s.pending[0] in s.pending;
    case WriterRuns =>
    case Compact(snaps, now) => assert CompactsFree(g, s.space, snaps, now);
  }

  lemma FreeRereadQuiet(g: Engine, records: seq<Command>, clock: nat -> int)
    requires Durable(g)
    requires forall c :: c in records ==> g.free(c)
    ensures QuietReread(g, records, clock) && NoExpiry(Reread(g, records, clock))
  {
    forall c | c in Heard(records) ensures g.free(c) {
      HeardFrom(records, c);
    }
    FreeReplayQuiet(g, Heard(records), clock);
  }

  lemma StartedDeadlineFree(g: Engine, start: seq<Command>, r: int)
    requires Durable(g)
    requires forall c :: c in start ==> g.free(c)
    ensures DeadlineFree(g, Started(g, start, r))
  {
    FreeRereadQuiet(g, start, At(r));
  }

  ghost predicate FreeMove(g: Engine, e: Move) {
    e.Execute? ==> g.free(e.args)
  }

  lemma RunKeepsDeadlineFree(g: Engine, start: seq<Command>, r: int, ss: seq<Server>, es: seq<Move>, i: nat)
    requires Durable(g)
    requires Run(g, start, r, ss, es) && i <= |es|
    requires SubsOf(start) == {}
    requires forall c :: c in start ==> g.free(c)
    requires forall e :: e in es ==> FreeMove(g, e)
    ensures DeadlineFree(g, ss[i])
  {
    StartedInv(g, start, r);
    StartedDeadlineFree(g, start, r);
    var step := (s, e, s') => Next(g, s, e, s') && FreeMove(g, e);
    var inv := s => Inv(g, s) && DeadlineFree(g, s);
    forall s, e, s' | inv(s) && step(s, e, s') ensures inv(s') {
      NextKeepsInv(g, s, e, s');
      NextKeepsDeadlineFree(g, s, e, s');
    }
    RunInduction(step, inv, ss, es, i);
  }

  /** The same without deadlines: exactly, and at any clock. */
  ghost predicate RecoversExactly(g: Engine, s: Server, clock: nat -> int) {
    && Delivers(s)
    && var k := Recovered(s);
       Reread(g, s.records[..k], clock) == s.trail[k - s.base]
  }

  lemma CrashedIsFree(g: Engine, s: Server)
    requires Delivers(s) && DeadlineFree(g, s)
    ensures var k := Recovered(s);
      NoExpiry(s.trail[k - s.base]) && forall c :: c in s.records[..k] ==> g.free(c)
  {
    var k := Recovered(s);
    assert s.trail[k - s.base] in s.trail;
  }

  lemma RestoresExactly(g: Engine, records: seq<Command>, stamps: seq<Stamp>, m: Space, clock: nat -> int)
    requires RestoresAt(g, records, stamps, m, clock)
    requires NoExpiry(m) && QuietReread(g, records, clock)
    ensures Reread(g, records, clock) == m
  {
    SimExact(m, Reread(g, records, clock), Shifts(stamps, clock));
  }

  lemma CrashedRebuildsExactly(g: Engine, s: Server, clock: nat -> int)
    requires Delivers(s) && Rebuilds(g, s, clock)
    requires NoExpiry(s.trail[Recovered(s) - s.base])
    requires QuietReread(g, s.records[..Recovered(s)], clock)
    ensures RecoversExactly(g, s, clock)
  {
    var k := Recovered(s);
    RestoresExactly(g, s.records[..k], s.stamps[..k], s.trail[k - s.base], clock);
  }

  lemma EngineRecoversExactly(g: Engine, start: seq<Command>, r: int, ss: seq<Server>, es: seq<Move>, clock: nat -> int)
    requires Durable(g)
    requires Run(g, start, r, ss, es)
    requires SubsOf(start) == {}
    requires forall c :: c in start ==> g.free(c)
    requires forall e :: e in es ==> FreeMove(g, e)
    ensures RecoversExactly(g, ss[|es|], clock)
  {
    EngineRecovers(g, start, r, ss, es, clock);
    RunKeepsDeadlineFree(g, start, r, ss, es, |es|);
    var s := ss[|es|];
    CrashedIsFree(g, s);
    FreeRereadQuiet(g, s.records[..Recovered(s)], clock);
    CrashedRebuildsExactly(g, s, clock);
  }

  // ---- Records that are not heard ----

  /** The empty command touches nothing. */
  ghost predicate IgnoresEmpty(g: Engine) {
    forall m, now :: g.exec(m, [], now).space == Live(m, now)
  }

  lemma {:induction false} SilenceKeeps(g: Engine, records: seq<Command>, n: nat, clock: nat -> int)
    requires IgnoresEmpty(g) && NoExpiry(Replay(g, map[], records, clock))
    ensures Replay(g, map[], records + Silence(n), clock) == Replay(g, map[], records, clock)
  {
    if n == 0 {
      assert records + Silence(n) == records;
    } else {
      var m := Replay(g, map[], records, clock);
      SilenceKeeps(g, records, n - 1, clock);
      SilenceSnoc(records, n - 1);
      ReplaySnoc(g, map[], records + Silence(n - 1), [], clock);
      NoExpiryQuiet(m, clock(|records + Silence(n - 1)|));
    }
  }
}
