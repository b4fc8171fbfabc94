/** Lazy deletion and sweeping among other operations. An operation reads the clock and only
    then waits for the lock; a Get reads the clock, looks, and later takes the write lock to
    delete; a sweep locks one shard after the other with the instant it started from. In
    between, anything may be written and the clock moves on. */
module Maintenance {
  import opened Basics
  import opened Decimal
  import opened Keyspace

  datatype Doomed = Doomed(key: string, seenAt: int)

  datatype Sweeper = Sweeper(startedAt: int, shard: nat)

  /** `space` is what is physically stored; `doomed` are deletions a Get has decided on and
      not yet made; `sweepers` are sweeps under way, each at its next shard. */
  datatype State = State(space: Space, clock: int, doomed: set<Doomed>, sweepers: seq<Sweeper>)

  datatype Label =
    | Tick(now: int)
    | Operate(key: string, op: KeyOp, at: int)
    | Overwrite(key: string, entry: Option<Entry>)
    | SeeExpired(key: string, now: int)
    | LazyDelete(victim: Doomed)
    | StartSweep(now: int)
    | SweepShard(who: nat)

  /** The clock was read before the lock was taken: an instant no later than the present. */
  predicate Stale(s: State, now: int) {
    now <= s.clock
  }

  /** What stays when the keys of one shard are swept with an old instant. */
  function Swept(m: Space, home: string -> nat, shard: nat, now: int): (r: Space)
    ensures forall k :: Look(r, k) == if home(k) == shard then LiveEntry(Look(m, k), now) else Look(m, k)
  {
    map k | k in m && !(home(k) == shard && m[k].Expired(now)) :: m[k]
  }

  /** The live entry an operation that read the clock at `at` finds once it holds the lock. */
  function Found(m: Space, key: string, at: int): Option<Entry> {
    LiveEntry(Look(m, key), at)
  }

  /** What it leaves behind. It writes nothing where it changes nothing, except that DEL takes
      away a dead entry too. */
  function Operated(m: Space, key: string, op: KeyOp, at: int): Space {
    var found := Found(m, key, at);
    var after := Update(op, found, at).entry;
    if after == found && !op.Del? then m else Put(m, key, after)
  }

  function Answer(m: Space, key: string, op: KeyOp, at: int): Reply {
    Update(op, Found(m, key, at), at).reply
  }

  ghost predicate Next(home: string -> nat, s: State, l: Label, s': State) {
    match l
    case Tick(now) => s.clock <= now && s' == s.(clock := now)
    case Operate(key, op, at) => Stale(s, at) && s' == s.(space := Operated(s.space, key, op, at))
    case Overwrite(key, entry) => s' == s.(space := Put(s.space, key, entry))
    case SeeExpired(key, now) =>
      && Stale(s, now) && key in s.space && s.space[key].Expired(now)
      && s' == s.(doomed := s.doomed + {Doomed(key, now)})
    case LazyDelete(victim) =>
      && victim in s.doomed
      && s' == s.(
           doomed := s.doomed - {victim},
           space := Put(s.space, victim.key, LiveEntry(Look(s.space, victim.key), victim.seenAt)))
    case StartSweep(now) => Stale(s, now) && s' == s.(sweepers := s.sweepers + [Sweeper(now, 0)])
    case SweepShard(who) =>
      && who < |s.sweepers|
      && var sweeper := s.sweepers[who];
         s' == s.(
           space := Swept(s.space, home, sweeper.shard, sweeper.startedAt),
           sweepers := s.sweepers[who := sweeper.(shard := sweeper.shard + 1)])
  }

  predicate IsMaintenance(l: Label) {
    l.SeeExpired? || l.LazyDelete? || l.StartSweep? || l.SweepShard?
  }

  ghost predicate Run(home: string -> nat, ss: seq<State>, ls: seq<Label>) {
    && |ss| == |ls| + 1
    && ss[0].doomed == {} && ss[0].sweepers == []
    && forall i :: 0 <= i < |ls| ==> Next(home, ss[i], ls[i], ss[i + 1])
  }

  ghost predicate Inv(s: State) {
    && (forall d :: d in s.doomed ==> d.seenAt <= s.clock)
    && (forall i :: 0 <= i < |s.sweepers| ==> s.sweepers[i].startedAt <= s.clock)
  }

  lemma {:induction false} RunKeepsInv(home: string -> nat, ss: seq<State>, ls: seq<Label>, i: nat)
    requires Run(home, ss, ls) && i <= |ls|
    ensures Inv(ss[i])
  {
    if i > 0 {
      RunKeepsInv(home, ss, ls, i - 1);
      assert Next(home, ss[i - 1], ls[i - 1], ss[i - 1 + 1]);
    }
  }

  /** A maintenance step takes away only entries that are dead by now, and changes none. */
  lemma StepSafe(home: string -> nat, s: State, l: Label, s': State)
    requires Inv(s) && Next(home, s, l, s') && IsMaintenance(l)
    ensures forall k ::
      (Look(s'.space, k) == Look(s.space, k)
       || (Look(s'.space, k) == None && k in s.space && s.space[k].Expired(s.clock)))
    ensures Live(s'.space, s.clock) == Live(s.space, s.clock)
  {
    forall k ensures Look(Live(s'.space, s.clock), k) == Look(Live(s.space, s.clock), k) {
      LookLive(s'.space, s.clock, k);
      LookLive(s.space, s.clock, k);
    }
    SameLooks(Live(s'.space, s.clock), Live(s.space, s.clock));
  }

  /** In every interleaving of operations, arbitrary writes, lazy deletions and sweeps with
      stale instants, no maintenance step ever removes or alters an entry that is live. */
  lemma MaintenanceIsSafe(home: string -> nat, ss: seq<State>, ls: seq<Label>, i: nat)
    requires Run(home, ss, ls) && i < |ls| && IsMaintenance(ls[i])
    ensures ss[i + 1].clock == ss[i].clock
    ensures forall k :: k in ss[i].space && !ss[i].space[k].Expired(ss[i].clock) ==>
      k in ss[i + 1].space && ss[i + 1].space[k] == ss[i].space[k]
    ensures Live(ss[i + 1].space, ss[i].clock) == Live(ss[i].space, ss[i].clock)
  {
    RunKeepsInv(home, ss, ls, i);
    StepSafe(home, ss[i], ls[i], ss[i + 1]);
    forall k | k in ss[i].space && !ss[i].space[k].Expired(ss[i].clock)
      ensures k in ss[i + 1].space && ss[i + 1].space[k] == ss[i].space[k]
    {
      assert Look(ss[i + 1].space, k) == Look(ss[i].space, k);
    }
  }

  // ---- Maintenance is invisible to whoever is not too late ----

  /** The same run without its maintenance: what is stored, the clock, and what the operations
      answered. */
  datatype Plain = Plain(space: Space, clock: int, replies: seq<Reply>)

  function PlainStep(before: Plain, l: Label): Plain {
    match l
    case Tick(now) => before.(clock := now)
    case Operate(key, op, at) =>
      before.(
        space := Operated(before.space, key, op, at),
        replies := before.replies + [Answer(before.space, key, op, at)])
    case Overwrite(key, entry) => before.(space := Put(before.space, key, entry))
    case _ => before
  }

  function PlainRun(start: State, ls: seq<Label>): Plain {
    if ls == [] then Plain(start.space, start.clock, [])
    else PlainStep(PlainRun(start, ls[..|ls| - 1]), ls[|ls| - 1])
  }

  /** What the operations of the real run answered. */
  ghost function Replies(ss: seq<State>, ls: seq<Label>): seq<Reply>
    requires |ss| == |ls| + 1
  {
    if ls == [] then [] else
    var n := |ls| - 1;
    Replies(ss[..n + 1], ls[..n]) +
      match ls[n]
      case Operate(key, op, at) => [Answer(ss[n].space, key, op, at)]
      case _ => []
  }

  /** The label replaces whatever is stored at `k`. */
  predicate Replaces(l: Label, k: string) {
    (l.Overwrite? && l.key == k) || (l.Operate? && l.key == k && l.op.Del?)
  }

  /** The deadline of the entry that maintenance has taken away at `k`, if nothing has been
      written there since. */
  ghost function Taken(ss: seq<State>, ls: seq<Label>, k: string): Option<int>
    requires |ss| == |ls| + 1
  {
    if ls == [] then None else
    var n := |ls| - 1;
    TakenNext(Taken(ss[..n + 1], ls[..n], k), ss[n].space, ls[n], ss[n + 1].space, k)
  }

  ghost function TakenNext(before: Option<int>, m: Space, l: Label, m': Space, k: string): Option<int> {
    if Replaces(l, k) then None
    else if Look(m, k) == Look(m', k) then before
    else if IsMaintenance(l) && k in m then m[k].expiresAt
    else None
  }

  /** The operation read the clock after the deadline of what maintenance took away. */
  ghost predicate InTime(taken: Option<int>, at: int) {
    taken.Some? ==> at > taken.value
  }

  ghost predicate TimelyAt(ss: seq<State>, ls: seq<Label>, i: nat)
    requires |ss| == |ls| + 1 && i < |ls|
  {
    ls[i].Operate? ==> InTime(Taken(ss[..i + 1], ls[..i], ls[i].key), ls[i].at)
  }

  /** No operation comes with so old a reading that what has been taken away was still alive. */
  ghost predicate Timely(ss: seq<State>, ls: seq<Label>)
    requires |ss| == |ls| + 1
  {
    forall i :: 0 <= i < |ls| ==> TimelyAt(ss, ls, i)
  }

  /** Where nothing has been taken away both runs store the same; elsewhere only the plain run
      still stores the entry with that deadline. */
  ghost predicate Differs(taken: Option<int>, m: Space, plain: Space, k: string) {
    if taken.None? then Look(m, k) == Look(plain, k)
    else k !in m && k in plain && plain[k].expiresAt == taken
  }

  lemma TimelyFinds(taken: Option<int>, m: Space, plain: Space, k: string, at: int)
    requires Differs(taken, m, plain, k)
    ensures Found(m, k, at) == Found(plain, k, at) <==> InTime(taken, at)
  {}

  lemma OperatedDiffers(taken: Option<int>, m: Space, plain: Space, key: string, op: KeyOp, at: int, k: string)
    requires Differs(taken, m, plain, k)
    requires k == key ==> InTime(taken, at)
    ensures Differs(TakenNext(taken, m, Operate(key, op, at), Operated(m, key, op, at), k),
                    Operated(m, key, op, at), Operated(plain, key, op, at), k)
  {
    if k == key {
      TimelyFinds(taken, m, plain, k, at);
      var found := Found(m, key, at);
      var after := Update(op, found, at).entry;
      if op.Del? {
        assert after == None;
      }
    }
  }

  lemma MaintainedDiffers(
      home: string -> nat, s: State, l: Label, s': State, taken: Option<int>, plain: Space, k: string)
    requires Next(home, s, l, s') && IsMaintenance(l)
    requires Differs(taken, s.space, plain, k)
    ensures Differs(TakenNext(taken, s.space, l, s'.space, k), s'.space, plain, k)
  {}

  lemma StepDiffers(home: string -> nat, s: State, l: Label, s': State, plain: Plain, taken: Option<int>, k: string)
    requires Next(home, s, l, s') && Differs(taken, s.space, plain.space, k)
    requires l.Operate? && l.key == k ==> InTime(taken, l.at)
    ensures Differs(TakenNext(taken, s.space, l, s'.space, k), s'.space, PlainStep(plain, l).space, k)
  {
    if l.Operate? {
      OperatedDiffers(taken, s.space, plain.space, l.key, l.op, l.at, k);
    } else if IsMaintenance(l) {
      MaintainedDiffers(home, s, l, s', taken, plain.space, k);
    }
  }

  ghost predicate AllDiffer(ss: seq<State>, ls: seq<Label>)
    requires |ss| == |ls| + 1
  {
    forall k :: Differs(Taken(ss, ls, k), ss[|ls|].space, PlainRun(ss[0], ls).space, k)
  }

  lemma RunPrefix(home: string -> nat, ss: seq<State>, ls: seq<Label>)
    requires Run(home, ss, ls) && ls != []
    ensures var n := |ls| - 1;
      Run(home, ss[..n + 1], ls[..n]) && Next(home, ss[n], ls[n], ss[n + 1])
  {
    var n := |ls| - 1;
    assert Next(home, ss[n], ls[n], ss[n + 1]);
  }

  lemma TimelyPrefix(ss: seq<State>, ls: seq<Label>)
    requires |ss| == |ls| + 1 && Timely(ss, ls) && ls != []
    ensures var n := |ls| - 1; Timely(ss[..n + 1], ls[..n]) && TimelyAt(ss, ls, n)
  {
    var n := |ls| - 1;
    var ss', ls' := ss[..n + 1], ls[..n];
    forall i | 0 <= i < n ensures TimelyAt(ss', ls', i) {
      assert TimelyAt(ss, ls, i);
      assert ss'[..i + 1] == ss[..i + 1] && ls'[..i] == ls[..i];
    }
  }

  lemma {:induction false} RunDiffers(home: string -> nat, ss: seq<State>, ls: seq<Label>)
    requires Run(home, ss, ls) && Timely(ss, ls)
    ensures AllDiffer(ss, ls)
    ensures PlainRun(ss[0], ls).clock == ss[|ls|].clock
    ensures Replies(ss, ls) == PlainRun(ss[0], ls).replies
  {
    if ls != [] {
      var n := |ls| - 1;
      RunPrefix(home, ss, ls);
      TimelyPrefix(ss, ls);
      RunDiffers(home, ss[..n + 1], ls[..n]);
      var plain := PlainRun(ss[0], ls[..n]);
      forall k ensures Differs(Taken(ss, ls, k), ss[n + 1].space, PlainStep(plain, ls[n]).space, k) {
        assert Differs(Taken(ss[..n + 1], ls[..n], k), ss[n].space, plain.space, k);
        StepDiffers(home, ss[n], ls[n], ss[n + 1], plain, Taken(ss[..n + 1], ls[..n], k), k);
      }
      if ls[n].Operate? {
        var k, at := ls[n].key, ls[n].at;
        assert Differs(Taken(ss[..n + 1], ls[..n], k), ss[n].space, plain.space, k);
        TimelyFinds(Taken(ss[..n + 1], ls[..n], k), ss[n].space, plain.space, k, at);
      }
    }
  }

  /** What has been taken away is dead by now. */
  lemma {:induction false} TakenIsDead(home: string -> nat, ss: seq<State>, ls: seq<Label>, k: string)
    requires Run(home, ss, ls)
    ensures InTime(Taken(ss, ls, k), ss[|ls|].clock)
  {
    if ls != [] {
      var n := |ls| - 1;
      RunPrefix(home, ss, ls);
      TakenIsDead(home, ss[..n + 1], ls[..n], k);
      RunKeepsInv(home, ss[..n + 1], ls[..n], n);
    }
  }

  /** Maintenance is invisible: in every interleaving in which no operation comes with so old a
      reading that what maintenance has taken away from its key was still alive, the operations
      answer what they answer in the run without maintenance, and the live entries, now and at
      any later instant, are the same. */
  lemma MaintenanceIsInvisible(home: string -> nat, ss: seq<State>, ls: seq<Label>, now: int)
    requires Run(home, ss, ls) && Timely(ss, ls)
    requires ss[|ls|].clock <= now
    ensures Replies(ss, ls) == PlainRun(ss[0], ls).replies
    ensures Live(ss[|ls|].space, now) == Live(PlainRun(ss[0], ls).space, now)
  {
    RunDiffers(home, ss, ls);
    var m, plain := ss[|ls|].space, PlainRun(ss[0], ls).space;
    forall k ensures Look(Live(m, now), k) == Look(Live(plain, now), k) {
      TakenIsDead(home, ss, ls, k);
      assert Differs(Taken(ss, ls, k), m, plain, k);
      LookLive(m, now, k);
      LookLive(plain, now, k);
    }
    SameLooks(Live(m, now), Live(plain, now));
  }

  /** The condition is exact: after such a run, a reading `at` of the clock is late enough for
      every operation on the key to answer as without maintenance if and only if it is later
      than the deadline of what has been taken away there. */
  lemma StaleReadingSeesMaintenance(home: string -> nat, ss: seq<State>, ls: seq<Label>, key: string, at: int)
    requires Run(home, ss, ls) && Timely(ss, ls)
    ensures (forall op :: Answer(ss[|ls|].space, key, op, at) == Answer(PlainRun(ss[0], ls).space, key, op, at))
      <==> InTime(Taken(ss, ls, key), at)
  {
    RunDiffers(home, ss, ls);
    var m, plain := ss[|ls|].space, PlainRun(ss[0], ls).space;
    assert Differs(Taken(ss, ls, key), m, plain, key);
    TimelyFinds(Taken(ss, ls, key), m, plain, key, at);
    if !InTime(Taken(ss, ls, key), at) {
      assert Answer(m, key, Exists, at) != Answer(plain, key, Exists, at);
    }
  }

  /** Operations that read the clock under the lock are always in time. */
  lemma PromptIsTimely(home: string -> nat, ss: seq<State>, ls: seq<Label>)
    requires Run(home, ss, ls)
    requires forall i :: 0 <= i < |ls| && ls[i].Operate? ==> ls[i].at == ss[i].clock
    ensures Timely(ss, ls)
  {
    forall i | 0 <= i < |ls| ensures TimelyAt(ss, ls, i) {
      if ls[i].Operate? {
        RunUpTo(home, ss, ls, i);
        TakenIsDead(home, ss[..i + 1], ls[..i], ls[i].key);
      }
    }
  }

  lemma RunUpTo(home: string -> nat, ss: seq<State>, ls: seq<Label>, i: nat)
    requires Run(home, ss, ls) && i <= |ls|
    ensures Run(home, ss[..i + 1], ls[..i])
  {
    forall j | 0 <= j < i ensures Next(home, ss[..i + 1][j], ls[..i][j], ss[..i + 1][j + 1]) {
      assert Next(home, ss[j], ls[j], ss[j + 1]);
    }
  }

  // ---- An operation that is too late ----

  /** A counter that died at 7, and the clock at 10. */
  const DEAD: Entry := StringEntry("5", Some(7))

  const BEFORE: State := State(map["k" := DEAD], 10, {}, [])

  /** A sweep passes between the operation's reading of the clock and its getting the lock. */
  function Swept3(op: KeyOp, home: string -> nat): seq<State> {
    var swept := Swept(BEFORE.space, home, 0, 10);
    [BEFORE,
     BEFORE.(sweepers := [Sweeper(10, 0)]),
     State(swept, 10, {}, [Sweeper(10, 1)]),
     State(Operated(swept, "k", op, 5), 10, {}, [Sweeper(10, 1)])]
  }

  function SweepThen(op: KeyOp): seq<Label> {
    [StartSweep(10), SweepShard(0), Operate("k", op, 5)]
  }

  lemma SweepThenRuns(op: KeyOp, home: string -> nat)
    requires home("k") == 0
    ensures Run(home, Swept3(op, home), SweepThen(op))
    ensures Swept3(op, home)[2].space == map[]
  {
    var swept := Swept(BEFORE.space, home, 0, 10);
    assert Look(swept, "k") == None;
    assert swept == map[];
    var ss, ls := Swept3(op, home), SweepThen(op);
    assert Next(home, ss[0], ls[0], ss[1]);
    assert Next(home, ss[1], ls[1], ss[2]);
    assert Next(home, ss[2], ls[2], ss[3]);
  }

  lemma PlainSweepThen(op: KeyOp)
    ensures PlainRun(BEFORE, SweepThen(op)) ==
      Plain(Operated(BEFORE.space, "k", op, 5), 10, [Answer(BEFORE.space, "k", op, 5)])
  {
    var ls := SweepThen(op);
    assert ls[..2] == [StartSweep(10), SweepShard(0)] && ls[..2][..1] == [StartSweep(10)];
    assert PlainRun(BEFORE, ls[..2][..1]) == Plain(BEFORE.space, 10, []);
    assert PlainRun(BEFORE, ls[..2]) == Plain(BEFORE.space, 10, []);
  }

  /** The failing input: an EXISTS that read the clock at 5, before the key died at 7, and gets
      the lock after a sweep at 10, misses a key that it would have found without the sweep. */
  lemma LateExistsMissesKey(home: string -> nat)
    requires home("k") == 0
    ensures Run(home, Swept3(Exists, home), SweepThen(Exists))
    ensures Answer(Swept3(Exists, home)[2].space, "k", Exists, 5) == Flag(false)
    ensures PlainRun(BEFORE, SweepThen(Exists)).replies == [Flag(true)]
  {
    SweepThenRuns(Exists, home);
    PlainSweepThen(Exists);
  }

  /** And an increment leaves a counter without a deadline, where nothing would be alive. */
  lemma LateIncrementRevivesKey(home: string -> nat)
    requires home("k") == 0
    ensures var op := IncrBy(1);
      && Run(home, Swept3(op, home), SweepThen(op))
      && Live(Swept3(op, home)[3].space, 10) == map["k" := StringEntry(FormatInt(1), None)]
      && Live(PlainRun(BEFORE, SweepThen(op)).space, 10) == map[]
  {
    var op := IncrBy(1);
    SweepThenRuns(op, home);
    PlainSweepThen(op);
    ParseFormat(5);
    assert FormatInt(5) == "5";
    assert Operated(map[], "k", op, 5) == map["k" := StringEntry(FormatInt(1), None)];
    assert Operated(BEFORE.space, "k", op, 5) == map["k" := StringEntry(FormatInt(6), Some(7))];
  }
}
