/** Commands as a client gives them, one after the other, and what each does to the key it
    names. The laws of the single commands are stated on these. */
module ClientRuns {
  import opened Basics
  import opened Decimal
  import opened Resp
  import opened Keyspace
  import opened Commands
  import opened History
  import opened Words

  // ---- One command on one key ----

  /** What stands at the key, and the answer, after a command on that key. */
  lemma ExecOnKey(m: Space, args: Command, key: string, op: KeyOp, now: int)
    requires Parse(args) == Single(key, op)
    ensures var o, change := Exec(m, args, now), Update(op, LiveEntry(Look(m, key), now), now);
      && Look(o.space, key) == LiveEntry(change.entry, now)
      && o.answer == One(change.reply)
  {
    LookLive(m, now, key);
  }

  // ---- What a client sees of a key ----

  /** GET: the string, nothing, or a refusal of another kind. */
  function Shown(e: Option<Entry>): Reply {
    if e.None? then Text(None) else if e.value.kind == KindString then Text(Some(e.value.str)) else Refused(WrongType)
  }

  /** PTTL: the whole milliseconds up to the deadline. */
  function MillisecondsLeft(e: Option<Entry>, now: int): int {
    if e.None? then -2 else if e.value.expiresAt.None? then -1
    else
      var left := e.value.expiresAt.value - now;
      (if left > MAX_INT64 then MAX_INT64 else left) / 1_000_000
  }

  lemma ParsesGet(args: Command)
    requires Calls(args, "GET") && |args| == 2
    ensures Parse(args) == Single(args[1], Get)
  {
    CalledBy(args, NameGet);
  }

  /** GET shows the live string at the key. */
  lemma GetShows(m: Space, args: Command, now: int)
    requires Calls(args, "GET") && |args| == 2
    ensures Exec(m, args, now).answer == One(Shown(LiveEntry(Look(m, args[1]), now)))
  {
    ParsesGet(args);
    ExecOnKey(m, args, args[1], Get, now);
  }

  /** TTL and PTTL show the whole units that remain of its deadline. */
  lemma TTLShows(m: Space, args: Command, now: int)
    requires (Calls(args, "TTL") || Calls(args, "PTTL")) && |args| == 2
    ensures var ms := MillisecondsLeft(LiveEntry(Look(m, args[1]), now), now);
      Exec(m, args, now).answer == Total(if Calls(args, "TTL") && ms >= 0 then ms / 1000 else ms)
  {
    TTLParses(args);
    LookLive(m, now, args[1]);
    var e := LiveEntry(Look(m, args[1]), now);
    if e.Some? && e.value.expiresAt.Some? {
      WholeUnits(Until(e.value.expiresAt.value, now));
    }
  }

  lemma TTLParses(args: Command)
    requires (Calls(args, "TTL") || Calls(args, "PTTL")) && |args| == 2
    ensures Parse(args) == TimeLeft(args[1], !Calls(args, "TTL"))
  {
    CalledBy(args, if Calls(args, "TTL") then NameTTL else NamePTTL);
  }

  lemma PTTLIsNotTTL()
    ensures !Spells("PTTL", "TTL")
  {}

  lemma WholeUnits(left: int)
    requires left >= 0
    ensures left / 1_000_000_000 == left / 1_000_000 / 1000
  {}

  /** At `later` the key holds `value`, for good. */
  ghost predicate StaysAs(m: Space, key: string, value: string, later: int) {
    && Exec(m, ["GET", key], later).answer == One(Text(Some(value)))
    && Exec(m, ["PTTL", key], later).answer == Total(-1)
  }

  lemma StringStays(m: Space, key: string, value: string, later: int)
    requires Look(m, key) == Some(StringEntry(value, None))
    ensures StaysAs(m, key, value, later)
  {
    GetShows(m, ["GET", key], later);
    PTTLIsNotTTL();
    TTLShows(m, ["PTTL", key], later);
  }

  /** The deadline of what stands at a key, if anything does. */
  function DeadlineOf(e: Option<Entry>): Option<int> {
    if e.Some? then e.value.expiresAt else None
  }

  lemma SameDeadlineLive(e: Option<Entry>, e': Option<Entry>, now: int)
    requires LiveEntry(e, now) == e && DeadlineOf(e') == DeadlineOf(e)
    ensures LiveEntry(e', now) == e'
  {}

  // ---- Runs ----

  datatype Ran = Ran(space: Space, answers: seq<Answer>)

  /** Running `events` one after the other on `m`. */
  function RunFrom(g: Engine, m: Space, events: seq<Event>): (r: Ran)
    ensures |r.answers| == |events|
  {
    if events == [] then Ran(m, []) else
    var n := |events| - 1;
    var before := RunFrom(g, m, events[..n]);
    var o := g.exec(before.space, events[n].args, events[n].now);
    Ran(o.space, before.answers + [o.answer])
  }

  /** The key's deadline, if it has one, passes before none of the events. */
  ghost predicate Outlasts(e: Option<Entry>, events: seq<Event>) {
    forall i :: 0 <= i < |events| ==> LiveEntry(e, events[i].now) == e
  }
}
