/** Strings as a client reads them back: what SET, APPEND, GETSET and PERSIST leave for GET. */
module Strings {
  import opened Basics
  import opened Framing
  import opened Resp
  import opened Keyspace
  import opened Commands
  import opened SetOptions
  import opened History
  import opened LogFilter
  import opened Words
  import opened ClientRuns

  /** A string, or nothing. */
  predicate IsText(e: Option<Entry>) {
    e.Some? ==> e.value.kind == KindString
  }

  /** The text that stands at a key; nothing reads as the empty one. */
  function TextAt(e: Option<Entry>): string
    requires IsText(e)
  {
    if e.Some? then e.value.str else ""
  }

  // ---- APPEND ----

  predicate OnAppend(args: Command, key: string) {
    Calls(args, "APPEND") && |args| == 3 && args[1] == key
  }

  /** `after` is `before` with `suffix` behind it, and `reply` its length. */
  ghost predicate Grows(before: Option<Entry>, suffix: string, after: Option<Entry>, reply: Reply) {
    && IsText(before) && IsText(after) && after.Some?
    && TextAt(after) == TextAt(before) + suffix
    && DeadlineOf(after) == DeadlineOf(before)
    && reply == Count(|TextAt(after)|)
  }

  ghost predicate ServesAppend(g: Engine, m: Space, key: string, args: Command, now: int) {
    OnAppend(args, key) && LiveEntry(Look(m, key), now) == Look(m, key) && IsText(Look(m, key)) ==>
      var o := g.exec(m, args, now);
      o.answer.One? && Grows(Look(m, key), args[2], Look(o.space, key), o.answer.reply)
  }

  lemma AppendCommand(m: Space, key: string, args: Command, now: int)
    ensures ServesAppend(VOLTKV, m, key, args, now)
  {
    if OnAppend(args, key) && LiveEntry(Look(m, key), now) == Look(m, key) && IsText(Look(m, key)) {
      CalledBy(args, NameAppend);
      ExecOnKey(m, args, key, Append(args[2]), now);
    }
  }

  ghost predicate AppendRun(events: seq<Event>, key: string) {
    forall i :: 0 <= i < |events| ==> OnAppend(events[i].args, key)
  }

  /** The suffixes, one behind the other. */
  function Suffixes(events: seq<Event>): string
    requires forall i :: 0 <= i < |events| ==> |events[i].args| == 3
  {
    if events == [] then "" else Suffixes(events[..|events| - 1]) + events[|events| - 1].args[2]
  }

  /** Each answer is the length reached, from `length` on. */
  ghost predicate Lengths(length: nat, events: seq<Event>, answers: seq<Answer>)
    requires forall i :: 0 <= i < |events| ==> |events[i].args| == 3
  {
    && |answers| == |events|
    && forall i :: 0 <= i < |events| ==> answers[i] == One(Count(length + |Suffixes(events[..i + 1])|))
  }

  /** The text has grown by the suffixes, each answer is the length reached, and the deadline is
      still the one it had. */
  ghost predicate Grown(start: Option<Entry>, events: seq<Event>, key: string, run: Ran)
    requires AppendRun(events, key) && IsText(start)
  {
    var e := Look(run.space, key);
    && IsText(e) && (events != [] ==> e.Some?)
    && TextAt(e) == TextAt(start) + Suffixes(events) && DeadlineOf(e) == DeadlineOf(start)
    && Lengths(|TextAt(start)|, events, run.answers)
  }

  lemma LengthsSnoc(length: nat, events: seq<Event>, answers: seq<Answer>, answer: Answer)
    requires events != [] && forall i :: 0 <= i < |events| ==> |events[i].args| == 3
    requires Lengths(length, events[..|events| - 1], answers)
    requires answer == One(Count(length + |Suffixes(events)|))
    ensures Lengths(length, events, answers + [answer])
  {
    var n := |events| - 1;
    forall i | 0 <= i < |events|
      ensures (answers + [answer])[i] == One(Count(length + |Suffixes(events[..i + 1])|))
    {
      if i < n {
        assert events[..n][..i + 1] == events[..i + 1];
      } else {
        assert events[..i + 1] == events;
      }
    }
  }

  lemma GrownFurther(start: Option<Entry>, events: seq<Event>, key: string, before: Ran, after: Ran, reply: Reply)
    requires AppendRun(events, key) && IsText(start) && events != []
    requires Grown(start, events[..|events| - 1], key, before)
    requires Grows(Look(before.space, key), events[|events| - 1].args[2], Look(after.space, key), reply)
    requires after.answers == before.answers + [One(reply)]
    ensures Grown(start, events, key, after)
  {
    Assoc(TextAt(start), Suffixes(events[..|events| - 1]), events[|events| - 1].args[2]);
    LengthsSnoc(|TextAt(start)|, events, before.answers, One(reply));
  }

  lemma {:induction false} ServedAppends(g: Engine, m: Space, key: string, events: seq<Event>)
    requires forall m, args, now :: ServesAppend(g, m, key, args, now)
    requires AppendRun(events, key) && IsText(Look(m, key)) && Outlasts(Look(m, key), events)
    ensures Grown(Look(m, key), events, key, RunFrom(g, m, events))
  {
    if events == [] {
      assert TextAt(Look(m, key)) + "" == TextAt(Look(m, key));
    } else {
      var n := |events| - 1;
      var before := RunFrom(g, m, events[..n]);
      ServedAppends(g, m, key, events[..n]);
      assert LiveEntry(Look(m, key), events[n].now) == Look(m, key);
      SameDeadlineLive(Look(m, key), Look(before.space, key), events[n].now);
      assert ServesAppend(g, before.space, key, events[n].args, events[n].now);
      var o := g.exec(before.space, events[n].args, events[n].now);
      GrownFurther(Look(m, key), events, key, before, RunFrom(g, m, events), o.answer.reply);
    }
  }

  /** Any run of APPENDs, in any case, on a missing key or a string that does not expire
      meanwhile: the text is what it was followed by the suffixes in order, each answer is the
      length so far, and the deadline is kept. */
  lemma ClientAppends(m: Space, key: string, events: seq<Event>)
    requires AppendRun(events, key) && IsText(Look(m, key)) && Outlasts(Look(m, key), events)
    ensures Grown(Look(m, key), events, key, RunFrom(VOLTKV, m, events))
  {
    forall m, args, now ensures ServesAppend(VOLTKV, m, key, args, now) {
      AppendCommand(m, key, args, now);
    }
    ServedAppends(VOLTKV, m, key, events);
  }

  /** And GET answers that text as long as it is live. */
  lemma AppendedShows(m: Space, key: string, events: seq<Event>, later: int)
    requires AppendRun(events, key) && IsText(Look(m, key)) && Outlasts(Look(m, key), events)
    requires events != [] && LiveEntry(Look(m, key), later) == Look(m, key)
    ensures Exec(RunFrom(VOLTKV, m, events).space, ["GET", key], later).answer
      == One(Text(Some(TextAt(Look(m, key)) + Suffixes(events))))
  {
    ClientAppends(m, key, events);
    var after := RunFrom(VOLTKV, m, events).space;
    SameDeadlineLive(Look(m, key), Look(after, key), later);
    GetShows(after, ["GET", key], later);
  }

  // ---- SET without a lifetime, GETSET, PERSIST, TYPE ----

  /** SET with options, in any order, none of which is a lifetime. */
  ghost predicate SetsForGood(args: Command, clauses: seq<Clause>) {
    && Calls(args, "SET") && |args| >= 3 && args[3..] == TextOf(clauses)
    && AllWellFormed(clauses) && Accepted(clauses) && !SomeExpiry(clauses)
  }

  lemma SetsForGoodParses(args: Command, clauses: seq<Clause>)
    requires SetsForGood(args, clauses)
    ensures Parse(args) == Single(args[1],
      if SomeNX(clauses) then SetNX(args[2], 0) else if SomeXX(clauses) then SetXX(args[2], 0) else Set(args[2], 0))
  {
    CalledBy(args, NameSet);
    LoopMeans(clauses, NO_OPTS, false);
    assert SaysAfter(clauses, NO_OPTS, SetOptsFrom(args[3..], NO_OPTS, false).value);
  }

  /** SET k v stores v for good; with NX only where nothing is live and with XX only where
      something is, and otherwise it changes and logs nothing. */
  lemma SetStays(m: Space, args: Command, clauses: seq<Clause>, now: int, later: int)
    requires SetsForGood(args, clauses)
    ensures var live, o := LiveEntry(Look(m, args[1]), now).Some?, Exec(m, args, now);
      if (SomeNX(clauses) && live) || (SomeXX(clauses) && !live)
      then o.answer == One(Flag(false)) && o.space == Live(m, now) && o.points == []
      else StaysAs(o.space, args[1], args[2], later) && o.points != []
  {
    SetsForGoodParses(args, clauses);
    var op := Parse(args).op;
    ExecOnKey(m, args, args[1], op, now);
    if Look(Exec(m, args, now).space, args[1]) == Some(StringEntry(args[2], None)) {
      StringStays(Exec(m, args, now).space, args[1], args[2], later);
    }
    PutLive(m, args[1], now);
    LookLive(m, now, args[1]);
  }

  /** SET is refused for its options exactly when they are not in the grammar. */
  lemma SetRefusesSyntax(m: Space, args: Command, now: int)
    requires Calls(args, "SET") && |args| >= 3
    ensures Exec(m, args, now).answer == Error(BadSyntax) <==>
      !exists clauses :: AllWellFormed(clauses) && args[3..] == TextOf(clauses) && Accepted(clauses)
  {
    CalledBy(args, NameSet);
    if SetOptsFrom(args[3..], NO_OPTS, false).Some? {
      OptionsAreGrammar(args[3..], SetOptsFrom(args[3..], NO_OPTS, false).value);
    }
    if clauses :| AllWellFormed(clauses) && args[3..] == TextOf(clauses) && Accepted(clauses) {
      LoopMeans(clauses, NO_OPTS, false);
    }
  }

  /** GETSET answers the text before it and stores the new one for good; what is no string it
      refuses and leaves alone. */
  lemma GetSetSwaps(m: Space, args: Command, now: int, later: int)
    requires Calls(args, "GETSET") && |args| == 3
    ensures var e, o := LiveEntry(Look(m, args[1]), now), Exec(m, args, now);
      && o.answer == One(Shown(e))
      && if IsText(e) then StaysAs(o.space, args[1], args[2], later) else o.space == Live(m, now)
  {
    CalledBy(args, NameGetSet);
    ExecOnKey(m, args, args[1], GetSet(args[2]), now);
    if IsText(LiveEntry(Look(m, args[1]), now)) {
      StringStays(Exec(m, args, now).space, args[1], args[2], later);
    }
    PutLive(m, args[1], now);
    LookLive(m, now, args[1]);
  }

  /** PERSIST answers whether there is a deadline to take away; afterwards the key holds what it
      held at every instant to come. */
  lemma PersistStays(m: Space, args: Command, now: int, later: int)
    requires Calls(args, "PERSIST") && |args| == 2
    ensures var e, o := LiveEntry(Look(m, args[1]), now), Exec(m, args, now);
      && o.answer == One(Flag(DeadlineOf(e).Some?))
      && LiveEntry(Look(o.space, args[1]), later) == if e.Some? then Some(e.value.(expiresAt := None)) else None
  {
    CalledBy(args, NamePersist);
    ExecOnKey(m, args, args[1], Persist, now);
  }

  /** TYPE answers the kind of what is live at the key. */
  lemma TypeShows(m: Space, args: Command, now: int)
    requires Calls(args, "TYPE") && |args| == 2
    ensures var e := LiveEntry(Look(m, args[1]), now);
      Exec(m, args, now).answer == One(KindIs(if e.Some? then e.value.kind else KindNone))
  {
    CalledBy(args, NameType);
    ExecOnKey(m, args, args[1], TypeOf, now);
  }
}
