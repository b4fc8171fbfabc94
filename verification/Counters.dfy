/** Counters: strings holding decimal int64s, stepped by IncrBy. */
module Counters {
  import opened Basics
  import opened Decimal
  import opened Resp
  import opened Keyspace
  import opened Commands
  import opened History
  import opened LogFilter
  import opened Words
  import opened ClientRuns

  /** The overflow guard is exact and does not itself leave the int64 range. */
  lemma GuardIsExact(cur: int, delta: int)
    requires IsInt64(cur) && IsInt64(delta)
    ensures WouldOverflow(cur, delta) <==> !IsInt64(cur + delta)
    ensures delta > 0 ==> IsInt64(MAX_INT64 - delta)
    ensures delta < 0 ==> IsInt64(MIN_INT64 - delta)
  {}

  /** A counter: the entry at a key, the deltas accepted so far and the number of refusals. */
  datatype Counter = Counter(entry: Option<Entry>, accepted: seq<int>, refused: nat)

  function Counted(before: Counter, delta: int, change: Change): Counter {
    if change.reply.Count? then Counter(change.entry, before.accepted + [delta], before.refused)
    else Counter(change.entry, before.accepted, before.refused + 1)
  }

  /** Adding the deltas one after the other, by whatever way of adding one. */
  function IncrRun(add: (Option<Entry>, int) -> Change, start: Option<Entry>, deltas: seq<int>): Counter {
    if deltas == [] then Counter(start, [], 0) else
    var n := |deltas| - 1;
    var before := IncrRun(add, start, deltas[..n]);
    Counted(before, deltas[n], add(before.entry, deltas[n]))
  }

  function Sum(deltas: seq<int>): int {
    if deltas == [] then 0 else Sum(deltas[..|deltas| - 1]) + deltas[|deltas| - 1]
  }

  /** The number an entry stands for; a missing key counts as zero. */
  function ValueOf(e: Option<Entry>): (r: Option<int>)
    ensures r.Some? ==> IsInt64(r.value)
  {
    if e.None? then Some(0) else if e.value.kind != KindString then None else ParseInt(e.value.str)
  }

  /** A counter that stands at `v` goes up by exactly `delta` if the sum fits, and is otherwise
      refused for overflow, unchanged. */
  ghost predicate GoesUp(e: Option<Entry>, v: int, delta: int, change: Change) {
    if IsInt64(v + delta) then change.reply == Count(v + delta) && ValueOf(change.entry) == Some(v + delta)
    else change == Change(e, Refused(Overflow))
  }

  lemma IncrementCounts(e: Option<Entry>, delta: int)
    requires ValueOf(e).Some? && IsInt64(delta)
    ensures GoesUp(e, ValueOf(e).value, delta, Increment(e, delta))
  {
    GuardIsExact(ValueOf(e).value, delta);
    if IsInt64(ValueOf(e).value + delta) {
      ParseFormat(ValueOf(e).value + delta);
    }
  }

  /** The counter stands at the start plus what was accepted. */
  ghost predicate Exact(start: int, c: Counter) {
    ValueOf(c.entry) == Some(start + Sum(c.accepted)) && IsInt64(start + Sum(c.accepted))
  }

  lemma StaysExact(start: int, before: Counter, delta: int, change: Change)
    requires Exact(start, before) && GoesUp(before.entry, start + Sum(before.accepted), delta, change)
    ensures var after := Counted(before, delta, change);
      Exact(start, after) && |after.accepted| + after.refused == |before.accepted| + before.refused + 1
  {
    SumSnoc(before.accepted, delta);
  }

  ghost predicate AddsUp(add: (Option<Entry>, int) -> Change, e: Option<Entry>, delta: int) {
    ValueOf(e).Some? && IsInt64(delta) ==> GoesUp(e, ValueOf(e).value, delta, add(e, delta))
  }

  lemma {:induction false} RunIsExact(
      add: (Option<Entry>, int) -> Change, start: Option<Entry>, deltas: seq<int>)
    requires ValueOf(start).Some?
    requires forall e, delta :: AddsUp(add, e, delta)
    requires forall d :: d in deltas ==> IsInt64(d)
    ensures var c := IncrRun(add, start, deltas);
      Exact(ValueOf(start).value, c) && |c.accepted| + c.refused == |deltas|
  {
    if deltas != [] {
      var n := |deltas| - 1;
      RunIsExact(add, start, deltas[..n]);
      assert deltas[n] in deltas;
      var before := IncrRun(add, start, deltas[..n]);
      assert AddsUp(add, before.entry, deltas[n]);
      StaysExact(ValueOf(start).value, before, deltas[n], add(before.entry, deltas[n]));
    }
  }

  /** Over any run of increments of a counter, the stored text parses back to the exact sum
      of the start and the accepted deltas, which stays in int64. */
  lemma CounterIsExact(start: Option<Entry>, deltas: seq<int>)
    requires ValueOf(start).Some?
    requires forall d :: d in deltas ==> IsInt64(d)
    ensures var c := IncrRun(Increment, start, deltas);
      Exact(ValueOf(start).value, c) && |c.accepted| + c.refused == |deltas|
  {
    forall e, delta ensures AddsUp(Increment, e, delta) {
      if ValueOf(e).Some? && IsInt64(delta) {
        IncrementCounts(e, delta);
      }
    }
    RunIsExact(Increment, start, deltas);
  }

  lemma SumSnoc(deltas: seq<int>, d: int)
    ensures Sum(deltas + [d]) == Sum(deltas) + d
  {
    assert (deltas + [d])[..|deltas|] == deltas;
  }

  /** In such a run a delta is refused exactly when the sum with it would leave int64, and is
      otherwise added. */
  lemma RefusedExactlyOnOverflow(start: Option<Entry>, deltas: seq<int>, delta: int)
    requires ValueOf(start).Some? && IsInt64(delta)
    requires forall d :: d in deltas ==> IsInt64(d)
    ensures var c := IncrRun(Increment, start, deltas);
      GoesUp(c.entry, ValueOf(start).value + Sum(c.accepted), delta, Increment(c.entry, delta))
  {
    CounterIsExact(start, deltas);
    IncrementCounts(IncrRun(Increment, start, deltas).entry, delta);
  }

  /** Negation is exact but for the least int64: adding what that wraps around to fits exactly
      where subtracting does not. */
  lemma NegationWraps(v: int, n: int)
    requires IsInt64(v) && IsInt64(n)
    ensures n != MIN_INT64 ==> Wrap64(-n) == -n
    ensures n == MIN_INT64 ==> (IsInt64(v + Wrap64(-n)) <==> !IsInt64(v - n))
  {}

  /** Adding the wrapped negation subtracts, but for the least int64. */
  lemma NegatedSubtracts(e: Option<Entry>, n: int, now: int)
    requires IsInt64(n) && ValueOf(e).Some?
    ensures GoesUp(e, ValueOf(e).value, -n, Update(IncrBy(Wrap64(-n)), e, now)) <==> n != MIN_INT64
  {
    NegationWraps(ValueOf(e).value, n);
    IncrementCounts(e, Wrap64(-n));
    UpAndDown(e, ValueOf(e).value, n, Wrap64(-n), Update(IncrBy(Wrap64(-n)), e, now));
  }

  lemma UpAndDown(e: Option<Entry>, v: int, n: int, delta: int, change: Change)
    requires GoesUp(e, v, delta, change)
    requires if n == MIN_INT64 then IsInt64(v + delta) <==> !IsInt64(v - n) else delta == -n
    ensures GoesUp(e, v, -n, change) <==> n != MIN_INT64
  {}

  /** On every counter, DECRBY stores and answers the difference, or refuses it when it does not
      fit, if and only if its argument is not the least int64, whose negation wraps around to
      itself. */
  lemma DecrByIsExact(args: Command, n: int, e: Option<Entry>, now: int)
    requires |args| == 3 && ParseInt(args[2]) == Some(n) && ValueOf(e).Some?
    ensures var request := IncrByRequest(args, true);
      && request.Single? && request.key == args[1]
      && (GoesUp(e, ValueOf(e).value, -n, Update(request.op, e, now)) <==> n != MIN_INT64)
  {
    NegatedSubtracts(e, n, now);
  }

  /** The failing input: a missing key decremented by the least int64 ends up at the least
      int64 instead of being refused for overflow. */
  lemma DecrByLeastGoesDown()
    ensures Increment(None, Wrap64(-MIN_INT64)).reply == Count(MIN_INT64)
    ensures !IsInt64(0 - MIN_INT64)
  {}

  // ---- As a client says it ----

  predicate IsStep(args: Command) {
    Calls(args, "INCR") || Calls(args, "DECR")
  }

  predicate IsStepBy(args: Command) {
    Calls(args, "INCRBY") || Calls(args, "DECRBY")
  }

  /** INCR or DECR, or INCRBY or DECRBY with an int64, on `key`. */
  predicate OnCounter(args: Command, key: string) {
    |args| >= 2 && args[1] == key
    && ((IsStep(args) && |args| == 2) || (IsStepBy(args) && |args| == 3 && ParseInt(args[2]).Some?))
  }

  /** By how much the client wants the counter to go up. DECRBY of the least int64 asks for more
      than there is, and gets the least. */
  function Wanted(args: Command, key: string): (d: int)
    requires OnCounter(args, key)
    ensures IsInt64(d)
  {
    if Calls(args, "INCR") then 1
    else if Calls(args, "DECR") then -1
    else
      var n := ParseInt(args[2]).value;
      if Calls(args, "INCRBY") || n == MIN_INT64 then n else -n
  }

  lemma StepParses(args: Command, key: string)
    requires OnCounter(args, key) && IsStep(args)
    ensures Parse(args) == Single(key, IncrBy(Wanted(args, key)))
  {
    CalledBy(args, if Calls(args, "INCR") then NameIncr else NameDecr);
  }

  lemma StepByParses(args: Command, key: string)
    requires OnCounter(args, key) && !IsStep(args)
    ensures Parse(args) == Single(key, IncrBy(Wanted(args, key)))
  {
    CalledBy(args, if Calls(args, "INCRBY") then NameIncrBy else NameDecrBy);
    var n := ParseInt(args[2]).value;
    assert n != MIN_INT64 ==> Wrap64(-n) == -n;
    assert Wrap64(-MIN_INT64) == MIN_INT64;
  }

  lemma CounterParses(args: Command, key: string)
    requires OnCounter(args, key)
    ensures Parse(args) == Single(key, IncrBy(Wanted(args, key)))
  {
    if IsStep(args) {
      StepParses(args, key);
    } else {
      StepByParses(args, key);
    }
  }

  lemma IncrementKeepsDeadline(e: Option<Entry>, delta: int)
    ensures DeadlineOf(Increment(e, delta).entry) == DeadlineOf(e)
  {}

  /** An executor that serves one command on a live counter: it goes up by what is wanted, or is
      refused for overflow if that leaves int64, and keeps its deadline. */
  ghost predicate ServesCounter(g: Engine, m: Space, key: string, args: Command, now: int) {
    OnCounter(args, key) && LiveEntry(Look(m, key), now) == Look(m, key) && ValueOf(Look(m, key)).Some? ==>
      var e, o := Look(m, key), g.exec(m, args, now);
      && o.answer.One?
      && GoesUp(e, ValueOf(e).value, Wanted(args, key), Change(Look(o.space, key), o.answer.reply))
      && DeadlineOf(Look(o.space, key)) == DeadlineOf(e)
  }

  lemma CounterCommand(m: Space, key: string, args: Command, now: int)
    ensures ServesCounter(VOLTKV, m, key, args, now)
  {
    var e := Look(m, key);
    if OnCounter(args, key) && LiveEntry(e, now) == e && ValueOf(e).Some? {
      var delta := Wanted(args, key);
      CounterParses(args, key);
      ExecOnKey(m, args, key, IncrBy(delta), now);
      IncrementCounts(e, delta);
      IncrementKeepsDeadline(e, delta);
    }
  }

  /** What is no string is refused for its kind, and what is no number because it is none; the key
      is left as it was. */
  lemma CounterRefuses(m: Space, key: string, args: Command, now: int)
    requires OnCounter(args, key) && ValueOf(LiveEntry(Look(m, key), now)).None?
    ensures var e, o := LiveEntry(Look(m, key), now), Exec(m, args, now);
      && o.answer == One(Refused(if e.value.kind == KindString then NotInteger else WrongType))
      && Look(o.space, key) == e
  {
    CounterParses(args, key);
    ExecOnKey(m, args, key, IncrBy(Wanted(args, key)), now);
  }

  ghost predicate CounterRun(events: seq<Event>, key: string) {
    forall i :: 0 <= i < |events| ==> OnCounter(events[i].args, key)
  }

  /** The sum of what was wanted by the commands that were not refused. */
  function Granted(events: seq<Event>, key: string, answers: seq<Answer>): int
    requires CounterRun(events, key) && |answers| == |events|
  {
    if events == [] then 0 else
    var n := |events| - 1;
    Granted(events[..n], key, answers[..n]) +
      if answers[n].One? && answers[n].reply.Count? then Wanted(events[n].args, key) else 0
  }

  /** The counter stands `sum` above the start, with the deadline it had there. */
  ghost predicate Reached(start: Option<Entry>, sum: int, e: Option<Entry>)
    requires ValueOf(start).Some?
  {
    ValueOf(e) == Some(ValueOf(start).value + sum) && DeadlineOf(e) == DeadlineOf(start)
  }

  lemma ReachedFurther(start: Option<Entry>, sum: int, e: Option<Entry>, delta: int, change: Change)
    requires ValueOf(start).Some? && Reached(start, sum, e)
    requires GoesUp(e, ValueOf(e).value, delta, change) && DeadlineOf(change.entry) == DeadlineOf(e)
    ensures Reached(start, sum + if change.reply.Count? then delta else 0, change.entry)
  {}

  lemma GrantedSnoc(events: seq<Event>, key: string, answers: seq<Answer>, answer: Answer)
    requires events != [] && CounterRun(events, key) && |answers| == |events| - 1
    ensures var n := |events| - 1;
      Granted(events, key, answers + [answer]) == Granted(events[..n], key, answers) +
        if answer.One? && answer.reply.Count? then Wanted(events[n].args, key) else 0
  {
    assert (answers + [answer])[..|answers|] == answers;
  }

  /** One more command after a run that was granted `sum`. */
  lemma GrantedFurther(start: Option<Entry>, events: seq<Event>, key: string, answers: seq<Answer>,
                       sum: int, e: Option<Entry>, delta: int, e': Option<Entry>, answer: Answer)
    requires events != [] && CounterRun(events, key) && |answers| == |events| - 1
    requires ValueOf(start).Some? && answer.One? && Reached(start, sum, e)
    requires sum == Granted(events[..|events| - 1], key, answers)
    requires delta == Wanted(events[|events| - 1].args, key)
    requires GoesUp(e, ValueOf(e).value, delta, Change(e', answer.reply)) && DeadlineOf(e') == DeadlineOf(e)
    ensures Reached(start, Granted(events, key, answers + [answer]), e')
  {
    var more := sum + if answer.reply.Count? then delta else 0;
    assert Granted(events, key, answers + [answer]) == more by {
      GrantedSnoc(events, key, answers, answer);
    }
    ReachedFurther(start, sum, e, delta, Change(e', answer.reply));
  }

  lemma {:induction false} ServedCounter(g: Engine, m: Space, key: string, events: seq<Event>)
    requires forall m, args, now :: ServesCounter(g, m, key, args, now)
    requires CounterRun(events, key) && ValueOf(Look(m, key)).Some?
    requires Outlasts(Look(m, key), events)
    ensures var run := RunFrom(g, m, events);
      Reached(Look(m, key), Granted(events, key, run.answers), Look(run.space, key))
  {
    if events != [] {
      var n := |events| - 1;
      var before := RunFrom(g, m, events[..n]);
      var e, o := Look(before.space, key), g.exec(before.space, events[n].args, events[n].now);
      ServedCounter(g, m, key, events[..n]);
      assert LiveEntry(Look(m, key), events[n].now) == Look(m, key);
      SameDeadlineLive(Look(m, key), e, events[n].now);
      assert ServesCounter(g, before.space, key, events[n].args, events[n].now);
      GrantedFurther(Look(m, key), events, key, before.answers, Granted(events[..n], key, before.answers),
                     e, Wanted(events[n].args, key), Look(o.space, key), o.answer);
    }
  }

  /** Any run of INCR, DECR, INCRBY and DECRBY, in any case, on a counter that does not expire
      meanwhile: its text parses back to the start and the sum of what was granted, and it keeps
      its deadline. */
  lemma ClientCounterIsExact(m: Space, key: string, events: seq<Event>)
    requires CounterRun(events, key) && ValueOf(Look(m, key)).Some?
    requires Outlasts(Look(m, key), events)
    ensures var run := RunFrom(VOLTKV, m, events);
      Reached(Look(m, key), Granted(events, key, run.answers), Look(run.space, key))
  {
    forall m, args, now ensures ServesCounter(VOLTKV, m, key, args, now) {
      CounterCommand(m, key, args, now);
    }
    ServedCounter(VOLTKV, m, key, events);
  }
}
