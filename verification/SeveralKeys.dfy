/** Commands on several keys as a client reads them back: MSET, MGET, DEL, EXISTS, FLUSHDB. */
module SeveralKeys {
  import opened Basics
  import opened Resp
  import opened Keyspace
  import opened Commands
  import opened LogFilter
  import opened Words
  import opened ClientRuns

  /** What is live at a key. */
  function LiveAt(m: Space, key: string, now: int): Option<Entry> {
    LiveEntry(Look(m, key), now)
  }

  // ---- MGET ----

  /** MGET answers key by key what GET answers, and nothing where GET refuses. */
  lemma MGetShows(m: Space, args: Command, now: int)
    requires Calls(args, "MGET") && |args| >= 2
    ensures var o := Exec(m, args, now);
      && o.answer.Values? && |o.answer.values| == |args| - 1
      && forall i :: 0 <= i < |args| - 1 ==>
           var shown := Shown(LiveAt(m, args[i + 1], now));
           o.answer.values[i] == if shown.Text? then shown.text else None
  {
    CalledBy(args, NameMGet);
    var values := Exec(m, args, now).answer.values;
    forall i | 0 <= i < |args| - 1 ensures values[i] == StringAt(Live(m, now), args[i + 1]) {
      assert args[1..][i] == args[i + 1];
    }
  }

  // ---- MSET ----

  predicate IsMSet(args: Command) {
    Calls(args, "MSET") && |args| >= 3 && |args| % 2 == 1
  }

  /** The keys and values that are given. */
  function Given(args: Command): (r: seq<(string, string)>)
    requires |args| % 2 == 1
    ensures |r| == |args| / 2
  {
    seq(|args| / 2, i requires 0 <= i < |args| / 2 => (args[2 * i + 1], args[2 * i + 2]))
  }

  /** Pair `i` names the key, and none after it does. */
  ghost predicate NamesLast(pairs: seq<(string, string)>, i: nat, key: string)
    requires i < |pairs|
  {
    pairs[i].0 == key && forall j :: i < j < |pairs| ==> pairs[j].0 != key
  }

  /** What stands at a key after the pairs have been set: the last value given for it, for good;
      or what stood there. */
  ghost predicate SetLast(m: Space, pairs: seq<(string, string)>, now: int, key: string, after: Option<Entry>) {
    && (forall i :: 0 <= i < |pairs| && NamesLast(pairs, i, key) ==> after == Some(StringEntry(pairs[i].1, None)))
    && ((forall i :: 0 <= i < |pairs| ==> pairs[i].0 != key) ==> after == LiveAt(m, key, now))
  }

  lemma {:induction false} MSetSetsLast(m: Space, pairs: seq<(string, string)>, now: int, key: string)
    ensures SetLast(m, pairs, now, key, Look(ExecMSet(m, pairs, now).space, key))
    ensures LiveEntry(Look(ExecMSet(m, pairs, now).space, key), now) == Look(ExecMSet(m, pairs, now).space, key)
  {
    if pairs == [] {
      LookLive(m, now, key);
    } else {
      var n := |pairs| - 1;
      var before := ExecMSet(m, pairs[..n], now).space;
      MSetSetsLast(m, pairs[..n], now, key);
      SetOne(before, pairs[n].0, pairs[n].1, now, key);
      SetLastMore(m, pairs, now, key, Look(before, key), Look(ExecMSet(m, pairs, now).space, key));
    }
  }

  lemma SetOne(m: Space, k: string, value: string, now: int, key: string)
    requires LiveEntry(Look(m, key), now) == Look(m, key)
    ensures Look(Step(m, k, Set(value, 0), now).space, key) ==
      if key == k then Some(StringEntry(value, None)) else Look(m, key)
  {
    LookLive(m, now, key);
  }

  lemma SetLastMore(
      m: Space, pairs: seq<(string, string)>, now: int, key: string, before: Option<Entry>, after: Option<Entry>)
    requires pairs != [] && SetLast(m, pairs[..|pairs| - 1], now, key, before)
    requires var last := pairs[|pairs| - 1]; after == if key == last.0 then Some(StringEntry(last.1, None)) else before
    ensures SetLast(m, pairs, now, key, after)
  {
    var n := |pairs| - 1;
    forall i | 0 <= i < |pairs| && NamesLast(pairs, i, key) ensures after == Some(StringEntry(pairs[i].1, None)) {
      if i < n {
        assert pairs[n].0 != key;
        assert NamesLast(pairs[..n], i, key);
      }
    }
    if forall i :: 0 <= i < |pairs| ==> pairs[i].0 != key {
      forall i | 0 <= i < n ensures pairs[..n][i].0 != key {
        assert pairs[i].0 != key;
      }
    }
  }

  ghost predicate LogsPairs(points: seq<Point>, pairs: seq<(string, string)>) {
    |points| == |pairs| && forall i :: 0 <= i < |pairs| ==> points[i].record == ["SET", pairs[i].0, pairs[i].1]
  }

  lemma LogsOneMore(points: seq<Point>, pairs: seq<(string, string)>, p: Point)
    requires pairs != [] && LogsPairs(points, pairs[..|pairs| - 1])
    requires p.record == ["SET", pairs[|pairs| - 1].0, pairs[|pairs| - 1].1]
    ensures LogsPairs(points + [p], pairs)
  {}

  lemma {:induction false} MSetLogs(m: Space, pairs: seq<(string, string)>, now: int)
    ensures LogsPairs(ExecMSet(m, pairs, now).points, pairs)
  {
    if pairs != [] {
      var n := |pairs| - 1;
      var before := ExecMSet(m, pairs[..n], now);
      MSetLogs(m, pairs[..n], now);
      LogsOneMore(before.points, pairs, Point(["SET", pairs[n].0, pairs[n].1], ExecMSet(m, pairs, now).space, now));
    }
  }

  lemma MSetParses(args: Command)
    requires IsMSet(args)
    ensures Parse(args) == MSet(Given(args))
  {
    CalledBy(args, NameMSet);
    forall i | 0 <= i < |args| / 2 ensures PairUp(args[1..])[i] == Given(args)[i] {
      assert args[1..][2 * i] == args[2 * i + 1] && args[1..][2 * i + 1] == args[2 * i + 2];
    }
    assert PairUp(args[1..]) == Given(args);
  }

  /** After MSET each named key holds the last value given for it, for good, and every other one
      what it held; each pair is logged as a plain SET, in order. */
  lemma MSetShows(m: Space, args: Command, now: int, key: string)
    requires IsMSet(args)
    ensures var o, pairs := Exec(m, args, now), Given(args);
      && o.answer == Ok
      && SetLast(m, pairs, now, key, Look(o.space, key))
      && LogsPairs(o.points, pairs)
  {
    MSetParses(args);
    MSetSetsLast(m, Given(args), now, key);
    MSetLogs(m, Given(args), now);
    MSetIsOk(m, Given(args), now);
  }

  lemma MSetIsOk(m: Space, pairs: seq<(string, string)>, now: int)
    ensures ExecMSet(m, pairs, now).answer == Ok
  {}

  // ---- DEL, EXISTS, FLUSHDB ----

  /** The named keys that are live. */
  function LiveOnes(m: Space, keys: seq<string>, now: int): set<string> {
    set k | k in keys && LiveAt(m, k, now).Some?
  }

  lemma RemovedSize(live: Space, keys: seq<string>, gone: set<string>)
    requires gone == set k | k in keys && k in live
    ensures |live| - |live - Elements(keys)| == |gone|
  {
    var left := live - Elements(keys);
    assert live.Keys == left.Keys + gone && left.Keys !! gone;
    assert |live.Keys| == |live| && |left.Keys| == |left|;
  }

  /** What taking the named keys away comes to. */
  ghost predicate TakesAway(m: Space, keys: seq<string>, args: Command, now: int, o: Outcome) {
    var gone := LiveOnes(m, keys, now);
    && (forall k :: Look(o.space, k) == if k in keys then None else LiveAt(m, k, now))
    && o.answer == Total(|gone|)
    && (o.points == [] <==> gone == {}) && (forall p :: p in o.points ==> p.record == args)
  }

  lemma GoneAreLive(m: Space, keys: seq<string>, now: int)
    ensures LiveOnes(m, keys, now) == set k | k in keys && k in Live(m, now)
  {
    var live := Live(m, now);
    forall k ensures k in live <==> LiveAt(m, k, now).Some? {
      LookLive(m, now, k);
    }
  }

  lemma DelRemoves(m: Space, keys: seq<string>, now: int, k: string)
    ensures Look(Live(m, now) - Elements(keys), k) == if k in keys then None else LiveAt(m, k, now)
  {
    LookLive(m, now, k);
  }

  lemma DelTakesAway(m: Space, keys: seq<string>, args: Command, now: int)
    ensures TakesAway(m, keys, args, now, ExecDel(m, keys, args, now))
  {
    var live, gone := Live(m, now), LiveOnes(m, keys, now);
    var after := live - Elements(keys);
    forall k ensures Look(after, k) == if k in keys then None else LiveAt(m, k, now) {
      DelRemoves(m, keys, now, k);
    }
    GoneAreLive(m, keys, now);
    RemovedSize(live, keys, gone);
  }

  /** DEL takes the named keys away and no others, answers how many of them were live, and logs
      itself if there was one. */
  lemma DelShows(m: Space, args: Command, now: int)
    requires Calls(args, "DEL") && |args| >= 2
    ensures TakesAway(m, args[1..], args, now, Exec(m, args, now))
  {
    CalledBy(args, NameDel);
    DelExec(m, args[1..], args, now);
    DelTakesAway(m, args[1..], args, now);
  }

  /** The positions at which a live key is named. */
  function LiveMentions(m: Space, keys: seq<string>, now: int): set<nat> {
    set i: nat | 0 <= i < |keys| && LiveAt(m, keys[i], now).Some?
  }

  lemma {:induction false} CountsMentions(m: Space, keys: seq<string>, now: int)
    ensures CountPresent(Live(m, now), keys) == |LiveMentions(m, keys, now)|
  {
    if keys == [] {
      assert LiveMentions(m, keys, now) == {};
    } else {
      var n := |keys| - 1;
      CountsMentions(m, keys[..n], now);
      LookLive(m, now, keys[n]);
      var before := LiveMentions(m, keys[..n], now);
      assert LiveMentions(m, keys, now) == before + if LiveAt(m, keys[n], now).Some? then {n} else {};
      assert n !in before;
    }
  }

  /** EXISTS counts every mention of a live key. */
  lemma ExistsShows(m: Space, args: Command, now: int)
    requires Calls(args, "EXISTS") && |args| >= 2
    ensures Exec(m, args, now).answer == Total(|LiveMentions(m, args[1..], now)|)
  {
    CalledBy(args, NameExists);
    CountsMentions(m, args[1..], now);
  }

  /** FLUSHDB leaves nothing, and is always logged. */
  lemma FlushShows(m: Space, args: Command, now: int)
    requires Calls(args, "FLUSHDB")
    ensures var o := Exec(m, args, now);
      o.space == map[] && o.answer == Ok && |o.points| == 1 && o.points[0].record == args
  {
    CalledBy(args, NameFlushDB);
  }
}
