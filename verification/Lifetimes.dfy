/** Lifetimes: how long what a command sets lives, and how far ahead a deadline can lie. */
module Lifetimes {
  import opened Basics
  import opened Decimal
  import opened Resp
  import opened Keyspace
  import opened Commands
  import opened SetOptions
  import opened Words
  import opened ClientRuns
  import opened Compaction

  /** The lifetime an operation gives, if it gives one, fits in a duration. */
  predicate Lasting(op: KeyOp) {
    match op
    case Set(_, ttl) => ttl <= MAX_INT64
    case SetNX(_, ttl) => ttl <= MAX_INT64
    case SetXX(_, ttl) => ttl <= MAX_INT64
    case Expire(ttl) => ttl <= MAX_INT64
    case _ => true
  }

  // ---- What is parsed ----

  lemma {:induction false} OptionsLast(opts: Command, seen: SetOpts, haveTTL: bool)
    requires seen.ttl <= MAX_INT64
    ensures var r := SetOptsFrom(opts, seen, haveTTL); r.Some? ==> r.value.ttl <= MAX_INT64
  {
    if opts != [] {
      var u := Upper(opts[0]);
      if u == "EX" || u == "PX" {
        if !haveTTL && |opts| >= 2 && ParseInt(opts[1]).Some? && ParseInt(opts[1]).value > 0 {
          var ttl := Wrap64(ParseInt(opts[1]).value * (if u == "EX" then SECOND else MILLISECOND));
          OptionsLast(opts[2..], seen.(ttl := ttl), true);
        }
      } else if u == "NX" && !seen.xx {
        OptionsLast(opts[1..], seen.(nx := true), haveTTL);
      } else if u == "XX" && !seen.nx {
        OptionsLast(opts[1..], seen.(xx := true), haveTTL);
      }
    }
  }

  lemma SetLasts(args: Command)
    requires |args| >= 1
    ensures var r := SetRequest(args); r.Single? ==> Lasting(r.op)
  {
    if |args| >= 3 {
      OptionsLast(args[3..], NO_OPTS, false);
    }
  }

  lemma OtherLasts(name: Name, args: Command)
    requires args != [] && !name.NameSet?
    ensures var r := ParseNamed(name, args); r.Single? ==> Lasting(r.op)
  {}

  /** Lifetimes are int64 durations, whatever the arguments multiply to. */
  lemma ParsedLasts(args: Command)
    ensures Parse(args).Single? ==> Lasting(Parse(args).op)
  {
    if args != [] {
      if NameOf(args[0]).NameSet? {
        SetLasts(args);
      } else {
        OtherLasts(NameOf(args[0]), args);
      }
    }
  }

  // ---- What is left ----

  ghost predicate NearEntry(e: Option<Entry>, now: int) {
    e.Some? && e.value.expiresAt.Some? ==> e.value.expiresAt.value - now <= MAX_INT64
  }

  lemma AssignNear(op: KeyOp, e: Option<Entry>, now: int)
    requires op.Set? || op.SetNX? || op.SetXX? || op.Expire?
    requires Lasting(op) && NearEntry(e, now)
    ensures NearEntry(Update(op, e, now).entry, now)
  {}

  lemma CollectionNear(op: KeyOp, e: Option<Entry>, now: int)
    requires op.HSet? || op.HDel? || op.LPush? || op.RPush? || op.LPop? || op.RPop?
    requires NearEntry(e, now)
    ensures NearEntry(Update(op, e, now).entry, now)
  {}

  lemma StringNear(op: KeyOp, e: Option<Entry>, now: int)
    requires op.Append? || op.GetSet? || op.IncrBy? || op.Del? || op.Persist?
    requires NearEntry(e, now)
    ensures NearEntry(Update(op, e, now).entry, now)
  {}

  lemma ReadNear(op: KeyOp, e: Option<Entry>, now: int)
    requires op.Get? || op.Exists? || op.TypeOf? || op.TTL? || op.HGet? || op.LIndex? || op.LRange?
    ensures Update(op, e, now).entry == e
  {}

  lemma UpdateNear(op: KeyOp, e: Option<Entry>, now: int)
    requires Lasting(op) && NearEntry(e, now)
    ensures NearEntry(Update(op, e, now).entry, now)
  {
    if op.Set? || op.SetNX? || op.SetXX? || op.Expire? {
      AssignNear(op, e, now);
    } else if op.HSet? || op.HDel? || op.LPush? || op.RPush? || op.LPop? || op.RPop? {
      CollectionNear(op, e, now);
    } else if op.Append? || op.GetSet? || op.IncrBy? || op.Del? || op.Persist? {
      StringNear(op, e, now);
    } else {
      ReadNear(op, e, now);
    }
  }

  lemma StepNear(m: Space, key: string, op: KeyOp, now: int)
    requires Lasting(op) && Near(m, now)
    ensures Near(Step(m, key, op, now).space, now)
  {
    var live := Live(m, now);
    UpdateNear(op, Look(live, key), now);
    var r := Step(m, key, op, now).space;
    forall k | k in r && r[k].expiresAt.Some? ensures r[k].expiresAt.value - now <= MAX_INT64 {
      assert Look(r, k) == if k == key then LiveEntry(Update(op, Look(live, key), now).entry, now) else Look(live, k);
    }
  }

  lemma {:induction false} MSetNear(m: Space, pairs: seq<(string, string)>, now: int)
    requires Near(m, now)
    ensures Near(ExecMSet(m, pairs, now).space, now)
  {
    if pairs != [] {
      var n := |pairs| - 1;
      MSetNear(m, pairs[..n], now);
      StepNear(ExecMSet(m, pairs[..n], now).space, pairs[n].0, Set(pairs[n].1, 0), now);
    }
  }

  lemma OtherNear(m: Space, request: Request, args: Command, now: int)
    requires Near(m, now) && !request.Single? && !request.MSet?
    ensures Near(Act(m, request, args, now).space, now)
  {}

  /** Every deadline within a duration's reach of a command's instant stays within it, and the
      command sets none beyond it. */
  lemma ExecNear(m: Space, args: Command, now: int)
    requires Near(m, now)
    ensures Near(Exec(m, args, now).space, now)
  {
    var request := Parse(args);
    if request.Single? {
      ParsedLasts(args);
      StepNear(m, request.key, request.op, now);
    } else if request.MSet? {
      MSetNear(m, request.pairs, now);
    } else {
      OtherNear(m, request, args, now);
    }
  }

  // ---- How long what is set lives ----

  /** The operation assigns its value to a key whose live entry is `e`. */
  predicate Stores(op: KeyOp, e: Option<Entry>) {
    op.Set? || (op.SetNX? && e.None?) || (op.SetXX? && e.Some?)
  }

  /** What is left of a lifetime that ends at `end`, as far as a duration can hold it. */
  function LeftOf(end: int, now: int): int {
    if end - now > MAX_INT64 then MAX_INT64 else end - now
  }

  /** A value stored with a lifetime can be seen, by every operation, up to the instant at which
      it is over and not after; until then the time that remains is what remains of it. */
  lemma LifetimeLasts(m: Space, key: string, op: KeyOp, now: int, later: int)
    requires (op.Set? || op.SetNX? || op.SetXX?) && op.ttl > 0 && now <= later
    requires Stores(op, LiveEntry(Look(m, key), now))
    ensures var after, end := Step(m, key, op, now).space, now + op.ttl;
      && (key in Live(after, later) <==> later <= end)
      && Step(after, key, Get, later).reply == Text(if later <= end then Some(op.value) else None)
      && Step(after, key, TTL, later).reply ==
        if later <= end then Remaining(true, Some(LeftOf(end, later))) else Remaining(false, None)
  {
    LookLive(m, now, key);
    LookLive(Step(m, key, op, now).space, later, key);
  }

  /** A value stored without one stays. */
  lemma NoLifetimeStays(m: Space, key: string, op: KeyOp, now: int, later: int)
    requires (op.Set? || op.SetNX? || op.SetXX?) && op.ttl <= 0
    requires Stores(op, LiveEntry(Look(m, key), now))
    ensures var after := Step(m, key, op, now).space;
      && Step(after, key, Get, later).reply == Text(Some(op.value))
      && Step(after, key, TTL, later).reply == Remaining(true, None)
  {
    LookLive(m, now, key);
    LookLive(Step(m, key, op, now).space, later, key);
  }

  // ---- As a client says it ----

  /** Nanoseconds in `n` of what the option counts: EX counts seconds, PX milliseconds. */
  function Amount(word: string, n: int): int {
    if Spells(word, "EX") then n * 1_000_000_000 else n * 1_000_000
  }

  /** SET with options, in any order, among them a lifetime of `n`. */
  ghost predicate SetsFor(args: Command, clauses: seq<Clause>, c: Clause, n: int) {
    && Calls(args, "SET") && |args| >= 3 && args[3..] == TextOf(clauses)
    && AllWellFormed(clauses) && Accepted(clauses)
    && c in clauses && (Spells(c.word, "EX") || Spells(c.word, "PX"))
    && ParseInt(c.amount.value) == Some(n)
  }

  lemma IsLifetime(c: Clause)
    ensures IsExpiry(c) <==> Spells(c.word, "EX") || Spells(c.word, "PX")
    ensures Spells(c.word, "EX") <==> Upper(c.word) == "EX"
  {
    FoldingSpells(c.word, "EX");
    FoldingSpells(c.word, "PX");
  }

  /** The lifetime such a SET asks for, as an int64 of nanoseconds; one that does not fit wraps
      around. */
  function Asked(c: Clause, n: int): int {
    Wrap64(Amount(c.word, n))
  }

  /** The assignment such a SET asks for. */
  lemma SetsForParses(args: Command, clauses: seq<Clause>, c: Clause, n: int)
    requires SetsFor(args, clauses, c, n)
    ensures var r := Parse(args);
      && n > 0 && r.Single? && r.key == args[1]
      && (r.op.Set? || r.op.SetNX? || r.op.SetXX?)
      && (r.op.SetNX? <==> SomeNX(clauses)) && (r.op.SetXX? <==> SomeXX(clauses))
      && r.op.value == args[2] && r.op.ttl == Asked(c, n)
  {
    CalledBy(args, NameSet);
    IsLifetime(c);
    LoopMeans(clauses, NO_OPTS, false);
    var o := SetOptsFrom(args[3..], NO_OPTS, false).value;
    assert SaysAfter(clauses, NO_OPTS, o);
    assert o.ttl == SetOptions.Lifetime(c);
  }

  /** At `later` GET answers the value if that is no later than `end`, and PTTL the whole
      milliseconds up to there; otherwise there is nothing. */
  ghost predicate SeenUntil(m: Space, key: string, value: string, end: int, later: int) {
    && Exec(m, ["GET", key], later).answer == One(Text(if later <= end then Some(value) else None))
    && Exec(m, ["PTTL", key], later).answer == Total(if later <= end then (end - later) / 1_000_000 else -2)
  }

  /** Its options let it store. */
  ghost predicate MayStore(m: Space, args: Command, clauses: seq<Clause>, now: int)
    requires |args| >= 2
  {
    && (SomeNX(clauses) ==> LiveEntry(Look(m, args[1]), now).None?)
    && (SomeXX(clauses) ==> LiveEntry(Look(m, args[1]), now).Some?)
  }

  lemma SetForLeaves(m: Space, args: Command, clauses: seq<Clause>, c: Clause, n: int, now: int)
    requires SetsFor(args, clauses, c, n) && MayStore(m, args, clauses, now)
    ensures var ttl := Asked(c, n);
      Look(Exec(m, args, now).space, args[1])
        == Some(StringEntry(args[2], if ttl > 0 then Some(now + ttl) else None))
  {
    SetsForParses(args, clauses, c, n);
    SetStores(m, args, args[1], Parse(args).op, now);
  }

  /** SET k v EX n lives n seconds and SET k v PX n lives n milliseconds, whatever else it says,
      if it stores: then GET answers the value up to that instant and nothing after it, and PTTL
      the milliseconds up to it. A lifetime of more than an int64 of nanoseconds wraps around;
      if that leaves nothing positive, the key lives for good. */
  lemma SetLives(m: Space, args: Command, clauses: seq<Clause>, c: Clause, n: int, now: int, later: int)
    requires SetsFor(args, clauses, c, n) && MayStore(m, args, clauses, now) && now <= later
    ensures var after, ttl := Exec(m, args, now).space, Asked(c, n);
      && (if ttl > 0 then SeenUntil(after, args[1], args[2], now + ttl, later)
          else StaysAs(after, args[1], args[2], later))
      && (IsInt64(Amount(c.word, n)) ==> ttl == Amount(c.word, n) > 0)
  {
    var ttl := Asked(c, n);
    SetsForParses(args, clauses, c, n);
    SetForLeaves(m, args, clauses, c, n, now);
    if ttl > 0 {
      StoredShows(Exec(m, args, now).space, args[1], args[2], now + ttl, later);
    } else {
      StringStays(Exec(m, args, now).space, args[1], args[2], later);
    }
  }

  lemma SetStores(m: Space, args: Command, key: string, op: KeyOp, now: int)
    requires Parse(args) == Single(key, op) && (op.Set? || op.SetNX? || op.SetXX?)
    requires Stores(op, LiveEntry(Look(m, key), now))
    ensures Look(Exec(m, args, now).space, key)
      == Some(StringEntry(op.value, if op.ttl > 0 then Some(now + op.ttl) else None))
  {
    ExecOnKey(m, args, key, op, now);
  }

  /** The least number of seconds that is too many. */
  const TOO_LONG: int := 9_223_372_037

  /** The failing input: SET k v EX 9223372037, nearly three hundred years, lives for good. */
  lemma TooLongIsForGood(m: Space, amount: string, now: int, later: int)
    requires ParseInt(amount) == Some(TOO_LONG) && now <= later
    ensures StaysAs(Exec(m, ["SET", "k", "v", "EX", amount], now).space, "k", "v", later)
  {
    var args, c := ["SET", "k", "v", "EX", amount], Clause("EX", Some(amount));
    assert args[3..] == ["EX", amount];
    OneClause(c, amount);
    assert Asked(c, TOO_LONG) <= 0;
    SetForLeaves(m, args, [c], c, TOO_LONG, now);
    StringStays(Exec(m, args, now).space, "k", "v", later);
  }

  lemma OneClause(c: Clause, amount: string)
    requires c == Clause("EX", Some(amount)) && ParseInt(amount).Some? && ParseInt(amount).value > 0
    ensures TextOf([c]) == ["EX", amount]
    ensures AllWellFormed([c]) && Accepted([c]) && !SomeNX([c]) && !SomeXX([c])
  {
    assert Upper("EX") == "EX";
    TextCons(c, []);
    assert [c] + [] == [c] && ["EX"] + [amount] + [] == ["EX", amount];
  }

  /** What GET and PTTL answer for a string with a deadline. */
  lemma StoredShows(m: Space, key: string, value: string, end: int, later: int)
    requires Look(m, key) == Some(StringEntry(value, Some(end))) && end - later <= MAX_INT64
    ensures SeenUntil(m, key, value, end, later)
  {
    PTTLIsNotTTL();
    GetShows(m, ["GET", key], later);
    TTLShows(m, ["PTTL", key], later);
  }

  /** EX n and PX 1000n are the same. */
  lemma SecondsAreMilliseconds(ex: string, px: string, n: int)
    requires Spells(ex, "EX") && Spells(px, "PX")
    ensures Amount(ex, n) == Amount(px, 1000 * n) == n * 1_000_000_000
  {
    FoldingSpells(px, "EX");
    FoldingSpells(px, "PX");
  }

  /** EXPIRE with seconds or PEXPIRE with milliseconds, `n` of them. */
  predicate ExpiresIn(args: Command, n: int) {
    |args| == 3 && ParseInt(args[2]) == Some(n) && (Calls(args, "EXPIRE") || Calls(args, "PEXPIRE"))
  }

  /** Nanoseconds. */
  function ExpiryOf(args: Command, n: int): int {
    if Calls(args, "EXPIRE") then n * 1_000_000_000 else n * 1_000_000
  }

  lemma ExpireParses(args: Command, n: int)
    requires ExpiresIn(args, n)
    ensures Parse(args) == Single(args[1], Expire(Wrap64(ExpiryOf(args, n))))
  {
    CalledBy(args, if Calls(args, "EXPIRE") then NameExpire else NamePExpire);
  }

  /** EXPIRE and PEXPIRE answer whether the key is live, and are logged only then; if it is, it
      keeps what it holds and lives up to the instant they say and not after it, at once no
      longer if that lies behind. What does not fit an int64 of nanoseconds wraps around. */
  lemma ExpireLives(m: Space, args: Command, n: int, now: int, later: int)
    requires ExpiresIn(args, n) && now <= later
    ensures var e, o, end := LiveEntry(Look(m, args[1]), now), Exec(m, args, now), now + Wrap64(ExpiryOf(args, n));
      && o.answer == One(Flag(e.Some?)) && (o.points == [] <==> e.None?)
      && LiveEntry(Look(o.space, args[1]), later) ==
        if e.Some? && later <= end then Some(e.value.(expiresAt := Some(end))) else None
  {
    ExpireParses(args, n);
    ExecOnKey(m, args, args[1], Expire(Wrap64(ExpiryOf(args, n))), now);
  }

  /** EXPIRE k n does what PEXPIRE k 1000n does. */
  lemma ExpireIsPExpire(m: Space, seconds: Command, milliseconds: Command, n: int, now: int)
    requires Calls(seconds, "EXPIRE") && ExpiresIn(seconds, n)
    requires Calls(milliseconds, "PEXPIRE") && ExpiresIn(milliseconds, 1000 * n)
    requires seconds[1] == milliseconds[1]
    ensures var a, b := Exec(m, seconds, now), Exec(m, milliseconds, now);
      a.space == b.space && a.answer == b.answer
  {
    ExpireParses(seconds, n);
    ExpireParses(milliseconds, 1000 * n);
    if Calls(milliseconds, "EXPIRE") { OneWord(milliseconds, NameExpire, NamePExpire); }
    SameRequest(m, seconds, milliseconds, seconds[1], Expire(Wrap64(n * 1_000_000_000)), now);
  }

  lemma SameRequest(m: Space, a: Command, b: Command, key: string, op: KeyOp, now: int)
    requires Parse(a) == Parse(b) == Single(key, op)
    ensures Exec(m, a, now).space == Exec(m, b, now).space && Exec(m, a, now).answer == Exec(m, b, now).answer
  {}
}
