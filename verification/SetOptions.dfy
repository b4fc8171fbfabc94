/** The options of SET: what the option loop accepts, as a grammar in which order plays no part. */
module SetOptions {
  import opened Basics
  import opened Decimal
  import opened Resp
  import opened Commands

  /** One option as a client writes it: a word, in any case, and the amount that EX and PX take. */
  datatype Clause = Clause(word: string, amount: Option<string>)

  predicate IsExpiry(c: Clause) {
    Upper(c.word) == "EX" || Upper(c.word) == "PX"
  }

  predicate IsNX(c: Clause) {
    Upper(c.word) == "NX"
  }

  predicate IsXX(c: Clause) {
    Upper(c.word) == "XX"
  }

  /** The option is one SET knows, and EX and PX come with a positive amount. */
  predicate WellFormed(c: Clause) {
    if IsExpiry(c)
    then c.amount.Some? && ParseInt(c.amount.value).Some? && ParseInt(c.amount.value).value > 0
    else c.amount.None? && (IsNX(c) || IsXX(c))
  }

  function Lifetime(c: Clause): int
    requires WellFormed(c) && IsExpiry(c)
  {
    Wrap64(ParseInt(c.amount.value).value * (if Upper(c.word) == "EX" then SECOND else MILLISECOND))
  }

  function TextOf(clauses: seq<Clause>): Command {
    if clauses == [] then [] else
    [clauses[0].word] + (if clauses[0].amount.Some? then [clauses[0].amount.value] else []) + TextOf(clauses[1..])
  }

  ghost predicate AllWellFormed(clauses: seq<Clause>) {
    forall c :: c in clauses ==> WellFormed(c)
  }

  ghost predicate SomeNX(clauses: seq<Clause>) {
    exists c :: c in clauses && IsNX(c)
  }

  ghost predicate SomeXX(clauses: seq<Clause>) {
    exists c :: c in clauses && IsXX(c)
  }

  ghost predicate SomeExpiry(clauses: seq<Clause>) {
    exists c :: c in clauses && IsExpiry(c)
  }

  /** At most one lifetime is given. */
  ghost predicate OneExpiry(clauses: seq<Clause>) {
    forall c, d :: c in clauses && d in clauses && IsExpiry(c) && IsExpiry(d) ==> c == d && multiset(clauses)[c] == 1
  }

  /** The grammar: at most one lifetime, and not both NX and XX. */
  ghost predicate Accepted(clauses: seq<Clause>) {
    OneExpiry(clauses) && !(SomeNX(clauses) && SomeXX(clauses))
  }

  /** What accepted options say, whatever their order. */
  ghost predicate Says(clauses: seq<Clause>, o: SetOpts)
    requires AllWellFormed(clauses)
  {
    && (o.nx <==> SomeNX(clauses)) && (o.xx <==> SomeXX(clauses))
    && (forall c :: c in clauses && IsExpiry(c) ==> o.ttl == Lifetime(c))
    && (!SomeExpiry(clauses) ==> o.ttl == 0)
  }

  // ---- The same, with options already seen ----

  ghost predicate AcceptedAfter(clauses: seq<Clause>, seen: SetOpts, haveTTL: bool) {
    && OneExpiry(clauses) && (haveTTL ==> !SomeExpiry(clauses))
    && !((seen.nx || SomeNX(clauses)) && (seen.xx || SomeXX(clauses)))
  }

  ghost predicate SaysAfter(clauses: seq<Clause>, seen: SetOpts, o: SetOpts)
    requires AllWellFormed(clauses)
  {
    && (o.nx <==> seen.nx || SomeNX(clauses)) && (o.xx <==> seen.xx || SomeXX(clauses))
    && (forall c :: c in clauses && IsExpiry(c) ==> o.ttl == Lifetime(c))
    && (!SomeExpiry(clauses) ==> o.ttl == seen.ttl)
  }

  lemma CountCons(c: Clause, rest: seq<Clause>, d: Clause)
    ensures multiset([c] + rest)[d] == multiset(rest)[d] + if d == c then 1 else 0
    ensures d in rest <==> multiset(rest)[d] >= 1
    ensures d in [c] + rest <==> d == c || d in rest
  {
    assert multiset([c] + rest) == multiset{c} + multiset(rest);
  }

  lemma OneExpiryTail(c: Clause, rest: seq<Clause>)
    requires OneExpiry([c] + rest)
    ensures OneExpiry(rest) && (IsExpiry(c) ==> !SomeExpiry(rest))
  {
    forall d, e | d in rest && e in rest && IsExpiry(d) && IsExpiry(e) ensures d == e && multiset(rest)[d] == 1 {
      CountCons(c, rest, d);
      CountCons(c, rest, e);
    }
    forall d | d in rest && IsExpiry(c) ensures !IsExpiry(d) {
      CountCons(c, rest, c);
      CountCons(c, rest, d);
    }
  }

  lemma OneExpiryCons(c: Clause, rest: seq<Clause>)
    ensures OneExpiry([c] + rest) <==> OneExpiry(rest) && (IsExpiry(c) ==> !SomeExpiry(rest))
  {
    if OneExpiry([c] + rest) {
      OneExpiryTail(c, rest);
    }
    if OneExpiry(rest) && (IsExpiry(c) ==> !SomeExpiry(rest)) {
      forall d, e | d in [c] + rest && e in [c] + rest && IsExpiry(d) && IsExpiry(e)
        ensures d == e && multiset([c] + rest)[d] == 1
      {
        CountCons(c, rest, d);
        CountCons(c, rest, e);
      }
    }
  }

  lemma SomeCons(c: Clause, rest: seq<Clause>)
    ensures SomeNX([c] + rest) <==> IsNX(c) || SomeNX(rest)
    ensures SomeXX([c] + rest) <==> IsXX(c) || SomeXX(rest)
    ensures SomeExpiry([c] + rest) <==> IsExpiry(c) || SomeExpiry(rest)
  {
    var all := [c] + rest;
    assert c in all && forall d :: d in rest ==> d in all;
  }

  /** What one option adds to those seen. */
  function Add(c: Clause, seen: SetOpts): SetOpts
    requires WellFormed(c)
  {
    if IsExpiry(c) then seen.(ttl := Lifetime(c)) else if IsNX(c) then seen.(nx := true) else seen.(xx := true)
  }

  predicate Clashes(c: Clause, seen: SetOpts, haveTTL: bool) {
    if IsExpiry(c) then haveTTL else if IsNX(c) then seen.xx else seen.nx
  }

  /** One turn of the loop. */
  lemma ReadsOne(c: Clause, rest: seq<Clause>, seen: SetOpts, haveTTL: bool)
    requires WellFormed(c)
    ensures SetOptsFrom(TextOf([c] + rest), seen, haveTTL) ==
      if Clashes(c, seen, haveTTL) then None
      else SetOptsFrom(TextOf(rest), Add(c, seen), haveTTL || IsExpiry(c))
  {
    var text := TextOf([c] + rest);
    assert ([c] + rest)[1..] == rest;
    if IsExpiry(c) {
      assert text == [c.word, c.amount.value] + TextOf(rest);
      assert text[2..] == TextOf(rest);
    } else {
      assert text == [c.word] + TextOf(rest);
      assert text[1..] == TextOf(rest);
    }
  }

  /** Where the first option does not clash, the rest decides. */
  lemma AcceptedCons(c: Clause, rest: seq<Clause>, seen: SetOpts, haveTTL: bool)
    requires WellFormed(c) && AllWellFormed(rest) && !(seen.nx && seen.xx)
    ensures AcceptedAfter([c] + rest, seen, haveTTL) <==>
      !Clashes(c, seen, haveTTL) && AcceptedAfter(rest, Add(c, seen), haveTTL || IsExpiry(c))
  {
    OneExpiryCons(c, rest);
    SomeCons(c, rest);
  }

  lemma SaysCons(c: Clause, rest: seq<Clause>, seen: SetOpts, o: SetOpts)
    requires WellFormed(c) && AllWellFormed(rest) && AllWellFormed([c] + rest)
    requires IsExpiry(c) ==> !SomeExpiry(rest)
    requires SaysAfter(rest, Add(c, seen), o)
    ensures SaysAfter([c] + rest, seen, o)
  {
    SomeCons(c, rest);
    forall d | d in [c] + rest && IsExpiry(d) ensures o.ttl == Lifetime(d) {
      if d in rest { assert SomeExpiry(rest); }
    }
  }

  lemma {:induction false} LoopMeans(clauses: seq<Clause>, seen: SetOpts, haveTTL: bool)
    requires AllWellFormed(clauses) && !(seen.nx && seen.xx)
    ensures var r := SetOptsFrom(TextOf(clauses), seen, haveTTL);
      && (r.Some? <==> AcceptedAfter(clauses, seen, haveTTL))
      && (r.Some? ==> SaysAfter(clauses, seen, r.value))
  {
    if clauses != [] {
      var c, rest := clauses[0], clauses[1..];
      assert clauses == [c] + rest && c in clauses;
      assert forall d :: d in rest ==> d in clauses;
      ReadsOne(c, rest, seen, haveTTL);
      AcceptedCons(c, rest, seen, haveTTL);
      if !Clashes(c, seen, haveTTL) {
        LoopMeans(rest, Add(c, seen), haveTTL || IsExpiry(c));
        var r := SetOptsFrom(TextOf(clauses), seen, haveTTL);
        if r.Some? {
          SaysCons(c, rest, seen, r.value);
        }
      }
    }
  }

  lemma TextCons(c: Clause, rest: seq<Clause>)
    ensures TextOf([c] + rest) == [c.word] + (if c.amount.Some? then [c.amount.value] else []) + TextOf(rest)
  {
    assert ([c] + rest)[1..] == rest;
  }

  lemma WordRead(opts: Command, rest: seq<Clause>)
    requires opts != [] && opts[1..] == TextOf(rest)
    ensures opts == TextOf([Clause(opts[0], None)] + rest)
  {
    TextCons(Clause(opts[0], None), rest);
  }

  lemma AmountRead(opts: Command, rest: seq<Clause>)
    requires |opts| >= 2 && opts[2..] == TextOf(rest)
    ensures opts == TextOf([Clause(opts[0], Some(opts[1]))] + rest)
  {
    TextCons(Clause(opts[0], Some(opts[1])), rest);
  }

  lemma {:induction false} LoopReads(opts: Command, seen: SetOpts, haveTTL: bool) returns (clauses: seq<Clause>)
    requires SetOptsFrom(opts, seen, haveTTL).Some?
    ensures AllWellFormed(clauses) && opts == TextOf(clauses)
    decreases |opts|
  {
    if opts == [] {
      clauses := [];
    } else {
      var u := Upper(opts[0]);
      if u == "EX" || u == "PX" {
        var ttl := Wrap64(ParseInt(opts[1]).value * (if u == "EX" then SECOND else MILLISECOND));
        var rest := LoopReads(opts[2..], seen.(ttl := ttl), true);
        AmountRead(opts, rest);
        clauses := [Clause(opts[0], Some(opts[1]))] + rest;
      } else {
        var rest := LoopReads(opts[1..], if u == "NX" then seen.(nx := true) else seen.(xx := true), haveTTL);
        WordRead(opts, rest);
        clauses := [Clause(opts[0], None)] + rest;
      }
    }
  }

  /** SET takes its options if and only if they are well formed, give at most one lifetime and
      do not ask for both NX and XX, and it understands exactly what they say. */
  lemma OptionsAreGrammar(opts: Command, o: SetOpts)
    ensures SetOptsFrom(opts, NO_OPTS, false) == Some(o) <==>
      exists clauses :: AllWellFormed(clauses) && opts == TextOf(clauses) && Accepted(clauses) && Says(clauses, o)
  {
    if SetOptsFrom(opts, NO_OPTS, false) == Some(o) {
      var clauses := LoopReads(opts, NO_OPTS, false);
      LoopMeans(clauses, NO_OPTS, false);
      assert Accepted(clauses) && Says(clauses, o);
    }
    if clauses :| AllWellFormed(clauses) && opts == TextOf(clauses) && Accepted(clauses) && Says(clauses, o) {
      LoopMeans(clauses, NO_OPTS, false);
      SaysOne(clauses, SetOptsFrom(opts, NO_OPTS, false).value, o);
    }
  }

  lemma SaysOne(clauses: seq<Clause>, o: SetOpts, p: SetOpts)
    requires AllWellFormed(clauses) && Says(clauses, o) && Says(clauses, p)
    ensures o == p
  {
    if SomeExpiry(clauses) {
      var c :| c in clauses && IsExpiry(c);
      assert o.ttl == Lifetime(c) && p.ttl == Lifetime(c);
    }
  }

  /** The order of the options does not matter. */
  lemma OptionsAreUnordered(clauses: seq<Clause>, shuffled: seq<Clause>)
    requires AllWellFormed(clauses) && multiset(clauses) == multiset(shuffled)
    ensures SetOptsFrom(TextOf(clauses), NO_OPTS, false) == SetOptsFrom(TextOf(shuffled), NO_OPTS, false)
  {
    SameMembers(clauses, shuffled);
    LoopMeans(clauses, NO_OPTS, false);
    LoopMeans(shuffled, NO_OPTS, false);
    var r := SetOptsFrom(TextOf(clauses), NO_OPTS, false);
    if r.Some? {
      SaysOne(clauses, r.value, SetOptsFrom(TextOf(shuffled), NO_OPTS, false).value);
    }
  }

  lemma SameMembers(a: seq<Clause>, b: seq<Clause>)
    requires multiset(a) == multiset(b)
    ensures forall c :: c in a <==> c in b
    ensures AllWellFormed(a) <==> AllWellFormed(b)
    ensures SomeNX(a) <==> SomeNX(b)
    ensures SomeXX(a) <==> SomeXX(b)
    ensures SomeExpiry(a) <==> SomeExpiry(b)
    ensures OneExpiry(a) <==> OneExpiry(b)
  {
    forall c ensures c in a <==> c in b {
      assert c in multiset(a) <==> c in multiset(b);
    }
  }
}
