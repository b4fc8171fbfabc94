/** The subscribe mode of a connection, and of the one connection a whole log is replayed
    through: while it holds a subscription, every keyspace command is turned away. */
module Sessions {
  import opened Basics
  import opened Resp
  import opened Commands
  import opened Words

  const SUBSCRIBE: string := "SUBSCRIBE"
  const UNSUBSCRIBE: string := "UNSUBSCRIBE"

  predicate Says(args: Command, word: string) {
    args != [] && Upper(args[0]) == word
  }

  /** The channels a connection holds after a command. */
  function SubsAfter(subs: set<string>, args: Command): set<string> {
    if Says(args, SUBSCRIBE) then subs + Elements(args[1..])
    else if Says(args, UNSUBSCRIBE) then if |args| == 1 then {} else subs - Elements(args[1..])
    else subs
  }

  /** What a connection in subscribe mode may still say. */
  predicate AllowedWhileSubscribed(args: Command) {
    args == [] || Says(args, SUBSCRIBE) || Says(args, UNSUBSCRIBE) || Says(args, "PING") || Says(args, "QUIT")
  }

  /** The channels held once `records` have gone through one connection. */
  function SubsOf(records: seq<Command>): set<string> {
    if records == [] then {} else SubsAfter(SubsOf(records[..|records| - 1]), records[|records| - 1])
  }

  /** The records as the keyspace hears them: one that arrives in subscribe mode does nothing,
      as the empty command does. */
  function Heard(records: seq<Command>): (r: seq<Command>)
    ensures |r| == |records|
  {
    if records == [] then [] else
    var n := |records| - 1;
    Heard(records[..n]) + [if SubsOf(records[..n]) == {} then records[n] else []]
  }

  // ---- What a connection holds ----

  /** The command asks for the channel. */
  predicate Takes(args: Command, ch: string) {
    Calls(args, "SUBSCRIBE") && ch in args[1..]
  }

  /** The command gives the channel up, by name or with all the others. */
  predicate Drops(args: Command, ch: string) {
    Calls(args, "UNSUBSCRIBE") && (|args| == 1 || ch in args[1..])
  }

  lemma SaysCalls(args: Command, word: string)
    requires HasNoLower(word)
    ensures Says(args, word) <==> Calls(args, word)
  {
    if args != [] {
      FoldingSpells(args[0], word);
    }
  }

  /** What one command does to one channel. */
  lemma SubsAfterMeans(subs: set<string>, args: Command, ch: string)
    ensures ch in SubsAfter(subs, args) <==> Takes(args, ch) || (ch in subs && !Drops(args, ch))
  {
    SaysCalls(args, SUBSCRIBE);
    SaysCalls(args, UNSUBSCRIBE);
  }

  /** Command `i` asks for the channel, and none after it gives it up. */
  ghost predicate HoldsSince(records: seq<Command>, i: nat, ch: string)
    requires i < |records|
  {
    Takes(records[i], ch) && forall j :: i < j < |records| ==> !Drops(records[j], ch)
  }

  ghost predicate IsHeld(records: seq<Command>, ch: string) {
    exists i :: 0 <= i < |records| && HoldsSince(records, i, ch)
  }

  lemma HeldSnoc(records: seq<Command>, c: Command, ch: string)
    ensures IsHeld(records + [c], ch) <==> Takes(c, ch) || (IsHeld(records, ch) && !Drops(c, ch))
  {
    var all, n := records + [c], |records|;
    if Takes(c, ch) {
      assert HoldsSince(all, n, ch);
    }
    if IsHeld(records, ch) && !Drops(c, ch) {
      var i :| 0 <= i < n && HoldsSince(records, i, ch);
      assert HoldsSince(all, i, ch);
    }
    if IsHeld(all, ch) && !Takes(c, ch) {
      var i :| 0 <= i < |all| && HoldsSince(all, i, ch);
      assert i < n && !Drops(all[n], ch);
      forall j | i < j < n ensures !Drops(records[j], ch) {
        assert all[j] == records[j];
      }
      assert HoldsSince(records, i, ch);
    }
  }

  /** A connection holds a channel if and only if some SUBSCRIBE asked for it and no later
      UNSUBSCRIBE gave it up. */
  lemma {:induction false} HeldChannels(records: seq<Command>, ch: string)
    ensures ch in SubsOf(records) <==> IsHeld(records, ch)
  {
    if records != [] {
      var n := |records| - 1;
      HeldChannels(records[..n], ch);
      HeldSnoc(records[..n], records[n], ch);
      SubsAfterMeans(SubsOf(records[..n]), records[n], ch);
      assert records[..n] + [records[n]] == records;
    }
  }

  /** So a command is heard if and only if the connection holds nothing when it comes. */
  lemma HeardExactly(records: seq<Command>, c: Command)
    requires c != []
    ensures Heard(records + [c])[|records|] == c <==> forall ch :: !IsHeld(records, ch)
  {
    HeardSnoc(records, c);
    forall ch ensures ch in SubsOf(records) <==> IsHeld(records, ch) {
      HeldChannels(records, ch);
    }
  }

  /** In subscribe mode these words are let through and no others. */
  lemma AllowedWords(args: Command)
    ensures AllowedWhileSubscribed(args) <==>
      args == [] || Calls(args, "SUBSCRIBE") || Calls(args, "UNSUBSCRIBE") || Calls(args, "PING") || Calls(args, "QUIT")
  {
    SaysCalls(args, SUBSCRIBE);
    SaysCalls(args, UNSUBSCRIBE);
    SaysCalls(args, "PING");
    SaysCalls(args, "QUIT");
  }

  /** A command that leaves subscribe mode as it is. */
  predicate Plain(args: Command) {
    !Says(args, SUBSCRIBE) && !Says(args, UNSUBSCRIBE)
  }

  ghost predicate AllPlain(records: seq<Command>) {
    forall c :: c in records ==> Plain(c)
  }

  lemma HeardSnoc(records: seq<Command>, c: Command)
    ensures Heard(records + [c]) == Heard(records) + [if SubsOf(records) == {} then c else []]
    ensures SubsOf(records + [c]) == SubsAfter(SubsOf(records), c)
  {
    assert (records + [c])[..|records|] == records;
  }

  lemma {:induction false} HeardPrefix(records: seq<Command>, k: nat)
    requires k <= |records|
    ensures Heard(records)[..k] == Heard(records[..k])
  {
    if k == |records| {
      assert records[..k] == records;
    } else {
      var n := |records| - 1;
      HeardPrefix(records[..n], k);
      assert records[..n][..k] == records[..k];
    }
  }

  /** Outside subscribe mode plain records are heard as they are, and leave the mode so. */
  lemma {:induction false} PlainHeard(records: seq<Command>, more: seq<Command>)
    requires SubsOf(records) == {} && AllPlain(more)
    ensures Heard(records + more) == Heard(records) + more && SubsOf(records + more) == {}
  {
    if more == [] {
      assert records + more == records;
    } else {
      var n := |more| - 1;
      PlainHeard(records, more[..n]);
      HeardSnoc(records + more[..n], more[n]);
      assert more[n] in more;
      LastApart(records, more);
      LastApart(Heard(records), more);
    }
  }

  lemma AllPlainHeard(records: seq<Command>)
    requires AllPlain(records)
    ensures Heard(records) == records && SubsOf(records) == {}
  {
    PlainHeard([], records);
    assert [] + records == records;
  }

  /** What follows records that leave the connection outside subscribe mode is heard as if it
      came alone. */
  lemma {:induction false} HeardAfter(records: seq<Command>, more: seq<Command>)
    requires SubsOf(records) == {}
    ensures Heard(records + more) == Heard(records) + Heard(more) && SubsOf(records + more) == SubsOf(more)
  {
    if more == [] {
      assert records + more == records;
      assert Heard(records) + [] == Heard(records);
    } else {
      var n := |more| - 1;
      HeardAfter(records, more[..n]);
      HeardSnoc(records + more[..n], more[n]);
      LastApart(records, more);
      LastApart(Heard(records), Heard(more));
    }
  }

  function Silence(n: nat): (r: seq<Command>)
    ensures |r| == n
  {
    seq(n, _ => [])
  }

  lemma SilenceSnoc(records: seq<Command>, n: nat)
    ensures records + Silence(n + 1) == records + Silence(n) + [[]]
  {}

  /** In subscribe mode nothing plain is heard. */
  lemma {:induction false} PlainUnheard(records: seq<Command>, more: seq<Command>)
    requires SubsOf(records) != {} && AllPlain(more)
    ensures Heard(records + more) == Heard(records) + Silence(|more|) && SubsOf(records + more) == SubsOf(records)
  {
    if more == [] {
      assert records + more == records;
      assert Heard(records) + Silence(0) == Heard(records);
    } else {
      var n := |more| - 1;
      PlainUnheard(records, more[..n]);
      HeardSnoc(records + more[..n], more[n]);
      assert more[n] in more;
      LastApart(records, more);
      SilenceSnoc(Heard(records), n);
    }
  }

  lemma {:induction false} HeardFrom(records: seq<Command>, c: Command)
    requires c in Heard(records)
    ensures c == [] || c in records
  {
    var n := |records| - 1;
    if c in Heard(records[..n]) {
      HeardFrom(records[..n], c);
    }
  }

  /** A command the keyspace understands is plain. */
  lemma NamedIsPlain(args: Command)
    requires args != [] && NameOf(args[0]) != NameOther
    ensures Plain(args)
  {}

  lemma SubscribeReads()
    ensures Upper("SUBSCRIBE") == SUBSCRIBE && NameOf("SUBSCRIBE") == NameOther
  {
    assert Upper("SUBSCRIBE") == "SUBSCRIBE";
  }
}
