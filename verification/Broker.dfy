/** The publish/subscribe broker and the per-connection subscription maps that mirror it. */
module Broker {
  import opened Basics
  import opened Resp
  import opened Sessions
  import opened Channels

  datatype Message = Message(channel: string, payload: string)

  /** One client's handle for one channel: `queue` is the delivery channel's buffer. */
  class Subscription {
    const channel: string
    var queue: seq<Message>
    var isOpen: bool

    constructor (channel: string)
      ensures this.channel == channel && queue == [] && isOpen
    {
      this.channel := channel;
      queue, isOpen := [], true;
    }

    /** A non-blocking send. */
    method Offer(msg: Message) returns (sent: bool)
      modifies this`queue
      ensures sent <==> |old(queue)| < BUFFER_SIZE
      ensures queue == old(queue) + if sent then [msg] else []
    {
      sent := |queue| < BUFFER_SIZE;
      if sent {
        queue := queue + [msg];
      }
    }
  }

  class Broker {
    var subs: map<string, set<Subscription>>
    /** Every subscription ever handed out. */
    ghost var issued: set<Subscription>

    function SubscribersOf(channel: string): set<Subscription>
      reads this
    {
      if channel in subs then subs[channel] else {}
    }

    ghost predicate Registered(s: Subscription)
      reads this
    {
      s in SubscribersOf(s.channel)
    }

    /** A delivery channel is open exactly while it is registered, and holds no more than its
        buffer; subscriptions are kept under their own channel; no channel keeps an empty set. */
    ghost predicate Valid()
      reads this, issued
    {
      && (forall ch :: ch in subs ==> subs[ch] != {})
      && (forall ch, s :: s in SubscribersOf(ch) ==> s in issued && s.channel == ch)
      && (forall s :: s in issued ==> (s.isOpen <==> Registered(s)) && |s.queue| <= BUFFER_SIZE)
    }

    ghost function All(): set<Subscription>
      reads this
    {
      set s | s in issued && Registered(s)
    }

    constructor ()
      ensures Valid() && subs == map[] && issued == {}
    {
      subs := map[];
      issued := {};
    }

    method Subscribe(channel: string) returns (sub: Subscription)
      requires Valid()
      modifies this
      ensures Valid() && fresh(sub) && sub.channel == channel && sub.queue == []
      ensures issued == old(issued) + {sub} && All() == old(All()) + {sub} && fresh(issued - old(issued))
    {
      sub := new Subscription(channel);
      subs := subs[channel := SubscribersOf(channel) + {sub}];
      issued := issued + {sub};
      assert forall ch :: SubscribersOf(ch) == old(SubscribersOf(ch)) + if ch == channel then {sub} else {};
      forall s | s in issued ensures s.isOpen <==> Registered(s) {
        assert s != sub ==> (Registered(s) <==> old(Registered(s)));
      }
    }

    /** Takes the subscription out and closes its delivery channel, once. */
    method Unsubscribe(sub: Subscription)
      requires Valid() && sub in issued
      modifies this, sub`isOpen
      ensures Valid() && !sub.isOpen
      ensures issued == old(issued) && All() == old(All()) - {sub}
    {
      var ch := sub.channel;
      if ch in subs && sub in subs[ch] {
        var left := subs[ch] - {sub};
        sub.isOpen := false;
        if left == {} {
          subs := subs - {ch};
        } else {
          subs := subs[ch := left];
        }
        assert forall c :: SubscribersOf(c) == old(SubscribersOf(c)) - if c == ch then {sub} else {};
      }
    }

    /** Offers the message to every current subscriber without waiting: a full buffer is
        skipped. The answer is the number of buffers that took it. */
    method Publish(channel: string, payload: string) returns (delivered: nat)
      requires Valid()
      modifies SubscribersOf(channel)
      ensures Valid() && issued == old(issued) && subs == old(subs)
      ensures forall s :: s in issued ==> s.isOpen == old(s.isOpen)
      ensures forall s :: s in SubscribersOf(channel) ==>
        s.queue == old(s.queue) + if |old(s.queue)| < BUFFER_SIZE then [Message(channel, payload)] else []
      ensures delivered == |set s | s in SubscribersOf(channel) && |old(s.queue)| < BUFFER_SIZE|
    {
      delivered := OfferAll(SubscribersOf(channel), Message(channel, payload));
    }
  }

  /** Offers a message to each member without waiting; the answer is the number that took it. */
  method OfferAll(members: set<Subscription>, msg: Message) returns (delivered: nat)
    modifies members
    ensures forall s :: s in members ==> s.isOpen == old(s.isOpen)
    ensures forall s :: s in members ==> s.queue == old(s.queue) + if |old(s.queue)| < BUFFER_SIZE then [msg] else []
    ensures delivered == |set s | s in members && |old(s.queue)| < BUFFER_SIZE|
  {
    var todo := members;
    ghost var took: set<Subscription> := {};
    delivered := 0;
    while todo != {}
      invariant todo <= members
      invariant forall s :: s in members ==> s.isOpen == old(s.isOpen)
      invariant forall s :: s in todo ==> s.queue == old(s.queue)
      invariant forall s :: s in members - todo ==>
        s.queue == old(s.queue) + if |old(s.queue)| < BUFFER_SIZE then [msg] else []
      invariant forall s :: s in took <==> s in members - todo && |old(s.queue)| < BUFFER_SIZE
      invariant delivered == |took|
      decreases todo
    {
      var s :| s in todo;
      var sent := s.Offer(msg);
      if sent {
        delivered := delivered + 1;
        took := took + {s};
      }
      todo := todo - {s};
    }
    assert took == set s | s in members && |old(s.queue)| < BUFFER_SIZE;
  }

  /** A connection's own subscriptions. */
  class ConnState {
    var subs: map<string, Subscription>

    constructor ()
      ensures subs == map[]
    {
      subs := map[];
    }
  }

  // ---- Broker and connections agree ----

  /** What every connection holds. */
  ghost function Held(conns: set<ConnState>): map<ConnState, map<string, Subscription>>
    reads conns
  {
    map c | c in conns :: c.subs
  }

  /** `all` is the disjoint union of what the connections hold, each under its own channel. */
  ghost predicate Union(all: set<Subscription>, held: map<ConnState, map<string, Subscription>>) {
    && (forall c, ch :: c in held && ch in held[c] ==> held[c][ch].channel == ch && held[c][ch] in all)
    && (forall s :: s in all ==> exists c :: c in held && s.channel in held[c] && held[c][s.channel] == s)
    && (forall c, d, ch :: c in held && d in held && c != d && ch in held[c] && ch in held[d] ==> held[c][ch] != held[d][ch])
  }

  /** The registered subscriptions are the disjoint union of what the connections hold. */
  ghost predicate Agree(b: Broker, conns: set<ConnState>)
    reads b, b.issued, conns
  {
    b.Valid() && Union(b.All(), Held(conns))
  }

  lemma UnionAdd(
      all: set<Subscription>, held: map<ConnState, map<string, Subscription>>, cs: ConnState, sub: Subscription)
    requires Union(all, held) && cs in held && sub !in all && sub.channel !in held[cs]
    ensures Union(all + {sub}, held[cs := held[cs][sub.channel := sub]])
  {
    var held' := held[cs := held[cs][sub.channel := sub]];
    forall s | s in all + {sub} ensures exists c :: c in held' && s.channel in held'[c] && held'[c][s.channel] == s {
      if s == sub {
        assert held'[cs][s.channel] == s;
      } else {
        var c: ConnState :| c in held && s.channel in held[c] && held[c][s.channel] == s;
        assert held'[c][s.channel] == s;
      }
    }
  }

  lemma UnionRemove(all: set<Subscription>, held: map<ConnState, map<string, Subscription>>, cs: ConnState, ch: string)
    requires Union(all, held) && cs in held && ch in held[cs]
    ensures Union(all - {held[cs][ch]}, held[cs := held[cs] - {ch}])
  {
    var sub, held' := held[cs][ch], held[cs := held[cs] - {ch}];
    forall s | s in all - {sub} ensures exists c :: c in held' && s.channel in held'[c] && held'[c][s.channel] == s {
      var c: ConnState :| c in held && s.channel in held[c] && held[c][s.channel] == s;
      assert c == cs ==> s.channel != ch;
      assert held'[c][s.channel] == s;
    }
  }

  method SubscribeOne(b: Broker, cs: ConnState, ch: string, ghost conns: set<ConnState>) returns (sub: Subscription)
    requires Agree(b, conns) && cs in conns && ch !in cs.subs
    modifies b, cs
    ensures Agree(b, conns) && fresh(b.issued - old(b.issued)) && b.issued >= old(b.issued)
    ensures cs.subs == old(cs.subs)[ch := sub]
  {
    ghost var all, held, had := b.All(), Held(conns), cs.subs;
    sub := b.Subscribe(ch);
    assert cs.subs == had;
    UnionAdd(all, held, cs, sub);
    Hold(b, cs, ch, sub);
    HeldMore(conns, held, cs, had[ch := sub]);
  }

  lemma HeldMore(
      conns: set<ConnState>, held: map<ConnState, map<string, Subscription>>, cs: ConnState, subs: map<string, Subscription>)
    requires cs in conns && held.Keys == conns && cs.subs == subs
    requires forall c :: c in conns && c != cs ==> c.subs == held[c]
    ensures Held(conns) == held[cs := subs]
  {}

  /** The connection keeps the subscription; the broker knows nothing of it. */
  method Hold(b: Broker, cs: ConnState, ch: string, sub: Subscription)
    requires b.Valid()
    modifies cs
    ensures b.Valid() && b.All() == old(b.All()) && b.issued == old(b.issued)
    ensures cs.subs == old(cs.subs)[ch := sub]
  {
    cs.subs := cs.subs[ch := sub];
  }

  method UnsubscribeOne(b: Broker, cs: ConnState, ch: string, ghost conns: set<ConnState>)
    requires Agree(b, conns) && cs in conns && ch in cs.subs
    modifies b, cs, b.issued
    ensures Agree(b, conns) && b.issued == old(b.issued)
    ensures cs.subs == old(cs.subs) - {ch}
  {
    ghost var all, held := b.All(), Held(conns);
    var sub := cs.subs[ch];
    assert held[cs][ch] == sub && sub in all;
    b.Unsubscribe(sub);
    UnionRemove(all, held, cs, ch);
    cs.subs := cs.subs - {ch};
    assert Held(conns) == held[cs := held[cs] - {ch}];
  }

  /** SUBSCRIBE: one new subscription for each channel not yet held. */
  method CmdSubscribe(b: Broker, cs: ConnState, channels: seq<string>, ghost conns: set<ConnState>)
    requires Agree(b, conns) && cs in conns
    modifies b, cs
    ensures Agree(b, conns) && fresh(b.issued - old(b.issued))
    ensures cs.subs.Keys == old(cs.subs.Keys) + set ch | ch in channels
    ensures forall k :: k in old(cs.subs) ==> cs.subs[k] == old(cs.subs[k])
  {
    for i := 0 to |channels|
      invariant Agree(b, conns) && fresh(b.issued - old(b.issued))
      invariant forall k :: k in cs.subs <==> k in old(cs.subs) || k in channels[..i]
      invariant forall k :: k in old(cs.subs) ==> k in cs.subs && cs.subs[k] == old(cs.subs[k])
    {
      assert channels[..i + 1] == channels[..i] + [channels[i]];
      if channels[i] !in cs.subs {
        var sub := SubscribeOne(b, cs, channels[i], conns);
      }
    }
    assert channels[..|channels|] == channels;
  }

  /** UNSUBSCRIBE: the named channels, or all of them when none is named. */
  method CmdUnsubscribe(b: Broker, cs: ConnState, channels: seq<string>, ghost conns: set<ConnState>)
    requires Agree(b, conns) && cs in conns
    modifies b, cs, b.issued
    ensures Agree(b, conns) && b.issued == old(b.issued)
    ensures cs.subs == if channels == [] then map[] else old(cs.subs) - set ch | ch in channels
  {
    if |channels| == 0 {
      DropAll(b, cs, conns);
      return;
    }
    for i := 0 to |channels|
      invariant Agree(b, conns) && b.issued == old(b.issued)
      invariant forall k :: k in cs.subs <==> k in old(cs.subs) && k !in channels[..i]
      invariant forall k :: k in cs.subs ==> cs.subs[k] == old(cs.subs[k])
    {
      assert channels[..i + 1] == channels[..i] + [channels[i]];
      if channels[i] in cs.subs {
        UnsubscribeOne(b, cs, channels[i], conns);
      }
    }
    assert channels[..|channels|] == channels;
  }

  /** Every subscription of a connection is given up, in some order. */
  method DropAll(b: Broker, cs: ConnState, ghost conns: set<ConnState>)
    requires Agree(b, conns) && cs in conns
    modifies b, cs, b.issued
    ensures Agree(b, conns) && b.issued == old(b.issued)
    ensures cs.subs == map[]
  {
    while cs.subs.Keys != {}
      invariant Agree(b, conns) && b.issued == old(b.issued)
      decreases cs.subs.Keys
    {
      var ch :| ch in cs.subs.Keys;
      UnsubscribeOne(b, cs, ch, conns);
    }
    assert cs.subs == map[];
  }

  /** Disconnecting drops all subscriptions: the broker forgets the connection. */
  method Disconnect(b: Broker, cs: ConnState, ghost conns: set<ConnState>)
    requires Agree(b, conns) && cs in conns
    modifies b, cs, b.issued
    ensures Agree(b, conns - {cs}) && b.issued == old(b.issued) && cs.subs == map[]
  {
    DropAll(b, cs, conns);
    Forget(b.All(), Held(conns), cs);
    assert Held(conns - {cs}) == Held(conns) - {cs};
  }

  lemma Forget(all: set<Subscription>, held: map<ConnState, map<string, Subscription>>, cs: ConnState)
    requires Union(all, held) && cs in held && held[cs] == map[]
    ensures Union(all, held - {cs})
  {
    var held' := held - {cs};
    forall s | s in all ensures exists c :: c in held' && s.channel in held'[c] && held'[c][s.channel] == s {
      var c: ConnState :| c in held && s.channel in held[c] && held[c][s.channel] == s;
      assert c in held';
    }
  }

  lemma UnionConnect(all: set<Subscription>, held: map<ConnState, map<string, Subscription>>, cs: ConnState)
    requires Union(all, held) && cs !in held
    ensures Union(all, held[cs := map[]])
  {
    var held' := held[cs := map[]];
    forall s | s in all ensures exists c :: c in held' && s.channel in held'[c] && held'[c][s.channel] == s {
      var c: ConnState :| c in held && s.channel in held[c] && held[c][s.channel] == s;
      assert held'[c][s.channel] == s;
    }
  }

  /** A new connection joins with nothing in hand. */
  method Connect(b: Broker, ghost conns: set<ConnState>) returns (cs: ConnState)
    requires Agree(b, conns)
    ensures fresh(cs) && cs.subs == map[] && Agree(b, conns + {cs})
  {
    ghost var held := Held(conns);
    cs := new ConnState();
    UnionConnect(b.All(), held, cs);
    assert Held(conns + {cs}) == held[cs := map[]];
  }

  // ---- Whole runs ----

  /** What a client does; connections are numbered in the order they are made. */
  datatype Action =
    | Join
    | Subscribes(conn: nat, channels: seq<string>)
    | Unsubscribes(conn: nat, channels: seq<string>)
    | Leaves(conn: nat)

  /** The channels each connection asked for, in the end: None once it has left. */
  function Wanted(actions: seq<Action>): seq<Option<set<string>>> {
    if actions == [] then [] else Then(Wanted(actions[..|actions| - 1]), actions[|actions| - 1])
  }

  function Then(wanted: seq<Option<set<string>>>, action: Action): seq<Option<set<string>>> {
    match action
    case Join => wanted + [Some({})]
    case Subscribes(c, channels) =>
      if Here(wanted, c) then wanted[c := Some(wanted[c].value + Elements(channels))] else wanted
    case Unsubscribes(c, channels) =>
      if Here(wanted, c)
      then wanted[c := Some(if channels == [] then {} else wanted[c].value - Elements(channels))] else wanted
    case Leaves(c) => if Here(wanted, c) then wanted[c := None] else wanted
  }

  /** What the records of one connection ask of the broker. */
  function Asked(records: seq<Command>): seq<Action> {
    if records == [] then [Join] else
    var n := |records| - 1;
    Asked(records[..n]) + AskedBy(records[n])
  }

  function AskedBy(args: Command): seq<Action> {
    if Says(args, SUBSCRIBE) && |args| > 1 then [Subscribes(0, args[1..])]
    else if Says(args, UNSUBSCRIBE) then [Unsubscribes(0, args[1..])]
    else []
  }

  /** The channels a connection holds by its records are those the broker comes to know it by. */
  lemma {:induction false} WantedIsHeld(records: seq<Command>)
    ensures Wanted(Asked(records)) == [Some(SubsOf(records))]
  {
    if records == [] {
      assert [Join][..0] == [];
    } else {
      var n := |records| - 1;
      var before, more := Asked(records[..n]), AskedBy(records[n]);
      WantedIsHeld(records[..n]);
      if more == [] {
        assert before + more == before;
      } else {
        assert (before + more)[..|before|] == before && (before + more)[|before|] == more[0];
      }
      AskedMeans([Some(SubsOf(records[..n]))], SubsOf(records[..n]), records[n]);
    }
  }

  lemma AskedMeans(wanted: seq<Option<set<string>>>, subs: set<string>, args: Command)
    requires wanted == [Some(subs)]
    ensures AskedBy(args) == [] ==> SubsAfter(subs, args) == subs
    ensures AskedBy(args) != [] ==> Then(wanted, AskedBy(args)[0]) == [Some(SubsAfter(subs, args))]
  {
    if Says(args, SUBSCRIBE) && |args| == 1 {
      assert Elements(args[1..]) == {};
    }
  }

  predicate Here(wanted: seq<Option<set<string>>>, c: nat) {
    c < |wanted| && wanted[c].Some?
  }

  /** Connection i is among those present exactly when it has not left, and then it holds a
      subscription for each channel it wants and no other. */
  ghost predicate Serves(conns: seq<ConnState>, present: set<ConnState>, wanted: seq<Option<set<string>>>)
    reads conns
  {
    && |conns| == |wanted|
    && (forall i, j :: 0 <= i < j < |conns| ==> conns[i] != conns[j])
    && (forall c :: c in present ==> c in conns)
    && (forall i :: 0 <= i < |conns| ==> (conns[i] in present <==> wanted[i].Some?))
    && (forall i :: 0 <= i < |conns| && wanted[i].Some? ==> conns[i].subs.Keys == wanted[i].value)
  }

  /** One action; a connection that has left does nothing more. */
  method Serve(
      b: Broker, conns: seq<ConnState>, present: set<ConnState>, action: Action, ghost wanted: seq<Option<set<string>>>)
    returns (conns': seq<ConnState>, present': set<ConnState>)
    requires Serves(conns, present, wanted) && Agree(b, present)
    modifies b, b.issued, present
    ensures Serves(conns', present', Then(wanted, action)) && Agree(b, present')
    ensures fresh(b.issued - old(b.issued)) && fresh(present' - present)
  {
    conns', present' := conns, present;
    match action {
      case Join =>
        var cs := Connect(b, present);
        conns', present' := conns + [cs], present + {cs};
      case Subscribes(c, channels) =>
        if c < |conns| && conns[c] in present {
          CmdSubscribe(b, conns[c], channels, present);
        }
      case Unsubscribes(c, channels) =>
        if c < |conns| && conns[c] in present {
          CmdUnsubscribe(b, conns[c], channels, present);
        }
      case Leaves(c) =>
        if c < |conns| && conns[c] in present {
          Disconnect(b, conns[c], present);
          present' := present - {conns[c]};
        }
    }
  }

  ghost predicate SomeoneWants(wanted: seq<Option<set<string>>>, ch: string) {
    exists i :: 0 <= i < |wanted| && wanted[i].Some? && ch in wanted[i].value
  }

  /** The broker knows a channel exactly when some connection present wants it. */
  lemma KnownChannels(
      b: Broker, conns: seq<ConnState>, present: set<ConnState>, wanted: seq<Option<set<string>>>, ch: string)
    requires Serves(conns, present, wanted) && Agree(b, present)
    ensures ch in b.subs <==> SomeoneWants(wanted, ch)
  {
    var held := Held(present);
    if ch in b.subs {
      var s: Subscription :| s in b.subs[ch];
      assert s in b.SubscribersOf(ch) && s in b.All();
      var c: ConnState :| c in held && s.channel in held[c] && held[c][s.channel] == s;
      var i :| 0 <= i < |conns| && conns[i] == c;
      assert ch in wanted[i].value;
    }
    if i :| 0 <= i < |wanted| && wanted[i].Some? && ch in wanted[i].value {
      var c := conns[i];
      assert ch in held[c] && held[c][ch] in b.All();
      assert held[c][ch] in b.SubscribersOf(ch);
    }
  }

  /** After any run of connections coming, subscribing, unsubscribing and going, each holds
      what it asked for, and the broker what they hold. */
  method RunConnections(actions: seq<Action>) returns (b: Broker, conns: seq<ConnState>, present: set<ConnState>)
    ensures Serves(conns, present, Wanted(actions)) && Agree(b, present)
    ensures forall ch :: ch in b.subs <==> SomeoneWants(Wanted(actions), ch)
  {
    b := new Broker();
    conns, present := [], {};
    for i := 0 to |actions|
      invariant fresh(b) && fresh(b.issued) && fresh(present)
      invariant Serves(conns, present, Wanted(actions[..i])) && Agree(b, present)
    {
      assert actions[..i + 1][..i] == actions[..i];
      conns, present := Serve(b, conns, present, actions[i], Wanted(actions[..i]));
    }
    assert actions[..|actions|] == actions;
    forall ch ensures ch in b.subs <==> SomeoneWants(Wanted(actions), ch) {
      KnownChannels(b, conns, present, Wanted(actions), ch);
    }
  }
}
