/** Publish and subscribe as interleaved steps: a publish takes a snapshot of the subscribers
    and then makes one non-blocking send for each, while others subscribe, unsubscribe,
    receive and publish. A send to a channel closed in between panics: it ends the run, so
    it is no step. */
module PubSubSteps {

  import opened Channels

  /** `publication` numbers publishes in the order they took their snapshots. */
  datatype Post = Post(publication: nat, channel: string, payload: string)

  datatype Mailbox = Mailbox(channel: string, buffer: seq<Post>, received: seq<Post>, isOpen: bool)

  /** A publish: `todo` are the snapshot's subscribers not tried yet, `took` those whose buffer
      took the message, `delivered` the running count it will return. */
  datatype Publication = Publication(publisher: nat, message: Post, todo: set<nat>, took: set<nat>, delivered: nat)

  /** Subscriptions and publications are numbered in the order they are made. */
  datatype State = State(subs: seq<Mailbox>, registered: map<string, set<nat>>, pubs: seq<Publication>)

  datatype Step =
    | Subscribe(channel: string)
    | Unsubscribe(id: nat)
    | Publish(publisher: nat, channel: string, payload: string)
    | Send(p: nat, id: nat)
    | Receive(id: nat)

  function SubscribersOf(registered: map<string, set<nat>>, channel: string): set<nat> {
    if channel in registered then registered[channel] else {}
  }

  /** The set without `id`, and without its channel when that leaves nobody. */
  function Unregister(registered: map<string, set<nat>>, channel: string, id: nat): map<string, set<nat>> {
    var left := SubscribersOf(registered, channel) - {id};
    if left == {} then registered - {channel} else registered[channel := left]
  }

  /** A connection runs one command at a time: it publishes only when its last publish is over. */
  ghost predicate Idle(s: State, publisher: nat) {
    forall p :: 0 <= p < |s.pubs| && s.pubs[p].publisher == publisher ==> s.pubs[p].todo == {}
  }

  ghost predicate Next(s: State, step: Step, s': State) {
    match step
    case Subscribe(channel) =>
      s' == s.(
        subs := s.subs + [Mailbox(channel, [], [], true)],
        registered := s.registered[channel := SubscribersOf(s.registered, channel) + {|s.subs|}])
    case Unsubscribe(id) =>
      && id < |s.subs|
      && s' == (
           if id in SubscribersOf(s.registered, s.subs[id].channel) then
             s.(subs := s.subs[id := s.subs[id].(isOpen := false)],
                registered := Unregister(s.registered, s.subs[id].channel, id))
           else s)
    case Publish(publisher, channel, payload) =>
      && Idle(s, publisher)
      && s' == s.(pubs := s.pubs + [
           Publication(publisher, Post(|s.pubs|, channel, payload), SubscribersOf(s.registered, channel), {}, 0)])
    case Send(p, id) =>
      && p < |s.pubs| && id in s.pubs[p].todo && id < |s.subs| && s.subs[id].isOpen
      && var pub, sub := s.pubs[p], s.subs[id];
         s' == (
           if |sub.buffer| < BUFFER_SIZE then
             s.(subs := s.subs[id := sub.(buffer := sub.buffer + [pub.message])],
                pubs := s.pubs[p := pub.(todo := pub.todo - {id}, took := pub.took + {id}, delivered := pub.delivered + 1)])
           else
             s.(pubs := s.pubs[p := pub.(todo := pub.todo - {id})]))
    case Receive(id) =>
      && id < |s.subs| && s.subs[id].buffer != []
      && var sub := s.subs[id];
         s' == s.(subs := s.subs[id := sub.(received := sub.received + [sub.buffer[0]], buffer := sub.buffer[1..])])
  }

  ghost predicate Run(ss: seq<State>, steps: seq<Step>) {
    && |ss| == |steps| + 1
    && ss[0] == State([], map[], [])
    && forall i :: 0 <= i < |steps| ==> Next(ss[i], steps[i], ss[i + 1])
  }

  // ---- Invariant ----

  /** Everything a subscription has been given so far, received or still buffered. */
  function Stream(sub: Mailbox): seq<Post> {
    sub.received + sub.buffer
  }

  predicate OpenOn(subs: seq<Mailbox>, id: nat, channel: string) {
    id < |subs| && subs[id].channel == channel && subs[id].isOpen
  }

  /** The registered subscriptions are the open ones, and no channel keeps an empty set. */
  ghost predicate RegisteredOk(s: State) {
    && (forall ch :: ch in s.registered ==> s.registered[ch] != {})
    && (forall ch, id :: id in SubscribersOf(s.registered, ch) <==> OpenOn(s.subs, id, ch))
  }

  /** A message given to `id` was published to its channel, and counted. */
  ghost predicate GivenOk(pubs: seq<Publication>, id: nat, channel: string, m: Post) {
    && m.publication < |pubs| && pubs[m.publication].message == m
    && m.channel == channel && id in pubs[m.publication].took
  }

  ghost predicate Ordered(pubs: seq<Publication>, stream: seq<Post>)
    requires forall i :: 0 <= i < |stream| ==> stream[i].publication < |pubs|
  {
    forall i, j :: 0 <= i < j < |stream| && pubs[stream[i].publication].publisher == pubs[stream[j].publication].publisher
      ==> stream[i].publication < stream[j].publication
  }

  ghost predicate SubOk(s: State, id: nat)
    requires id < |s.subs|
  {
    var stream := Stream(s.subs[id]);
    && |s.subs[id].buffer| <= BUFFER_SIZE
    && (forall i :: 0 <= i < |stream| ==> GivenOk(s.pubs, id, s.subs[id].channel, stream[i]))
    && Ordered(s.pubs, stream)
  }

  ghost predicate PubOk(s: State, p: nat)
    requires p < |s.pubs|
  {
    var pub := s.pubs[p];
    && pub.message.publication == p
    && pub.todo !! pub.took && pub.delivered == |pub.took|
    && (forall id :: id in pub.todo ==> id < |s.subs| && s.subs[id].channel == pub.message.channel)
    && (forall id :: id in pub.took ==> id < |s.subs| && pub.message in Stream(s.subs[id]))
    && (forall q :: p < q < |s.pubs| && s.pubs[q].publisher == pub.publisher ==> pub.todo == {})
  }

  ghost predicate Inv(s: State) {
    && RegisteredOk(s)
    && (forall id :: 0 <= id < |s.subs| ==> SubOk(s, id))
    && (forall p :: 0 <= p < |s.pubs| ==> PubOk(s, p))
  }

  // ---- Every step keeps it ----

  /** Steps that open and close nothing keep the registrations right. */
  lemma SameOpen(s: State, s': State)
    requires RegisteredOk(s) && s'.registered == s.registered && |s'.subs| == |s.subs|
    requires forall id :: 0 <= id < |s.subs| ==>
      s'.subs[id].channel == s.subs[id].channel && s'.subs[id].isOpen == s.subs[id].isOpen
    ensures RegisteredOk(s')
  {
    forall ch, id ensures id in SubscribersOf(s'.registered, ch) <==> OpenOn(s'.subs, id, ch) {
      assert id in SubscribersOf(s.registered, ch) <==> OpenOn(s.subs, id, ch);
    }
  }

  lemma SubscribeRegisters(s: State, channel: string, s': State)
    requires RegisteredOk(s) && Next(s, Subscribe(channel), s')
    ensures RegisteredOk(s')
  {
    forall ch, id ensures id in SubscribersOf(s'.registered, ch) <==> OpenOn(s'.subs, id, ch) {
      assert id in SubscribersOf(s.registered, ch) <==> OpenOn(s.subs, id, ch);
    }
  }

  lemma UnsubscribeUnregisters(s: State, id: nat, s': State)
    requires RegisteredOk(s) && Next(s, Unsubscribe(id), s')
    ensures RegisteredOk(s')
  {
    forall ch, j ensures j in SubscribersOf(s'.registered, ch) <==> OpenOn(s'.subs, j, ch) {
      assert j in SubscribersOf(s.registered, ch) <==> OpenOn(s.subs, j, ch);
      assert id in SubscribersOf(s.registered, s.subs[id].channel) <==> OpenOn(s.subs, id, s.subs[id].channel);
    }
  }

  lemma SubscribeKeepsInv(s: State, channel: string, s': State)
    requires Inv(s) && Next(s, Subscribe(channel), s')
    ensures Inv(s')
  {
    SubscribeRegisters(s, channel, s');
    forall id | 0 <= id < |s'.subs| ensures SubOk(s', id) {
      if id < |s.subs| { assert SubOk(s, id); }
    }
    forall p | 0 <= p < |s'.pubs| ensures PubOk(s', p) {
      assert PubOk(s, p);
    }
  }

  lemma UnsubscribeKeepsInv(s: State, id: nat, s': State)
    requires Inv(s) && Next(s, Unsubscribe(id), s')
    ensures Inv(s')
  {
    UnsubscribeUnregisters(s, id, s');
    forall j | 0 <= j < |s'.subs| ensures SubOk(s', j) {
      assert SubOk(s, j);
      assert Stream(s'.subs[j]) == Stream(s.subs[j]);
    }
    forall p | 0 <= p < |s'.pubs| ensures PubOk(s', p) {
      assert PubOk(s, p);
    }
  }

  lemma PublishTodo(s: State, channel: string)
    requires RegisteredOk(s)
    ensures forall id :: id in SubscribersOf(s.registered, channel) ==> OpenOn(s.subs, id, channel)
  {}

  lemma PublishKeepsInv(s: State, publisher: nat, channel: string, payload: string, s': State)
    requires Inv(s) && Next(s, Publish(publisher, channel, payload), s')
    ensures Inv(s')
  {
    SameOpen(s, s');
    PublishTodo(s, channel);
    forall id | 0 <= id < |s'.subs| ensures SubOk(s', id) {
      assert SubOk(s, id);
      var stream := Stream(s.subs[id]);
      forall i | 0 <= i < |stream| ensures GivenOk(s'.pubs, id, s'.subs[id].channel, stream[i]) {
        assert GivenOk(s.pubs, id, s.subs[id].channel, stream[i]);
      }
    }
    forall p | 0 <= p < |s'.pubs| ensures PubOk(s', p) {
      if p < |s.pubs| { assert PubOk(s, p); }
    }
  }

  lemma ReceiveKeepsInv(s: State, id: nat, s': State)
    requires Inv(s) && Next(s, Receive(id), s')
    ensures Inv(s')
  {
    SameOpen(s, s');
    assert Stream(s'.subs[id]) == Stream(s.subs[id]);
    forall j | 0 <= j < |s'.subs| ensures SubOk(s', j) {
      assert SubOk(s, j);
    }
    forall p | 0 <= p < |s'.pubs| ensures PubOk(s', p) {
      assert PubOk(s, p);
    }
  }

  /** A send adds its message to the end of one stream, or to none if that buffer is full. */
  lemma SendStream(s: State, p: nat, id: nat, s': State, j: nat)
    requires Next(s, Send(p, id), s') && j < |s.subs|
    ensures |s'.subs| == |s.subs| && s'.subs[j].channel == s.subs[j].channel
    ensures Stream(s'.subs[j]) ==
      if j == id && |s.subs[id].buffer| < BUFFER_SIZE then Stream(s.subs[j]) + [s.pubs[p].message] else Stream(s.subs[j])
    ensures |s.subs[j].buffer| <= BUFFER_SIZE ==> |s'.subs[j].buffer| <= BUFFER_SIZE
  {}

  /** A send changes one publication, and in it only who is left to try and who took it. */
  lemma SendPublications(s: State, p: nat, id: nat, s': State, q: nat)
    requires Next(s, Send(p, id), s') && q < |s.pubs|
    ensures |s'.pubs| == |s.pubs|
    ensures s'.pubs[q].message == s.pubs[q].message && s'.pubs[q].publisher == s.pubs[q].publisher
    ensures s'.pubs[q].todo == if q == p then s.pubs[q].todo - {id} else s.pubs[q].todo
    ensures s'.pubs[q].took ==
      if q == p && |s.subs[id].buffer| < BUFFER_SIZE then s.pubs[q].took + {id} else s.pubs[q].took
  {}

  lemma SendKeepsGiven(s: State, p: nat, id: nat, s': State, j: nat, channel: string, m: Post)
    requires Next(s, Send(p, id), s') && GivenOk(s.pubs, j, channel, m)
    ensures GivenOk(s'.pubs, j, channel, m)
  {
    SendPublications(s, p, id, s', m.publication);
  }

  lemma SendKeepsSub(s: State, p: nat, id: nat, s': State, j: nat)
    requires Inv(s) && Next(s, Send(p, id), s') && j < |s.subs|
    ensures |s'.subs| == |s.subs| && SubOk(s', j)
  {
    var stream, stream' := Stream(s.subs[j]), Stream(s'.subs[j]);
    assert SubOk(s, j) && PubOk(s, p);
    SendStream(s, p, id, s', j);
    SendPublications(s, p, id, s', p);
    forall i | 0 <= i < |stream'| ensures GivenOk(s'.pubs, j, s'.subs[j].channel, stream'[i]) {
      if i < |stream| {
        SendKeepsGiven(s, p, id, s', j, s.subs[j].channel, stream[i]);
      }
    }
    SendKeepsOrder(s, p, id, s', j);
  }

  lemma SendKeepsOrder(s: State, p: nat, id: nat, s': State, j: nat)
    requires Next(s, Send(p, id), s') && j < |s.subs| && |s'.subs| == |s.subs|
    requires SubOk(s, j) && PubOk(s, p)
    requires forall i :: 0 <= i < |Stream(s'.subs[j])| ==> Stream(s'.subs[j])[i].publication < |s'.pubs|
    ensures Ordered(s'.pubs, Stream(s'.subs[j]))
  {
    var stream, stream' := Stream(s.subs[j]), Stream(s'.subs[j]);
    SendStream(s, p, id, s', j);
    forall i, k | 0 <= i < k < |stream'|
        && s'.pubs[stream'[i].publication].publisher == s'.pubs[stream'[k].publication].publisher
      ensures stream'[i].publication < stream'[k].publication
    {
      assert GivenOk(s.pubs, j, s.subs[j].channel, stream[i]);
      SendPublications(s, p, id, s', stream[i].publication);
      if k < |stream| {
        SendPublications(s, p, id, s', stream[k].publication);
      }
    }
  }

  lemma SendKeepsPub(s: State, p: nat, id: nat, s': State, q: nat)
    requires Inv(s) && Next(s, Send(p, id), s') && q < |s.pubs|
    ensures |s'.pubs| == |s.pubs| && PubOk(s', q)
  {
    assert PubOk(s, q);
    SendPublications(s, p, id, s', q);
    forall j | j in s'.pubs[q].took ensures j < |s'.subs| && s'.pubs[q].message in Stream(s'.subs[j]) {
      SendStream(s, p, id, s', j);
    }
    forall r | q < r < |s'.pubs| && s'.pubs[r].publisher == s'.pubs[q].publisher ensures s'.pubs[q].todo == {} {
      SendPublications(s, p, id, s', r);
    }
    forall j | j in s'.pubs[q].todo ensures j < |s'.subs| && s'.subs[j].channel == s'.pubs[q].message.channel {
      SendStream(s, p, id, s', j);
    }
  }

  lemma SendKeepsInv(s: State, p: nat, id: nat, s': State)
    requires Inv(s) && Next(s, Send(p, id), s')
    ensures Inv(s')
  {
    SameOpen(s, s');
    forall j | 0 <= j < |s'.subs| ensures SubOk(s', j) { SendKeepsSub(s, p, id, s', j); }
    forall q | 0 <= q < |s'.pubs| ensures PubOk(s', q) { SendKeepsPub(s, p, id, s', q); }
  }

  lemma NextKeepsInv(s: State, step: Step, s': State)
    requires Inv(s) && Next(s, step, s')
    ensures Inv(s')
  {
    match step
    case Subscribe(channel) => SubscribeKeepsInv(s, channel, s');
    case Unsubscribe(id) => UnsubscribeKeepsInv(s, id, s');
    case Publish(publisher, channel, payload) => PublishKeepsInv(s, publisher, channel, payload, s');
    case Send(p, id) => SendKeepsInv(s, p, id, s');
    case Receive(id) => ReceiveKeepsInv(s, id, s');
  }

  lemma {:induction false} RunKeepsInv(ss: seq<State>, steps: seq<Step>, i: nat)
    requires Run(ss, steps) && i <= |steps|
    ensures Inv(ss[i])
  {
    if i > 0 {
      RunKeepsInv(ss, steps, i - 1);
      assert Next(ss[i - 1], steps[i - 1], ss[i - 1 + 1]);
      NextKeepsInv(ss[i - 1], steps[i - 1], ss[i]);
    }
  }

  // ---- What a subscriber and a publisher can rely on ----

  /** For a subscriber, in every run: its buffer never holds more than 64 messages; whatever
      it was given was published to its own channel; each publish reached it at most once;
      and the messages of one publisher came in the order they were published. */
  lemma SubscriberGuarantee(ss: seq<State>, steps: seq<Step>, id: nat)
    requires Run(ss, steps) && id < |ss[|steps|].subs|
    ensures var s := ss[|steps|];
      var stream := Stream(s.subs[id]);
      && |s.subs[id].buffer| <= 64
      && (forall i :: 0 <= i < |stream| ==>
            && stream[i].channel == s.subs[id].channel
            && stream[i].publication < |s.pubs| && s.pubs[stream[i].publication].message == stream[i])
      && (forall i, j :: 0 <= i < j < |stream| ==> stream[i].publication != stream[j].publication)
      && (forall i, j :: 0 <= i < j < |stream|
            && s.pubs[stream[i].publication].publisher == s.pubs[stream[j].publication].publisher
            ==> stream[i].publication < stream[j].publication)
  {
    RunKeepsInv(ss, steps, |steps|);
    var s := ss[|steps|];
    assert SubOk(s, id);
    var stream := Stream(s.subs[id]);
    forall i | 0 <= i < |stream|
      ensures stream[i].channel == s.subs[id].channel
      ensures stream[i].publication < |s.pubs| && s.pubs[stream[i].publication].message == stream[i]
    {
      assert GivenOk(s.pubs, id, s.subs[id].channel, stream[i]);
    }
  }

  /** For a publisher, in every run: the count is exactly the number of subscriptions that
      were given the message. */
  lemma PublisherGuarantee(ss: seq<State>, steps: seq<Step>, p: nat)
    requires Run(ss, steps) && p < |ss[|steps|].pubs|
    ensures var s := ss[|steps|];
      var given := set id | 0 <= id < |s.subs| && s.pubs[p].message in Stream(s.subs[id]);
      s.pubs[p].delivered == |given| && s.pubs[p].took == given
  {
    RunKeepsInv(ss, steps, |steps|);
    var s := ss[|steps|];
    assert PubOk(s, p);
    var given := set id | 0 <= id < |s.subs| && s.pubs[p].message in Stream(s.subs[id]);
    forall id | id in given ensures id in s.pubs[p].took {
      assert SubOk(s, id);
      var stream := Stream(s.subs[id]);
      var i :| 0 <= i < |stream| && stream[i] == s.pubs[p].message;
      assert GivenOk(s.pubs, id, s.subs[id].channel, stream[i]);
    }
    assert s.pubs[p].took == given;
  }

  /** In every run, the open subscriptions are exactly the registered ones, each under its own
      channel, and no channel keeps an empty set. */
  lemma RegistrationGuarantee(ss: seq<State>, steps: seq<Step>)
    requires Run(ss, steps)
    ensures RegisteredOk(ss[|steps|])
  {
    RunKeepsInv(ss, steps, |steps|);
  }
}
