/** The path of a record from a connection to the file: a bounded queue, the single writer,
    its write buffer, the file. Every step of every goroutine is one transition. */
module Pipeline {
  import opened Basics
  import opened Framing
  import opened Resp

  const QUEUE_CAPACITY: nat := 1024

  /** `inflight` is the command the writer has received and not yet encoded. */
  datatype Pipe = Pipe(queue: seq<Command>, inflight: Option<Command>, buf: string, file: string)

  const EMPTY_PIPE: Pipe := Pipe([], None, "", "")

  /** Commands handed over but not yet encoded, in order. */
  function Waiting(p: Pipe): seq<Command> {
    (if p.inflight.Some? then [p.inflight.value] else []) + p.queue
  }

  /** Everything the pipe will have put in the file once it is drained. */
  function Bytes(p: Pipe): string {
    p.file + p.buf + EncodeAll(Waiting(p))
  }

  // ---- Steps ----

  ghost predicate Enqueue(p: Pipe, cmd: Command, p': Pipe) {
    |p.queue| < QUEUE_CAPACITY && p' == p.(queue := p.queue + [cmd])
  }

  ghost predicate Receive(p: Pipe, p': Pipe) {
    p.inflight.None? && p.queue != [] && p' == p.(inflight := Some(p.queue[0]), queue := p.queue[1..])
  }

  ghost predicate Write(p: Pipe, p': Pipe) {
    p.inflight.Some? && p' == p.(inflight := None, buf := p.buf + Encode(p.inflight.value))
  }

  /** The write buffer passes its first `n` bytes on to the file: a flush, or an overflow. */
  ghost predicate Spill(p: Pipe, n: nat, p': Pipe) {
    n <= |p.buf| && p' == p.(file := p.file + p.buf[..n], buf := p.buf[n..])
  }

  ghost predicate WriterStep(p: Pipe, p': Pipe) {
    Receive(p, p') || Write(p, p') || exists n: nat :: Spill(p, n, p')
  }

  /** The pipe holds exactly the bytes of `log`, in order, and its queue is within bounds. */
  ghost predicate Carries(p: Pipe, log: seq<Command>) {
    |p.queue| <= QUEUE_CAPACITY && Bytes(p) == EncodeAll(log)
  }

  lemma EnqueueCarries(p: Pipe, cmd: Command, p': Pipe, log: seq<Command>)
    requires Carries(p, log) && Enqueue(p, cmd, p')
    ensures Carries(p', log + [cmd])
  {
    EncodeAppend(log, [cmd]);
    EncodeAppend(Waiting(p), [cmd]);
    assert Waiting(p') == Waiting(p) + [cmd];
    Assoc(p.file + p.buf, EncodeAll(Waiting(p)), EncodeAll([cmd]));
  }

  lemma ReceiveCarries(p: Pipe, p': Pipe, log: seq<Command>)
    requires Carries(p, log) && Receive(p, p')
    ensures Carries(p', log)
  {
    assert Waiting(p') == Waiting(p);
  }

  lemma WriteCarries(p: Pipe, p': Pipe, log: seq<Command>)
    requires Carries(p, log) && Write(p, p')
    ensures Carries(p', log)
  {
    var cmd := p.inflight.value;
    assert Waiting(p) == [cmd] + p.queue && Waiting(p') == p.queue;
    EncodeCons(cmd, p.queue);
    Interleave(p.file, p.buf, Encode(cmd), EncodeAll(p.queue));
  }

  lemma Interleave(a: string, b: string, c: string, d: string)
    ensures a + b + (c + d) == a + (b + c) + d
  {}

  lemma SpillCarries(p: Pipe, n: nat, p': Pipe, log: seq<Command>)
    requires Carries(p, log) && Spill(p, n, p')
    ensures Carries(p', log)
  {
    assert p.file + p.buf[..n] + p.buf[n..] == p.file + p.buf;
    assert Waiting(p') == Waiting(p);
  }

  lemma WriterStepCarries(p: Pipe, p': Pipe, log: seq<Command>)
    requires Carries(p, log) && WriterStep(p, p')
    ensures Carries(p', log)
    ensures |p.file| <= |p'.file|
  {
    if Receive(p, p') {
      ReceiveCarries(p, p', log);
    } else if Write(p, p') {
      WriteCarries(p, p', log);
    } else {
      var n: nat :| Spill(p, n, p');
      SpillCarries(p, n, p', log);
    }
  }

  lemma WholePipe(commands: seq<Command>)
    ensures Carries(Pipe([], None, "", EncodeAll(commands)), commands)
  {
    var p := Pipe([], None, "", EncodeAll(commands));
    assert Waiting(p) == [];
    assert EncodeAll(commands) + "" + "" == EncodeAll(commands);
  }

  lemma FileIsPrefix(p: Pipe, log: seq<Command>)
    requires Carries(p, log)
    ensures |p.file| <= |EncodeAll(log)| && EncodeAll(log)[..|p.file|] == p.file
    ensures p.buf == "" && Waiting(p) == [] ==> p.file == EncodeAll(log)
  {
    Assoc(p.file, p.buf, EncodeAll(Waiting(p)));
  }

  /** The file holds a byte prefix of the encoded log, so a replay of it delivers exactly the
      log's first commands, all of them once the pipe is drained. */
  lemma FileDelivers(p: Pipe, log: seq<Command>)
    requires Carries(p, log) && AllFit(log)
    ensures Delivered(p.file) == log[..WholeFrames(log, |p.file|)]
    ensures p.buf == "" && Waiting(p) == [] ==> Delivered(p.file) == log
  {
    FileIsPrefix(p, log);
    TornTail(log, |p.file|);
    if p.buf == "" && Waiting(p) == [] {
      RoundTrip(log);
    }
  }

  // ---- Many connections, one writer ----

  /** `log` is every command enqueued so far with the connection it came from, `issued` what
      each connection has appended, in its program order. */
  datatype World = World(
    pipe: Pipe,
    log: seq<(nat, Command)>,
    issued: map<nat, seq<Command>>,
    active: set<nat>,
    accepting: bool,
    closed: bool,
    exited: bool)

  datatype Label =
    | Accept(conn: nat)
    | Append(conn: nat, cmd: Command)
    | Disconnect(conn: nat)
    | StopAccepting
    | CloseQueue
    | WriterRuns
    | WriterExits

  function Commands(log: seq<(nat, Command)>): (r: seq<Command>)
    ensures |r| == |log|
    ensures forall i :: 0 <= i < |log| ==> r[i] == log[i].1
  {
    seq(|log|, i requires 0 <= i < |log| => log[i].1)
  }

  /** What one connection put into the log. */
  function From(log: seq<(nat, Command)>, conn: nat): seq<Command> {
    if log == [] then [] else
    var n := |log| - 1;
    From(log[..n], conn) + (if log[n].0 == conn then [log[n].1] else [])
  }

  ghost predicate Init(w: World) {
    w == World(EMPTY_PIPE, [], map[], {}, true, false, false)
  }

  ghost predicate Next(w: World, l: Label, w': World) {
    match l
    case Accept(c) =>
      w.accepting && c !in w.issued && w' == w.(active := w.active + {c}, issued := w.issued[c := []])
    case Append(c, cmd) =>
      && c in w.active && c in w.issued
      && Enqueue(w.pipe, cmd, w'.pipe)
      && w' == w.(pipe := w'.pipe, log := w.log + [(c, cmd)], issued := w.issued[c := w.issued[c] + [cmd]])
    case Disconnect(c) => w' == w.(active := w.active - {c})
    case StopAccepting => w' == w.(accepting := false)
    case CloseQueue => !w.closed && !w.accepting && w.active == {} && w' == w.(closed := true)
    case WriterRuns => !w.exited && WriterStep(w.pipe, w'.pipe) && w' == w.(pipe := w'.pipe)
    case WriterExits =>
      && w.closed && !w.exited && Waiting(w.pipe) == []
      && Spill(w.pipe, |w.pipe.buf|, w'.pipe)
      && w' == w.(pipe := w'.pipe, exited := true)
  }

  ghost predicate Run(ws: seq<World>, ls: seq<Label>) {
    && |ws| == |ls| + 1
    && Init(ws[0])
    && forall i :: 0 <= i < |ls| ==> Next(ws[i], ls[i], ws[i + 1])
  }

  ghost predicate WorldInv(w: World) {
    && Carries(w.pipe, Commands(w.log))
    && (forall c :: c in w.issued ==> w.issued[c] == From(w.log, c))
    && (forall e :: e in w.log ==> e.0 in w.issued)
    && (w.closed ==> !w.accepting && w.active == {})
    && (w.exited ==> w.closed && Waiting(w.pipe) == [] && w.pipe.buf == "")
  }

  lemma AppendKeepsInv(w: World, c: nat, cmd: Command, w': World)
    requires WorldInv(w) && Next(w, Append(c, cmd), w')
    ensures WorldInv(w')
  {
    EnqueueCarries(w.pipe, cmd, w'.pipe, Commands(w.log));
    assert Commands(w'.log) == Commands(w.log) + [cmd];
    assert w'.log[..|w.log|] == w.log;
  }

  lemma FromNobody(log: seq<(nat, Command)>, c: nat)
    requires forall e :: e in log ==> e.0 != c
    ensures From(log, c) == []
  {}

  lemma WriterExitKeepsInv(w: World, w': World)
    requires WorldInv(w) && Next(w, WriterExits, w')
    ensures WorldInv(w')
  {
    WriterStepCarries(w.pipe, w'.pipe, Commands(w.log));
  }

  lemma NextKeepsInv(w: World, l: Label, w': World)
    requires WorldInv(w) && Next(w, l, w')
    ensures WorldInv(w')
  {
    match l
    case Accept(c) => FromNobody(w.log, c);
    case Append(c, cmd) => AppendKeepsInv(w, c, cmd, w');
    case WriterRuns => WriterStepCarries(w.pipe, w'.pipe, Commands(w.log));
    case WriterExits => WriterExitKeepsInv(w, w');
    case _ =>
  }

  lemma {:induction false} RunKeepsInv(ws: seq<World>, ls: seq<Label>)
    requires Run(ws, ls)
    ensures WorldInv(ws[|ls|])
  {
    var n := |ls|;
    if n == 0 {
      assert Commands(ws[0].log) == [];
      assert Bytes(EMPTY_PIPE) == "";
    } else {
      RunKeepsInv(ws[..n], ls[..n - 1]);
      NextKeepsInv(ws[n - 1], ls[n - 1], ws[n]);
    }
  }

  /** In every interleaving of connections and writer, after any number of steps: no byte is
      lost, added or reordered; each connection's records stand in its program order; the
      queue stays within its capacity; nothing can be appended once the queue is closed; what
      the file holds delivers a prefix of the enqueued commands, and every one of them once
      the writer has exited. */
  lemma WriterConserves(ws: seq<World>, ls: seq<Label>)
    requires Run(ws, ls)
    ensures var w := ws[|ls|];
      && Bytes(w.pipe) == EncodeAll(Commands(w.log))
      && |w.pipe.queue| <= 1024
      && (forall c :: c in w.issued ==> From(w.log, c) == w.issued[c])
      && (w.closed ==> w.active == {} && !w.accepting)
      && (AllFit(Commands(w.log)) ==>
            && (exists k :: 0 <= k <= |w.log| && Delivered(w.pipe.file) == Commands(w.log)[..k])
            && (w.exited ==> Delivered(w.pipe.file) == Commands(w.log)))
  {
    RunKeepsInv(ws, ls);
    var w := ws[|ls|];
    if AllFit(Commands(w.log)) {
      FileDelivers(w.pipe, Commands(w.log));
    }
  }
}
