/** The append-only log: a bounded queue in front of one writer, its buffer and the file.
    Between two calls the writer may have run any number of times. */
module AofLog {
  import opened Basics
  import opened Decimal
  import opened Framing
  import opened Resp
  import opened Compaction
  import opened Pipeline

  /** The queue holds the last records of the history. */
  ghost predicate Queued(queue: seq<Command>, history: seq<Command>) {
    |queue| <= |history| && history[|history| - |queue|..] == queue
  }

  lemma QueuedTail(queue: seq<Command>, history: seq<Command>)
    requires Queued(queue, history) && queue != []
    ensures Queued(queue[1..], history)
  {}

  lemma QueuedMore(queue: seq<Command>, history: seq<Command>, args: Command)
    requires Queued(queue, history)
    ensures Queued(queue + [args], history + [args])
  {}

  class Log {
    var queue: seq<Command>
    var buf: string
    var file: string
    /** Every record appended since the file's contents were last known whole, after those
        that were whole then. */
    ghost var history: seq<Command>

    /** Nothing is lost between the queue and the file, and what waits in the queue is what
        came last. */
    ghost predicate Valid()
      reads this
    {
      Carries(Pipe(queue, None, buf, file), history) && Queued(queue, history)
    }

    /** Opening a file that holds `whole`; new records go to its end. */
    constructor (file: string, ghost whole: seq<Command>)
      requires file == EncodeAll(whole)
      ensures Valid() && this.file == file && queue == [] && buf == "" && history == whole
    {
      this.queue := [];
      this.buf := "";
      this.file := file;
      this.history := whole;
      new;
      WholePipe(whole);
    }

    /** Prints one command into the write buffer. */
    method WriteCommand(args: Command)
      modifies this
      ensures buf == old(buf) + Encode(args)
      ensures queue == old(queue) && file == old(file) && history == old(history)
    {
      ghost var was := buf;
      var head := "*" + FormatNat(|args|) + CRLF;
      buf := buf + head;
      for i := 0 to |args|
        invariant buf + EncodeBulks(args[i..]) == was + Encode(args)
        invariant queue == old(queue) && file == old(file) && history == old(history)
      {
        assert args[i..][1..] == args[i + 1..];
        Assoc(buf, EncodeBulk(args[i]), EncodeBulks(args[i + 1..]));
        buf := buf + EncodeBulk(args[i]);
      }
    }

    method Flush()
      modifies this
      ensures file == old(file) + old(buf) && buf == ""
      ensures queue == old(queue) && history == old(history)
      ensures old(Valid()) ==> Valid()
    {
      ghost var p, p' := Pipe(queue, None, buf, file), Pipe(queue, None, "", file + buf);
      assert buf[..|buf|] == buf && buf[|buf|..] == "";
      file := file + buf;
      buf := "";
      if old(Valid()) {
        SpillCarries(p, |p.buf|, p', history);
      }
    }

    /** The write buffer passes some of its first bytes on, wherever that cuts a frame. */
    method Overflow()
      requires Valid()
      modifies this
      ensures Valid() && history == old(history) && queue == old(queue)
      ensures |file| >= |old(file)| && file[..|old(file)|] == old(file)
      ensures file + buf == old(file) + old(buf)
    {
      var n: nat :| n <= |buf|;
      ghost var p := Pipe(queue, None, buf, file);
      ghost var p' := Pipe(queue, None, buf[n..], file + buf[..n]);
      SpillCarries(p, n, p', history);
      Rejoin(file, buf, n);
      file, buf := file + buf[..n], buf[n..];
    }

    /** One turn of the writer: take a command and print it; a full buffer overflows into the
        file; flush if nothing else waits. */
    method WriteNext()
      requires Valid() && queue != []
      modifies this
      ensures Valid() && history == old(history) && queue == old(queue)[1..]
      ensures |file| >= |old(file)| && file[..|old(file)|] == old(file)
    {
      var cmd := queue[0];
      ghost var p := Pipe(queue, None, buf, file);
      ghost var p1 := Pipe(queue[1..], Some(cmd), buf, file);
      ReceiveCarries(p, p1, history);
      QueuedTail(queue, history);
      queue := queue[1..];
      WriteCommand(cmd);
      WriteCarries(p1, Pipe(queue, None, buf, file), history);
      Overflow();
      if |queue| == 0 {
        Flush();
      }
    }

    /** A send on the channel, which has room. */
    method Send(args: Command)
      requires Valid() && |queue| < QUEUE_CAPACITY
      modifies this
      ensures Valid() && history == old(history) + [args] && queue == old(queue) + [args] && file == old(file)
    {
      ghost var p := Pipe(queue, None, buf, file);
      EnqueueCarries(p, args, p.(queue := queue + [args]), history);
      QueuedMore(queue, history, args);
      queue := queue + [args];
      history := history + [args];
    }

    /** The writer takes as many of the queued records as it gets to. */
    method Progress()
      requires Valid()
      modifies this
      ensures Valid() && history == old(history) && |queue| <= |old(queue)|
      ensures |file| >= |old(file)| && file[..|old(file)|] == old(file)
    {
      var more: bool := *;
      while queue != [] && more
        invariant Valid() && history == old(history) && |queue| <= |old(queue)|
        invariant |file| >= |old(file)| && file[..|old(file)|] == old(file)
        decreases |queue|
      {
        WriteNext();
        more := *;
      }
    }

    /** Queues a record. The writer may run meanwhile, and must when the queue is full. */
    method Append(args: Command)
      requires Valid()
      modifies this
      ensures Valid() && history == old(history) + [args] && 1 <= |queue| <= |old(queue)| + 1
      ensures |file| >= |old(file)| && file[..|old(file)|] == old(file)
    {
      Progress();
      if |queue| == QUEUE_CAPACITY {
        WriteNext();
      }
      Send(args);
    }

    /** Drains the queue and flushes: the file then holds every record. */
    method Close()
      requires Valid()
      modifies this
      ensures Valid() && history == old(history)
      ensures queue == [] && buf == "" && file == EncodeAll(history)
    {
      while queue != []
        invariant Valid() && history == old(history)
        decreases |queue|
      {
        WriteNext();
      }
      Flush();
      FileIsPrefix(Pipe(queue, None, buf, file), history);
    }

    method Size() returns (n: nat)
      requires Valid()
      modifies this
      ensures Valid() && history == old(history) && queue == old(queue) && n == |file|
    {
      Flush();
      n := |file|;
    }

    /** Replaces the file by the commands that recreate a snapshot. What was written before is
        gone; what is still queued will follow. */
    method Rewrite(snaps: seq<Snap>, now: int)
      requires Valid()
      requires forall i :: 0 <= i < |snaps| ==> Walkable(snaps[i])
      modifies this
      ensures Valid() && queue == old(queue) && buf == ""
      ensures file == EncodeAll(RewriteCommands(snaps, now))
      ensures history == RewriteCommands(snaps, now) + queue
    {
      var tmp := WriteSnapshot(snaps, now);
      ghost var cmds := RewriteCommands(snaps, now);
      RewrittenCarries(queue, cmds);
      file := tmp;
      buf := "";
      history := cmds + queue;
    }
  }

  /** The contents of the temporary file. */
  method WriteSnapshot(snaps: seq<Snap>, now: int) returns (tmp: string)
    requires forall i :: 0 <= i < |snaps| ==> Walkable(snaps[i])
    ensures tmp == EncodeAll(RewriteCommands(snaps, now))
  {
    tmp := "";
    for i := 0 to |snaps|
      invariant tmp == EncodeAll(RewriteCommands(snaps[..i], now))
    {
      assert snaps[..i + 1][..i] == snaps[..i];
      EncodeAppend(RewriteCommands(snaps[..i], now), SnapshotCommands(snaps[i], now));
      tmp := tmp + EncodeAll(SnapshotCommands(snaps[i], now));
    }
    TakeAll(snaps);
  }

  lemma Rejoin(file: string, buf: string, n: nat)
    requires n <= |buf|
    ensures file + buf[..n] + buf[n..] == file + buf
    ensures (file + buf[..n])[..|file|] == file
  {}

  lemma RewrittenCarries(queue: seq<Command>, cmds: seq<Command>)
    requires |queue| <= QUEUE_CAPACITY
    ensures Carries(Pipe(queue, None, "", EncodeAll(cmds)), cmds + queue)
  {
    var p := Pipe(queue, None, "", EncodeAll(cmds));
    EncodeAppend(cmds, queue);
    assert Waiting(p) == queue;
    assert p.file + p.buf == p.file;
  }
}
