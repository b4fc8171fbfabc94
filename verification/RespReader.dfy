/** The buffered reader that takes commands off a connection or a log file. */
module RespReader {
  import opened Basics
  import opened Decimal
  import opened Framing
  import opened Resp

  datatype Fault = BadInput | Panic
  datatype Result<+T> = Ok(value: T) | Error(fault: Fault)

  /** A method's result and the bytes it left unread agree with what the format says. */
  ghost predicate Agrees<T>(r: Result<T>, unread: string, spec: Read<T>) {
    match spec
    case Got(value, rest) => r == Ok(value) && unread == rest
    case Failed => r == Error(BadInput)
    case Panicked => r == Error(Panic)
  }

  class Reader {
    const input: string
    var pos: nat

    ghost predicate Valid()
      reads this
    {
      pos <= |input|
    }

    /** The bytes not read yet. */
    ghost function Unread(): string
      reads this
      requires Valid()
    {
      input[pos..]
    }

    constructor (input: string)
      ensures Valid() && this.input == input && Unread() == input
    {
      this.input := input;
      pos := 0;
    }

    method ReadByte() returns (r: Option<char>)
      requires Valid()
      modifies this
      ensures Valid()
      ensures r == if old(Unread()) == "" then None else Some(old(Unread())[0])
      ensures Unread() == if old(Unread()) == "" then "" else old(Unread())[1..]
    {
      if pos == |input| {
        return None;
      }
      r := Some(input[pos]);
      pos := pos + 1;
    }

    method ReadLine() returns (r: Result<string>)
      requires Valid()
      modifies this
      ensures Valid() && pos >= old(pos)
      ensures Agrees(r, Unread(), Resp.ReadLine(old(Unread())))
    {
      ghost var s := Unread();
      var start := pos;
      while pos < |input| && input[pos] != '\n'
        invariant start <= pos <= |input|
        invariant NewlineFrom(s, 0) == NewlineFrom(s, pos - start)
      {
        pos := pos + 1;
      }
      if pos == |input| {
        return Error(BadInput);
      }
      pos := pos + 1;
      var line := input[start..pos];
      assert line == s[..pos - start];
      ghost var whole := line;
      while |line| > 0 && (line[|line| - 1] == '\n' || line[|line| - 1] == '\r')
        invariant StripNewline(line) == StripNewline(whole)
      {
        line := line[..|line| - 1];
      }
      return Ok(line);
    }

    method ReadInt() returns (r: Result<int>)
      requires Valid()
      modifies this
      ensures Valid() && pos >= old(pos)
      ensures Agrees(r, Unread(), Resp.ReadInt(old(Unread())))
    {
      var line := ReadLine();
      if line.Error? {
        return Error(line.fault);
      }
      var n := ParseInt(line.value);
      return if n.Some? then Ok(n.value) else Error(BadInput);
    }

    method ReadBulk() returns (r: Result<string>)
      requires Valid()
      modifies this
      ensures Valid()
      ensures Agrees(r, Unread(), Resp.ReadBulk(old(Unread())))
    {
      var b := ReadByte();
      if b != Some('$') {
        return Error(BadInput);
      }
      var length := ReadInt();
      if length.Error? {
        return Error(length.fault);
      }
      if length.value < 0 {
        return Error(Panic);
      }
      r := ReadBody(length.value);
    }

    /** The body of a bulk string, and the two bytes of its line end. */
    method ReadBody(n: nat) returns (r: Result<string>)
      requires Valid()
      modifies this
      ensures Valid()
      ensures Agrees(r, Unread(), Resp.ReadBody(n, old(Unread())))
    {
      if |input| - pos < n {
        return Error(BadInput);
      }
      Slices(input, pos, n);
      var buf := input[pos..pos + n];
      pos := pos + n;
      if |input| - pos < 2 {
        return Error(BadInput);
      }
      pos := pos + 2;
      return Ok(buf);
    }

    method ReadArray() returns (r: Result<Command>)
      requires Valid()
      modifies this
      ensures Valid()
      ensures Agrees(r, Unread(), Resp.ReadArray(old(Unread())))
    {
      var n := ReadInt();
      if n.Error? {
        return Error(n.fault);
      }
      if n.value < 0 {
        return Ok([]);
      }
      r := ReadElements(n.value);
    }

    /** Reads one more of the elements, after `args` and before `n` others. */
    method ReadElement(ghost all: Read<Command>, ghost args: Command, ghost n: nat) returns (arg: Result<string>)
      requires Valid() && StillToRead(all, args, n + 1, Unread())
      modifies this
      ensures Valid()
      ensures arg.Ok? ==> StillToRead(all, args + [arg.value], n, Unread())
      ensures arg.Error? ==> Agrees(Result<Command>.Error(arg.fault), Unread(), all)
    {
      ghost var unread := Unread();
      arg := ReadBulk();
      NextBulk(all, args, n, unread, arg, Unread());
    }

    method ReadElements(n: nat) returns (r: Result<Command>)
      requires Valid()
      modifies this
      ensures Valid()
      ensures Agrees(r, Unread(), ReadBulks(n, old(Unread())))
    {
      ghost var all := ReadBulks(n, Unread());
      AfterNothing(all);
      var args: Command := [];
      ghost var due := n;
      for i := 0 to n
        invariant Valid() && due == n - i
        invariant StillToRead(all, args, due, Unread())
      {
        due := due - 1;
        var arg := ReadElement(all, args, due);
        if arg.Error? {
          return Error(arg.fault);
        }
        args := args + [arg.value];
      }
      NothingToRead(all, args, Unread());
      return Ok(args);
    }

    method ReadCommand() returns (r: Result<Command>)
      requires Valid()
      modifies this
      ensures Valid()
      ensures Agrees(r, Unread(), Resp.ReadCommand(old(Unread())))
    {
      var prefix := ReadByte();
      if prefix == None {
        return Error(BadInput);
      }
      if prefix == Some('*') {
        r := ReadArray();
      } else {
        pos := pos - 1;
        var line := ReadLine();
        if line.Error? {
          return Error(line.fault);
        }
        var words := SplitInline(line.value);
        return Ok(words);
      }
    }
  }

  lemma Slices(input: string, pos: nat, n: nat)
    requires pos + n <= |input|
    ensures |input[pos..]| == |input| - pos && input[pos..][..n] == input[pos..pos + n]
    ensures pos + n + 2 <= |input| ==> input[pos..][n + 2..] == input[pos + n + 2..]
  {}

  /** `read` with `args` put in front of the arguments it yields. */
  ghost function After(args: Command, read: Read<Command>): Read<Command> {
    match read
    case Got(more, rest) => Got(args + more, rest)
    case Failed => Failed
    case Panicked => Panicked
  }

  lemma AfterNothing(read: Read<Command>)
    ensures After([], read) == read
  {
    if read.Got? {
      assert [] + read.value == read.value;
    }
  }

  /** `all` are the arguments read so far and what `n` more bulk strings on the stream yield. */
  ghost predicate StillToRead(all: Read<Command>, args: Command, n: nat, unread: string) {
    all == After(args, ReadBulks(n, unread))
  }

  /** Reading one more bulk string moves it from those to come to those read. */
  lemma NextBulk(all: Read<Command>, args: Command, n: nat, s: string, arg: Result<string>, unread: string)
    requires StillToRead(all, args, n + 1, s)
    requires Agrees(arg, unread, Resp.ReadBulk(s))
    ensures arg.Ok? ==> StillToRead(all, args + [arg.value], n, unread)
    ensures arg.Error? ==> Agrees(Result<Command>.Error(arg.fault), unread, all)
  {
    if arg.Ok? {
      var more := ReadBulks(n, unread);
      if more.Got? {
        assert args + ([arg.value] + more.value) == args + [arg.value] + more.value;
      }
    }
  }

  lemma NothingToRead(all: Read<Command>, args: Command, unread: string)
    requires StillToRead(all, args, 0, unread)
    ensures Agrees(Result<Command>.Ok(args), unread, all)
  {
    assert args + [] == args;
  }

  method SplitInline(line: string) returns (out: Command)
    ensures out == SplitFrom(line, "")
  {
    out := [];
    var cur := "";
    for i := 0 to |line|
      invariant SplitFrom(line, "") == out + SplitFrom(line[i..], cur)
    {
      assert line[i..][1..] == line[i + 1..];
      if line[i] == ' ' {
        if |cur| > 0 {
          out := out + [cur];
          cur := "";
        }
      } else {
        cur := cur + [line[i]];
      }
    }
    if |cur| > 0 {
      out := out + [cur];
    }
  }
}
