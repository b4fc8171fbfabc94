/** Restarting on a log that ends in a torn frame: what is appended after the tear. */
module TornRestart {
  import opened Basics
  import opened Decimal
  import opened Framing
  import opened Resp

  lemma {:induction false} NonDigitRejected(s: string, i: nat)
    requires i < |s| && !IsDigit(s[i])
    ensures ParseDigits(s) == None
  {
    if IsDigit(s[|s| - 1]) && |s| > 1 {
      NonDigitRejected(s[..|s| - 1], i);
    }
  }

  lemma StarRejected(line: string, i: nat)
    requires i < |line| && line[i] == '*'
    ensures ParseInt(line) == None
  {
    if line[0] == '-' || line[0] == '+' {
      NonDigitRejected(line[1..], i - 1);
    } else {
      NonDigitRejected(line, i);
    }
  }

  lemma {:induction false} StripKeeps(line: string, i: nat)
    requires i < |line| && line[i] !in "\r\n"
    ensures i < |StripNewline(line)| && StripNewline(line)[i] == line[i]
  {
    if line[|line| - 1] in "\r\n" {
      StripKeeps(line[..|line| - 1], i);
    }
  }

  /** A line that has a star before its end is no length. */
  lemma StarredLineFails(s: string, i: nat)
    requires i < |s| && s[i] == '*'
    requires forall j :: 0 <= j < i ==> s[j] != '\n'
    ensures ReadInt(s) == Failed
  {
    var k := NewlineFrom(s, 0);
    if k < |s| {
      assert k >= i;
      StripKeeps(s[..k + 1], i);
      StarRejected(StripNewline(s[..k + 1]), i);
    }
  }

  /** The line that announces a count or a length, torn before its end and followed by a star. */
  lemma TornLineFails(n: nat, cut: nat, more: string)
    requires cut < |FormatNat(n) + CRLF|
    requires more != "" && more[0] == '*'
    ensures ReadInt((FormatNat(n) + CRLF)[..cut] + more) == Failed
  {
    var line := FormatNat(n) + CRLF;
    var s := line[..cut] + more;
    forall j | 0 <= j < cut ensures s[j] != '\n' {
      assert s[j] == line[j];
    }
    assert s[cut] == '*';
    StarredLineFails(s, cut);
  }

  /** The line that announces an argument. */
  function LengthLine(arg: string): string {
    "$" + (FormatNat(|arg|) + CRLF)
  }

  /** Where a frame can be torn: inside its first line, in the line that announces argument
      `j`, or in the body of that argument or its line end. */
  datatype Tear = InCount(cut: nat) | InLength(j: nat, cut: nat) | InBody(j: nat, cut: nat)

  predicate TearOf(c: Command, t: Tear) {
    match t
    case InCount(cut) => cut < |FormatNat(|c|) + CRLF|
    case InLength(j, cut) => j < |c| && cut < |LengthLine(c[j])|
    case InBody(j, cut) => j < |c| && cut < |c[j] + CRLF|
  }

  /** What is left of the argument a tear runs through. A cut of 0 in its first line is a cut
      before its dollar. */
  function LeftOfBulk(arg: string, t: Tear): string
    requires !t.InCount?
    requires t.cut < if t.InLength? then |LengthLine(arg)| else |arg + CRLF|
  {
    if t.InLength? then LengthLine(arg)[..t.cut] else LengthLine(arg) + (arg + CRLF)[..t.cut]
  }

  /** What is left of the frame. */
  function Left(c: Command, t: Tear): string
    requires TearOf(c, t)
  {
    if t.InCount? then "*" + (FormatNat(|c|) + CRLF)[..t.cut]
    else "*" + (FormatNat(|c|) + CRLF) + (EncodeBulks(c[..t.j]) + LeftOfBulk(c[t.j], t))
  }

  lemma {:induction false} EncodeBulksSplit(args: Command, j: nat)
    requires j <= |args|
    ensures EncodeBulks(args) == EncodeBulks(args[..j]) + EncodeBulks(args[j..])
  {
    if j > 0 {
      EncodeBulksSplit(args[1..], j - 1);
      assert args[..j][1..] == args[1..][..j - 1] && args[1..][j - 1..] == args[j..];
      Assoc(EncodeBulk(args[0]), EncodeBulks(args[1..][..j - 1]), EncodeBulks(args[j..]));
    }
  }

  lemma BulksFrom(c: Command, j: nat)
    requires j < |c|
    ensures EncodeBulks(c) == EncodeBulks(c[..j]) + (EncodeBulk(c[j]) + EncodeBulks(c[j + 1..]))
  {
    EncodeBulksSplit(c, j);
    var here := c[j..];
    assert here[0] == c[j] && here[1..] == c[j + 1..];
    assert EncodeBulks(here) == EncodeBulk(here[0]) + EncodeBulks(here[1..]);
  }

  predicate ProperPrefix(part: string, whole: string) {
    |part| < |whole| && whole[..|part|] == part
  }

  lemma PrefixBehind(a: string, part: string, whole: string, c: string)
    requires ProperPrefix(part, whole)
    ensures ProperPrefix(a + part, a + (whole + c))
  {}

  lemma LeftOfBulkIsPrefix(arg: string, t: Tear)
    requires !t.InCount?
    requires t.cut < if t.InLength? then |LengthLine(arg)| else |arg + CRLF|
    ensures ProperPrefix(LeftOfBulk(arg, t), EncodeBulk(arg))
  {
    assert EncodeBulk(arg) == LengthLine(arg) + (arg + CRLF);
  }

  lemma LeftInCountIsPrefix(c: Command, cut: nat)
    requires cut < |FormatNat(|c|) + CRLF|
    ensures ProperPrefix(Left(c, InCount(cut)), Encode(c))
  {
    PrefixBehind("*", (FormatNat(|c|) + CRLF)[..cut], FormatNat(|c|) + CRLF, EncodeBulks(c));
  }

  lemma LeftInBulkIsPrefix(c: Command, t: Tear)
    requires TearOf(c, t) && !t.InCount?
    ensures ProperPrefix(Left(c, t), Encode(c))
  {
    var left, line := LeftOfBulk(c[t.j], t), FormatNat(|c|) + CRLF;
    var before, bulk, after := EncodeBulks(c[..t.j]), EncodeBulk(c[t.j]), EncodeBulks(c[t.j + 1..]);
    LeftOfBulkIsPrefix(c[t.j], t);
    PrefixBehind(before, left, bulk, after);
    BulksFrom(c, t.j);
    PrefixBehind("*" + line, before + left, EncodeBulks(c), "");
    assert EncodeBulks(c) + "" == EncodeBulks(c);
    Assoc("*", line, EncodeBulks(c));
  }

  /** What is left is a proper prefix of the frame: the tear is one a crash can make. */
  lemma LeftIsPrefix(c: Command, t: Tear)
    requires TearOf(c, t)
    ensures Left(c, t) != "" && ProperPrefix(Left(c, t), Encode(c))
  {
    if t.InCount? {
      LeftInCountIsPrefix(c, t.cut);
    } else {
      LeftInBulkIsPrefix(c, t);
    }
  }

  lemma TearOfBulk(arg: string, n: nat, j: nat) returns (t: Tear)
    requires n < |EncodeBulk(arg)|
    ensures !t.InCount? && t.j == j && t.cut < if t.InLength? then |LengthLine(arg)| else |arg + CRLF|
    ensures LeftOfBulk(arg, t) == EncodeBulk(arg)[..n]
  {
    var line := LengthLine(arg);
    assert EncodeBulk(arg) == line + (arg + CRLF);
    if n < |line| {
      t := InLength(j, n);
      assert EncodeBulk(arg)[..n] == line[..n];
    } else {
      t := InBody(j, n - |line|);
      Cut(line, arg + CRLF, n);
    }
  }

  /** A cut through encoded arguments runs through one of them. */
  lemma {:induction false} CutArgument(args: Command, n: nat) returns (j: nat, m: nat)
    requires n < |EncodeBulks(args)|
    ensures j < |args| && m < |EncodeBulk(args[j])|
    ensures EncodeBulks(args)[..n] == EncodeBulks(args[..j]) + EncodeBulk(args[j])[..m]
  {
    var first, more := EncodeBulk(args[0]), EncodeBulks(args[1..]);
    Cut(first, more, n);
    if n < |first| {
      j, m := 0, n;
      assert EncodeBulks(args[..0]) + first[..n] == first[..n];
    } else {
      j, m := CutArgument(args[1..], n - |first|);
      assert args[..j + 1][1..] == args[1..][..j] && args[1..][j] == args[j + 1];
      Assoc(first, EncodeBulks(args[1..][..j]), EncodeBulk(args[j + 1])[..m]);
      j := j + 1;
    }
  }

  /** There are no other tears: every cut but the one before the first byte is one of them. */
  lemma EveryCutIsATear(c: Command, n: nat) returns (t: Tear)
    requires 0 < n < |Encode(c)|
    ensures TearOf(c, t) && Left(c, t) == Encode(c)[..n]
  {
    var line, bulks := FormatNat(|c|) + CRLF, EncodeBulks(c);
    assert Encode(c) == "*" + (line + bulks);
    CutMark('*', line + bulks, n);
    Cut(line, bulks, n - 1);
    if n - 1 < |line| {
      t := InCount(n - 1);
    } else {
      var j, m := CutArgument(c, n - 1 - |line|);
      t := TearOfBulk(c[j], m, j);
      Assoc("*", line, EncodeBulks(c[..j]) + LeftOfBulk(c[j], t));
    }
  }

  lemma TornLengthFails(arg: string, cut: nat, more: string)
    requires cut < |LengthLine(arg)|
    requires more != "" && more[0] == '*'
    ensures ReadBulk(LengthLine(arg)[..cut] + more) == Failed
  {
    var s := LengthLine(arg)[..cut] + more;
    if cut == 0 {
      assert s == more;
    } else {
      assert s[1..] == (FormatNat(|arg|) + CRLF)[..cut - 1] + more;
      TornLineFails(|arg|, cut - 1, more);
    }
  }

  /** Whole arguments before one that does not read. */
  lemma ArgumentFails(c: Command, j: nat, s: string)
    requires Fits(c) && j < |c| && ReadBulk(s) == Failed
    ensures ReadBulks(|c|, EncodeBulks(c[..j]) + s) == Failed
  {
    BulksReadBack(c[..j]);
    ManyThenFail(ReadBulk, EncodeBulk, c[..j], s, |c|);
  }

  lemma BulksAreMany(n: nat, s: string)
    ensures ReadBulks(n, s) == ReadMany(ReadBulk, n, s)
  {}

  /** Whole arguments before one that is read as `arg`: what comes then decides. */
  lemma ArgumentReads(before: Command, n: nat, total: nat, s: string, arg: string, rest: string, due: Read<Command>)
    requires forall a :: a in before ==> |a| <= MAX_INT64
    requires total == |before| + 1 + n && ReadBulk(s) == Got(arg, rest) && ReadBulks(n, rest) == due
    ensures ReadBulks(total, EncodeBulks(before) + s) == Prepend(before + [arg], due)
  {
    BulksReadBack(before);
    BulksAreMany(n, rest);
    ManyThenOne(ReadBulk, EncodeBulk, before, s, arg, rest, n, total);
    BulksAreMany(total, EncodeBulks(before) + s);
  }

  lemma LeftThen(c: Command, t: Tear, more: string, tail: string)
    requires TearOf(c, t) && !t.InCount?
    requires tail == EncodeBulks(c[..t.j]) + (LeftOfBulk(c[t.j], t) + more)
    ensures Left(c, t) + more == "*" + (FormatNat(|c|) + CRLF + tail)
  {
    Assoc(EncodeBulks(c[..t.j]), LeftOfBulk(c[t.j], t), more);
    Reassoc("*", FormatNat(|c|) + CRLF, EncodeBulks(c[..t.j]) + LeftOfBulk(c[t.j], t), more);
  }

  /** Reading a torn frame and what follows it is reading its arguments up to the torn one. */
  lemma LeftReads(c: Command, t: Tear, more: string)
    requires Fits(c) && TearOf(c, t) && !t.InCount?
    ensures ReadCommand(Left(c, t) + more) == ReadBulks(|c|, EncodeBulks(c[..t.j]) + (LeftOfBulk(c[t.j], t) + more))
  {
    var tail := EncodeBulks(c[..t.j]) + (LeftOfBulk(c[t.j], t) + more);
    LeftThen(c, t, more, tail);
    CountedReads(|c|, tail);
  }

  lemma TornFrameFails(c: Command, t: Tear, more: string)
    requires Fits(c) && TearOf(c, t) && !t.InBody?
    requires more != "" && more[0] == '*'
    ensures ReadCommand(Left(c, t) + more) == Failed
  {
    if t.InCount? {
      var line := (FormatNat(|c|) + CRLF)[..t.cut];
      TornLineFails(|c|, t.cut, more);
      CountFails(line + more);
      Assoc("*", line, more);
    } else {
      TornLengthFails(c[t.j], t.cut, more);
      ArgumentFails(c, t.j, LeftOfBulk(c[t.j], t) + more);
      LeftReads(c, t, more);
    }
  }

  lemma Reassoc(a: string, b: string, c: string, d: string)
    ensures a + b + c + d == a + (b + (c + d))
  {}

  lemma Assemble(whole: seq<Command>, more: seq<Command>)
    requires whole != []
    ensures [whole[0]] + (whole[1..] + more) == whole + more
  {}

  lemma {:induction false} DeliveredOn(whole: seq<Command>, rest: string)
    requires AllFit(whole)
    ensures Delivered(EncodeAll(whole) + rest) == whole + Delivered(rest)
  {
    if whole == [] {
      assert EncodeAll(whole) + rest == rest;
    } else {
      var more := EncodeAll(whole[1..]) + rest;
      Assoc(Encode(whole[0]), EncodeAll(whole[1..]), rest);
      ReadEncoded(whole[0], more);
      DeliveredCons(EncodeAll(whole) + rest, whole[0], more);
      DeliveredOn(whole[1..], rest);
      Assemble(whole, Delivered(rest));
    }
  }

  /** When a crash tears a frame anywhere but in an argument's body or its line end, nothing
      that a restarted server appends after the tear is ever replayed: the next frame's star
      spoils the line it falls into, and the replay stops there. */
  lemma AppendsAfterTearAreLost(whole: seq<Command>, torn: Command, t: Tear, more: string)
    requires AllFit(whole) && Fits(torn) && TearOf(torn, t) && !t.InBody?
    requires more != "" && more[0] == '*'
    ensures Delivered(EncodeAll(whole) + (Left(torn, t) + more)) == whole
  {
    TornFrameFails(torn, t, more);
    DeliveredStops(Left(torn, t) + more);
    DeliveredOn(whole, Left(torn, t) + more);
  }

  // ---- A tear in the body of an argument ----

  /** The bytes that are missing from the body and its line end. */
  function Missing(arg: string, cut: nat): nat
    requires cut < |arg + CRLF|
  {
    |arg + CRLF| - cut
  }

  /** What is read for the argument: its missing bytes are taken from what follows. */
  function Spoilt(arg: string, cut: nat, more: string): (r: string)
    requires cut < |arg + CRLF| && Missing(arg, cut) <= |more|
    ensures |r| == |arg|
  {
    if cut < |arg| then arg[..cut] + more[..|arg| - cut] else arg
  }

  lemma TornBodyReads(arg: string, t: Tear, more: string)
    requires t.InBody? && |arg| <= MAX_INT64 && t.cut < |arg + CRLF|
    ensures ReadBulk(LeftOfBulk(arg, t) + more) ==
      if |more| < Missing(arg, t.cut) then Failed
      else Got(Spoilt(arg, t.cut, more), more[Missing(arg, t.cut)..])
  {
    var head, tail := FormatNat(|arg|) + CRLF, (arg + CRLF)[..t.cut] + more;
    assert LeftOfBulk(arg, t) + more == "$" + (head + tail);
    BodyReads(|arg|, tail);
    SpoiltTail(arg, t.cut, more);
  }

  lemma BodyReads(n: nat, tail: string)
    requires n <= MAX_INT64
    ensures ReadBulk("$" + (FormatNat(n) + CRLF + tail)) == ReadBody(n, tail)
  {
    Unmark('$', FormatNat(n) + CRLF + tail);
    ReadPrintedInt(n, tail);
  }

  lemma SpoiltTail(arg: string, cut: nat, more: string)
    requires cut < |arg + CRLF|
    ensures ReadBody(|arg|, (arg + CRLF)[..cut] + more) ==
      if |more| < Missing(arg, cut) then Failed else Got(Spoilt(arg, cut, more), more[Missing(arg, cut)..])
  {
    var tail := (arg + CRLF)[..cut] + more;
    if |more| >= Missing(arg, cut) {
      assert tail[..|arg|] == Spoilt(arg, cut, more);
      assert tail[|arg| + 2..] == more[Missing(arg, cut)..];
    }
  }

  /** Too few bytes follow: the argument does not read. */
  lemma TornBodyStarves(c: Command, t: Tear, more: string)
    requires Fits(c) && TearOf(c, t) && t.InBody?
    requires |more| < Missing(c[t.j], t.cut)
    ensures ReadCommand(Left(c, t) + more) == Failed
  {
    TornBodyReads(c[t.j], t, more);
    ArgumentFails(c, t.j, LeftOfBulk(c[t.j], t) + more);
    LeftReads(c, t, more);
  }

  /** Otherwise it reads, spoilt, and `due` is what is read for the `n` arguments after it. */
  lemma TornBodyFrame(c: Command, t: Tear, n: nat, more: string, rest: string, due: Read<Command>)
    requires Fits(c) && TearOf(c, t) && t.InBody? && |c| == t.j + 1 + n
    requires |more| >= Missing(c[t.j], t.cut) && rest == more[Missing(c[t.j], t.cut)..]
    requires ReadBulks(n, rest) == due
    ensures ReadCommand(Left(c, t) + more) == Prepend(c[..t.j] + [Spoilt(c[t.j], t.cut, more)], due)
  {
    TornBodyReads(c[t.j], t, more);
    ArgumentReads(c[..t.j], n, |c|, LeftOfBulk(c[t.j], t) + more, Spoilt(c[t.j], t.cut, more), rest, due);
    LeftReads(c, t, more);
  }

  /** When a crash tears an argument in its body or its line end, the replay takes the missing
      bytes from what was appended later. The command is delivered, with that argument altered,
      if what follows them reads as the `n` arguments still due. */
  lemma TornBodyReadsOn(whole: seq<Command>, torn: Command, t: Tear, n: nat, more: string)
    requires AllFit(whole) && Fits(torn) && TearOf(torn, t) && t.InBody? && |torn| == t.j + 1 + n
    requires Missing(torn[t.j], t.cut) <= |more|
    ensures var due := ReadBulks(n, more[Missing(torn[t.j], t.cut)..]);
      Delivered(EncodeAll(whole) + (Left(torn, t) + more)) == whole +
        if due.Got? then [torn[..t.j] + [Spoilt(torn[t.j], t.cut, more)] + due.value] + Delivered(due.rest) else []
  {
    var rest := more[Missing(torn[t.j], t.cut)..];
    TornBodyFrame(torn, t, n, more, rest, ReadBulks(n, rest));
    DeliveredOn(whole, Left(torn, t) + more);
  }

  lemma SpoiltDiffers(arg: string, cut: nat, more: string)
    requires cut < |arg| && Missing(arg, cut) <= |more| && more[0] != arg[cut]
    ensures Spoilt(arg, cut, more) != arg
  {
    assert Spoilt(arg, cut, more)[cut] == more[0];
  }

  lemma TornBodyStops(whole: seq<Command>, torn: Command, t: Tear, more: string)
    requires AllFit(whole) && Fits(torn) && TearOf(torn, t) && t.InBody?
    requires |more| < Missing(torn[t.j], t.cut)
    ensures Delivered(EncodeAll(whole) + (Left(torn, t) + more)) == whole
  {
    TornBodyStarves(torn, t, more);
    DeliveredStops(Left(torn, t) + more);
    DeliveredOn(whole, Left(torn, t) + more);
  }

  lemma WithLast(c: Command, j: nat, arg: string)
    requires |c| == j + 1
    ensures c[..j] + [arg] + [] == c[j := arg]
  {}

  /** When it is the last argument, the torn command is delivered whatever follows, as soon as
      that is long enough, and reading goes on in the middle of it. The argument is not what it
      was unless what follows happens to agree with the missing bytes. */
  lemma TornBodySwallows(whole: seq<Command>, torn: Command, t: Tear, more: string)
    requires AllFit(whole) && Fits(torn) && TearOf(torn, t) && t.InBody? && |torn| == t.j + 1
    ensures var arg, n := torn[t.j], Missing(torn[t.j], t.cut);
      if |more| < n then Delivered(EncodeAll(whole) + (Left(torn, t) + more)) == whole
      else
        && Delivered(EncodeAll(whole) + (Left(torn, t) + more))
          == whole + ([torn[t.j := Spoilt(arg, t.cut, more)]] + Delivered(more[n..]))
        && (t.cut < |arg| && more[0] != arg[t.cut] ==> Spoilt(arg, t.cut, more) != arg)
  {
    var arg := torn[t.j];
    if |more| < Missing(arg, t.cut) {
      TornBodyStops(whole, torn, t, more);
    } else {
      TornBodyReadsOn(whole, torn, t, 0, more);
      WithLast(torn, t.j, Spoilt(arg, t.cut, more));
      if t.cut < |arg| && more[0] != arg[t.cut] {
        SpoiltDiffers(arg, t.cut, more);
      }
    }
  }

  /** After a whole log, everything appended is replayed: this is what the crash-recovery
      theorems start from. */
  lemma AppendsAfterWholeAreKept(whole: seq<Command>, more: seq<Command>)
    requires AllFit(whole) && AllFit(more)
    ensures Delivered(EncodeAll(whole) + EncodeAll(more)) == whole + more
  {
    EncodeAppend(whole, more);
    RoundTrip(whole + more);
  }
}
