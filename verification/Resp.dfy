/** The RESP wire format: how the log writer prints a command and how a reader takes one
    off the front of a byte stream. A Go string is a `string` whose characters are bytes. */
module Resp {
  import opened Decimal
  import opened Framing

  type Command = seq<string>

  const CRLF: string := "\r\n"

  // ---- Encoding ----

  function EncodeBulk(arg: string): string {
    "$" + (FormatNat(|arg|) + CRLF + (arg + CRLF))
  }

  function EncodeBulks(args: Command): string {
    EncodeMany(EncodeBulk, args)
  }

  function Encode(args: Command): (s: string)
    ensures |s| > 0
  {
    "*" + (FormatNat(|args|) + CRLF + EncodeBulks(args))
  }

  function EncodeAll(cmds: seq<Command>): string {
    if cmds == [] then "" else Encode(cmds[0]) + EncodeAll(cmds[1..])
  }

  /** Go lengths are ints, so every slice and string a program holds meets this. */
  ghost predicate Fits(args: Command) {
    0 < |args| <= MAX_INT64 && forall a :: a in args ==> |a| <= MAX_INT64
  }

  ghost predicate AllFit(cmds: seq<Command>) {
    forall c :: c in cmds ==> Fits(c)
  }

  // ---- Decoding ----

  function StripNewline(line: string): string {
    if line != "" && line[|line| - 1] in "\r\n" then StripNewline(line[..|line| - 1]) else line
  }

  /** The position of the first newline at or after `i`, or |s|. */
  function NewlineFrom(s: string, i: nat): (k: nat)
    requires i <= |s|
    ensures i <= k <= |s|
    ensures k < |s| ==> s[k] == '\n'
    ensures forall j :: i <= j < k ==> s[j] != '\n'
    decreases |s| - i
  {
    if i == |s| || s[i] == '\n' then i else NewlineFrom(s, i + 1)
  }

  function ReadLine(s: string): (r: Read<string>)
    ensures r.Got? ==> |r.rest| < |s|
  {
    var k := NewlineFrom(s, 0);
    if k == |s| then Failed else Got(StripNewline(s[..k + 1]), s[k + 1..])
  }

  function ReadInt(s: string): (r: Read<int>)
    ensures r.Got? ==> |r.rest| < |s|
  {
    match ReadLine(s)
    case Got(line, rest) =>
      (match ParseInt(line)
       case Some(n) => Got(n, rest)
       case None => Failed)
    case Failed => Failed
    case Panicked => Panicked
  }

  /** A body of `n` bytes and the two bytes of its line end. */
  function ReadBody(n: nat, s: string): (r: Read<string>)
    ensures r.Got? ==> |r.rest| <= |s|
  {
    if |s| < n || |s| - n < 2 then Failed else Got(s[..n], s[n + 2..])
  }

  function ReadBulk(s: string): (r: Read<string>)
    ensures r.Got? ==> |r.rest| < |s|
  {
    if s == "" || s[0] != '$' then Failed else
    match ReadInt(s[1..])
    case Got(n, rest) =>
      if n < 0 then Panicked else ReadBody(n, rest)
    case Failed => Failed
    case Panicked => Panicked
  }

  function ReadBulks(n: nat, s: string): (r: Read<Command>)
    ensures r.Got? ==> |r.rest| <= |s|
  {
    ReadManyShrinks(ReadBulk, n, s);
    ReadMany(ReadBulk, n, s)
  }

  function ReadArray(s: string): (r: Read<Command>)
    ensures r.Got? ==> |r.rest| < |s|
  {
    match ReadInt(s)
    case Got(n, rest) => if n < 0 then Got([], rest) else ReadBulks(n, rest)
    case Failed => Failed
    case Panicked => Panicked
  }

  /** The words of an inline command: its maximal runs of non-blank characters. `word` is
      the run being collected. */
  function SplitFrom(line: string, word: string): Command {
    if line == "" then (if word == "" then [] else [word])
    else if line[0] == ' ' then (if word == "" then [] else [word]) + SplitFrom(line[1..], "")
    else SplitFrom(line[1..], word + [line[0]])
  }

  function ReadCommand(s: string): (r: Read<Command>)
    ensures r.Got? ==> |r.rest| < |s|
  {
    if s == "" then Failed
    else if s[0] == '*' then ReadArray(s[1..])
    else
      match ReadLine(s)
      case Got(line, rest) => Got(SplitFrom(line, ""), rest)
      case Failed => Failed
      case Panicked => Panicked
  }

  /** The commands the replay loop delivers: every non-empty one up to the first error. */
  function Delivered(s: string): seq<Command>
    decreases |s|
  {
    match ReadCommand(s)
    case Got(args, rest) => (if args == [] then [] else [args]) + Delivered(rest)
    case Failed => []
    case Panicked => []
  }

  /** Lines end where the carriage returns and newlines at their end begin. */
  lemma {:induction false} LineEndsStripped(line: string)
    ensures var r := StripNewline(line);
      && |r| <= |line| && line[..|r|] == r
      && (forall i :: |r| <= i < |line| ==> line[i] in "\r\n")
      && (r != "" ==> r[|r| - 1] !in "\r\n")
  {
    if line != "" && line[|line| - 1] in "\r\n" {
      var n := |line| - 1;
      LineEndsStripped(line[..n]);
      var r := StripNewline(line[..n]);
      forall i | |r| <= i < |line| ensures line[i] in "\r\n" {
        if i < n { assert line[..n][i] == line[i]; }
      }
    }
  }

  lemma ShortBulk(arg: string, digit: char)
    requires |arg| < 10 && digit == DigitChar(|arg|)
    ensures EncodeBulk(arg) == ['$', digit, '\r', '\n'] + arg + "\r\n"
  {
    assert FormatNat(|arg|) == [digit];
  }

  lemma TwoBulks(a: string, b: string)
    ensures EncodeBulks([a, b]) == EncodeBulk(a) + EncodeBulk(b)
  {
    assert [a, b][1..] == [b] && [b][1..] == [];
    assert EncodeBulks([]) == "";
    assert EncodeBulks([b]) == EncodeBulk(b) + "" == EncodeBulk(b);
  }

  /** A command on the wire, byte by byte. */
  lemma OnTheWire()
    ensures Encode(["GET", "k"]) == "*2\r\n$3\r\nGET\r\n$1\r\nk\r\n"
  {
    assert FormatNat(2) == "2";
    ShortBulk("GET", '3');
    ShortBulk("k", '1');
    TwoBulks("GET", "k");
    Assembled();
  }

  lemma Assembled()
    ensures ['$', '3', '\r', '\n'] + "GET" + "\r\n" == "$3\r\nGET\r\n"
    ensures ['$', '1', '\r', '\n'] + "k" + "\r\n" == "$1\r\nk\r\n"
    ensures "$3\r\nGET\r\n" + "$1\r\nk\r\n" == "$3\r\nGET\r\n$1\r\nk\r\n"
    ensures "*" + ("2" + "\r\n" + "$3\r\nGET\r\n$1\r\nk\r\n") == "*2\r\n$3\r\nGET\r\n$1\r\nk\r\n"
  {}

  // ---- Round trip ----

  lemma StripKeepsDigits(line: string)
    requires line != "" ==> IsDigit(line[|line| - 1])
    ensures StripNewline(line + CRLF) == line
  {
    var s := line + CRLF;
    assert s[|s| - 1] == '\n' && s[..|s| - 1] == line + "\r";
    assert (line + "\r")[..|line|] == line;
    assert StripNewline(line) == line;
  }

  /** A printed length reads back, whatever follows it. */
  lemma ReadPrintedInt(n: nat, rest: string)
    requires IsInt64(n)
    ensures ReadInt(FormatNat(n) + CRLF + rest) == Got(n, rest)
  {
    var line := FormatNat(n);
    var s := line + CRLF + rest;
    assert s[|line|] == '\r' && s[|line| + 1] == '\n';
    var k := NewlineFrom(s, 0);
    assert forall i :: 0 <= i < |line| ==> s[i] == line[i];
    assert k == |line| + 1;
    assert s[..k + 1] == line + CRLF;
    assert s[k + 1..] == rest;
    StripKeepsDigits(line);
    ParseFormat(n);
  }

  /** A length line cut before its newline does not read. */
  lemma ReadTornInt(n: nat, cut: nat)
    requires cut < |FormatNat(n) + CRLF|
    ensures ReadInt((FormatNat(n) + CRLF)[..cut]) == Failed
  {
    var s := (FormatNat(n) + CRLF)[..cut];
    forall i | 0 <= i < |s| ensures s[i] != '\n' {
      if i < |FormatNat(n)| { assert s[i] == FormatNat(n)[i]; }
    }
    assert NewlineFrom(s, 0) == |s|;
  }

  lemma ReadEncodedBulk(arg: string, rest: string)
    requires |arg| <= MAX_INT64
    ensures ReadBulk(EncodeBulk(arg) + rest) == Got(arg, rest)
  {
    var head, tail := FormatNat(|arg|) + CRLF, arg + CRLF + rest;
    Regroup("$", head, arg + CRLF, rest);
    Unmark('$', head + tail);
    ReadPrintedInt(|arg|, tail);
    assert tail[..|arg|] == arg && tail[|arg| + 2..] == rest;
  }

  lemma LengthFails(t: string)
    requires ReadInt(t) == Failed
    ensures ReadBulk("$" + t) == Failed
  {
    Unmark('$', t);
  }

  lemma BodyFails(n: nat, tail: string)
    requires n <= MAX_INT64 && |tail| < n + 2
    ensures ReadBulk("$" + (FormatNat(n) + CRLF + tail)) == Failed
  {
    Unmark('$', FormatNat(n) + CRLF + tail);
    ReadPrintedInt(n, tail);
  }

  lemma NothingFails()
    ensures ReadBulk("") == Failed && ReadCommand("") == Failed
  {}

  lemma ReadTornBulk(arg: string, cut: nat)
    requires |arg| <= MAX_INT64
    requires cut < |EncodeBulk(arg)|
    ensures ReadBulk(EncodeBulk(arg)[..cut]) == Failed
  {
    var head, body := FormatNat(|arg|) + CRLF, arg + CRLF;
    NothingFails();
    forall c | 0 <= c < |head| ensures ReadBulk("$" + head[..c]) == Failed {
      ReadTornInt(|arg|, c);
      LengthFails(head[..c]);
    }
    forall c | 0 <= c < |body| ensures ReadBulk("$" + (head + body[..c])) == Failed {
      BodyFails(|arg|, body[..c]);
    }
    MarkedTears(ReadBulk, '$', head, body, cut);
  }

  lemma BulkReadsBack(arg: string)
    requires |arg| <= MAX_INT64
    ensures Decodes(ReadBulk, EncodeBulk, arg) && Tears(ReadBulk, EncodeBulk, arg)
  {
    forall rest ensures ReadBulk(EncodeBulk(arg) + rest) == Got(arg, rest) {
      ReadEncodedBulk(arg, rest);
    }
    forall cut | 0 <= cut < |EncodeBulk(arg)| ensures ReadBulk(EncodeBulk(arg)[..cut]) == Failed {
      ReadTornBulk(arg, cut);
    }
  }

  lemma BulksReadBack(args: Command)
    requires forall a :: a in args ==> |a| <= MAX_INT64
    ensures forall a :: a in args ==> Decodes(ReadBulk, EncodeBulk, a) && Tears(ReadBulk, EncodeBulk, a)
  {
    forall a | a in args ensures Decodes(ReadBulk, EncodeBulk, a) && Tears(ReadBulk, EncodeBulk, a) {
      BulkReadsBack(a);
    }
  }

  lemma ReadEncodedBulks(args: Command, rest: string)
    requires forall a :: a in args ==> |a| <= MAX_INT64
    ensures ReadBulks(|args|, EncodeBulks(args) + rest) == Got(args, rest)
  {
    BulksReadBack(args);
    ManyDecode(ReadBulk, EncodeBulk, args, rest);
  }

  lemma ReadTornBulks(args: Command, cut: nat)
    requires forall a :: a in args ==> |a| <= MAX_INT64
    requires cut < |EncodeBulks(args)|
    ensures ReadBulks(|args|, EncodeBulks(args)[..cut]) == Failed
  {
    BulksReadBack(args);
    ManyTear(ReadBulk, EncodeBulk, args, cut);
  }

  lemma ReadEncoded(args: Command, rest: string)
    requires Fits(args)
    ensures ReadCommand(Encode(args) + rest) == Got(args, rest)
  {
    var s := Encode(args) + rest;
    var tail := EncodeBulks(args) + rest;
    assert s[1..] == FormatNat(|args|) + CRLF + tail;
    ReadPrintedInt(|args|, tail);
    ReadEncodedBulks(args, rest);
  }

  /** A frame whose count does not read, or whose arguments do not, does not read. */
  lemma CountFails(rest: string)
    requires ReadInt(rest) == Failed
    ensures ReadCommand("*" + rest) == Failed
  {
    Unmark('*', rest);
  }

  /** Once its count has been read, a frame is its arguments. */
  lemma CountedReads(n: nat, tail: string)
    requires 0 < n <= MAX_INT64
    ensures ReadCommand("*" + (FormatNat(n) + CRLF + tail)) == ReadBulks(n, tail)
  {
    Unmark('*', FormatNat(n) + CRLF + tail);
    ReadPrintedInt(n, tail);
  }

  /** A frame cut short anywhere, even inside its last line end, does not read. */
  lemma ReadTorn(args: Command, cut: nat)
    requires Fits(args)
    requires cut < |Encode(args)|
    ensures ReadCommand(Encode(args)[..cut]) == Failed
  {
    var head, body := FormatNat(|args|) + CRLF, EncodeBulks(args);
    NothingFails();
    forall c | 0 <= c < |head| ensures ReadCommand("*" + head[..c]) == Failed {
      ReadTornInt(|args|, c);
      CountFails(head[..c]);
    }
    forall c | 0 <= c < |body| ensures ReadCommand("*" + (head + body[..c])) == Failed {
      ReadTornBulks(args, c);
      CountedReads(|args|, body[..c]);
    }
    MarkedTears(ReadCommand, '*', head, body, cut);
  }

  /** How many of the frames of `cmds` lie wholly inside the first `n` encoded bytes. */
  function WholeFrames(cmds: seq<Command>, n: nat): (k: nat)
    ensures k <= |cmds|
  {
    if cmds == [] || n < |Encode(cmds[0])| then 0
    else 1 + WholeFrames(cmds[1..], n - |Encode(cmds[0])|)
  }

  /** What WholeFrames counts: frame k is the first that does not end inside the prefix. */
  lemma {:induction false} WholeFramesMeaning(cmds: seq<Command>, n: nat)
    ensures var k := WholeFrames(cmds, n);
      && |EncodeAll(cmds[..k])| <= n
      && (k < |cmds| ==> n < |EncodeAll(cmds[..k + 1])|)
  {
    var k := WholeFrames(cmds, n);
    if cmds != [] {
      if n < |Encode(cmds[0])| {
        assert cmds[..1][1..] == [];
      } else {
        WholeFramesMeaning(cmds[1..], n - |Encode(cmds[0])|);
        assert cmds[..k][1..] == cmds[1..][..k - 1];
        if k < |cmds| { assert cmds[..k + 1][1..] == cmds[1..][..k]; }
      }
    }
  }

  lemma TornFirst(cmd: Command, rest: string, n: nat)
    requires Fits(cmd) && n < |Encode(cmd)|
    ensures Delivered((Encode(cmd) + rest)[..n]) == []
  {
    Cut(Encode(cmd), rest, n);
    ReadTorn(cmd, n);
    DeliveredStops(Encode(cmd)[..n]);
  }

  lemma WholeFirst(cmd: Command, rest: string, n: nat)
    requires Fits(cmd) && |Encode(cmd)| <= n <= |Encode(cmd) + rest|
    ensures Delivered((Encode(cmd) + rest)[..n]) == [cmd] + Delivered(rest[..n - |Encode(cmd)|])
  {
    var more := rest[..n - |Encode(cmd)|];
    Cut(Encode(cmd), rest, n);
    ReadEncoded(cmd, more);
    DeliveredCons(Encode(cmd) + more, cmd, more);
  }

  lemma TornAtOnce(cmds: seq<Command>, n: nat)
    requires cmds != [] && Fits(cmds[0]) && n < |Encode(cmds[0])|
    ensures Delivered(EncodeAll(cmds)[..n]) == cmds[..WholeFrames(cmds, n)]
  {
    TornFirst(cmds[0], EncodeAll(cmds[1..]), n);
  }

  lemma TornLater(cmds: seq<Command>, n: nat, rest: seq<Command>)
    requires cmds != [] && Fits(cmds[0]) && |Encode(cmds[0])| <= n <= |EncodeAll(cmds)|
    requires rest == Delivered(EncodeAll(cmds[1..])[..n - |Encode(cmds[0])|])
    ensures Delivered(EncodeAll(cmds)[..n]) == [cmds[0]] + rest
  {
    WholeFirst(cmds[0], EncodeAll(cmds[1..]), n);
  }

  /** Torn tail: replaying the first `n` bytes of a log delivers exactly the commands whose
      frames lie wholly inside them, never a partial or altered one, and then stops. */
  lemma {:induction false} TornTail(cmds: seq<Command>, n: nat)
    requires AllFit(cmds)
    requires n <= |EncodeAll(cmds)|
    ensures Delivered(EncodeAll(cmds)[..n]) == cmds[..WholeFrames(cmds, n)]
  {
    if cmds != [] {
      if n < |Encode(cmds[0])| {
        TornAtOnce(cmds, n);
      } else {
        var left := n - |Encode(cmds[0])|;
        TornTail(cmds[1..], left);
        var rest := Delivered(EncodeAll(cmds[1..])[..left]);
        TornLater(cmds, n, rest);
        OneMoreFrame(cmds, n, rest);
      }
    }
  }

  lemma OneMoreFrame(cmds: seq<Command>, n: nat, rest: seq<Command>)
    requires cmds != [] && |Encode(cmds[0])| <= n
    requires rest == cmds[1..][..WholeFrames(cmds[1..], n - |Encode(cmds[0])|)]
    ensures [cmds[0]] + rest == cmds[..WholeFrames(cmds, n)]
  {
    ConsPrefix(cmds, WholeFrames(cmds[1..], n - |Encode(cmds[0])|));
  }

  lemma ConsPrefix(cmds: seq<Command>, k: nat)
    requires k < |cmds|
    ensures cmds[..k + 1] == [cmds[0]] + cmds[1..][..k]
  {}

  lemma DeliveredStops(s: string)
    requires ReadCommand(s) == Failed
    ensures Delivered(s) == []
  {}

  lemma DeliveredCons(s: string, args: Command, rest: string)
    requires ReadCommand(s) == Got(args, rest) && args != []
    ensures Delivered(s) == [args] + Delivered(rest)
  {}

  /** Round trip: a whole log decodes to the commands it encodes. */
  lemma {:induction false} RoundTrip(cmds: seq<Command>)
    requires AllFit(cmds)
    ensures Delivered(EncodeAll(cmds)) == cmds
  {
    if cmds != [] {
      var rest := EncodeAll(cmds[1..]);
      ReadEncoded(cmds[0], rest);
      DeliveredCons(Encode(cmds[0]) + rest, cmds[0], rest);
      RoundTrip(cmds[1..]);
      assert [cmds[0]] + cmds[1..] == cmds;
    }
  }

  lemma {:induction false} EncodeSplit(cmds: seq<Command>, k: nat)
    requires k <= |cmds|
    ensures EncodeAll(cmds) == EncodeAll(cmds[..k]) + EncodeAll(cmds[k..])
  {
    if k > 0 {
      EncodeSplit(cmds[1..], k - 1);
      ConsPrefix(cmds, k - 1);
      assert cmds[..k][1..] == cmds[1..][..k - 1];
      assert cmds[1..][k - 1..] == cmds[k..];
      Assoc(Encode(cmds[0]), EncodeAll(cmds[1..][..k - 1]), EncodeAll(cmds[k..]));
    }
  }

  lemma EncodeCons(cmd: Command, rest: seq<Command>)
    ensures EncodeAll([cmd] + rest) == Encode(cmd) + EncodeAll(rest)
  {
    assert ([cmd] + rest)[1..] == rest;
  }

  lemma EncodeAppend(a: seq<Command>, b: seq<Command>)
    ensures EncodeAll(a + b) == EncodeAll(a) + EncodeAll(b)
  {
    EncodeSplit(a + b, |a|);
    assert (a + b)[..|a|] == a && (a + b)[|a|..] == b;
  }

  // ---- Counts and lengths that announce nothing ----

  lemma FormatIntLine(n: int)
    ensures var s := FormatInt(n);
      IsDigit(s[|s| - 1]) && forall i :: 0 <= i < |s| ==> s[i] != '\n'
  {}

  /** A printed int64 reads back, whatever follows its line. */
  lemma ReadPrintedSigned(n: int, rest: string)
    requires IsInt64(n)
    ensures ReadInt(FormatInt(n) + CRLF + rest) == Got(n, rest)
  {
    var line := FormatInt(n);
    var s := line + CRLF + rest;
    FormatIntLine(n);
    assert s[|line|] == '\r' && s[|line| + 1] == '\n';
    var k := NewlineFrom(s, 0);
    assert forall i :: 0 <= i < |line| ==> s[i] == line[i];
    assert k == |line| + 1;
    assert s[..k + 1] == line + CRLF && s[k + 1..] == rest;
    StripKeepsDigits(line);
    ParseFormat(n);
  }

  /** A count that is not positive announces an empty command, which the replay passes over. */
  lemma NoArgumentsRead(n: int, rest: string)
    requires IsInt64(n) && n <= 0
    ensures var s := "*" + (FormatInt(n) + CRLF + rest);
      ReadCommand(s) == Got([], rest) && Delivered(s) == Delivered(rest)
  {
    Unmark('*', FormatInt(n) + CRLF + rest);
    ReadPrintedSigned(n, rest);
    assert [] + Delivered(rest) == Delivered(rest);
  }

  /** A negative length ends the reading. */
  lemma NegativeLengthPanics(n: int, rest: string)
    requires IsInt64(n) && n < 0
    ensures ReadBulk("$" + (FormatInt(n) + CRLF + rest)) == Panicked
  {
    Unmark('$', FormatInt(n) + CRLF + rest);
    ReadPrintedSigned(n, rest);
  }

  // ---- Inline commands ----

  ghost predicate IsWord(w: string) {
    w != "" && ' ' !in w
  }

  ghost predicate Blank(s: string) {
    forall i :: 0 <= i < |s| ==> s[i] == ' '
  }

  /** Words with a gap before, between and after them. */
  function Spread(words: Command, gaps: seq<string>): string
    requires |gaps| == |words| + 1
  {
    if words == [] then gaps[0] else gaps[0] + words[0] + Spread(words[1..], gaps[1..])
  }

  /** `line` is made of these words, set apart by gaps of blanks; only the first and the last
      gap may be empty. */
  ghost predicate Sets(line: string, words: Command, gaps: seq<string>) {
    && |gaps| == |words| + 1
    && (forall w :: w in words ==> IsWord(w))
    && (forall i :: 0 <= i < |gaps| ==> Blank(gaps[i]))
    && (forall i :: 0 < i < |words| ==> gaps[i] != "")
    && line == Spread(words, gaps)
  }

  lemma {:induction false} SplitBlank(gap: string, rest: string)
    requires Blank(gap)
    ensures SplitFrom(gap + rest, "") == SplitFrom(rest, "")
  {
    if gap == "" {
      assert gap + rest == rest;
    } else {
      assert (gap + rest)[1..] == gap[1..] + rest;
      SplitBlank(gap[1..], rest);
    }
  }

  lemma {:induction false} SplitWord(word: string, rest: string, have: string)
    requires ' ' !in word && have + word != ""
    requires rest == "" || rest[0] == ' '
    ensures SplitFrom(word + rest, have) == [have + word] + SplitFrom(rest, "")
  {
    if word == "" {
      assert word + rest == rest && have + word == have;
    } else {
      assert word[0] in word && (word + rest)[1..] == word[1..] + rest;
      assert have + word == (have + [word[0]]) + word[1..];
      SplitWord(word[1..], rest, have + [word[0]]);
    }
  }

  lemma SetsTail(line: string, words: Command, gaps: seq<string>)
    requires Sets(line, words, gaps) && words != []
    ensures Sets(Spread(words[1..], gaps[1..]), words[1..], gaps[1..])
    ensures var rest := Spread(words[1..], gaps[1..]); rest == "" || rest[0] == ' '
  {
    var tail := gaps[1..];
    forall i | 0 <= i < |tail| ensures Blank(tail[i]) { assert tail[i] == gaps[i + 1]; }
    forall i | 0 < i < |words[1..]| ensures tail[i] != "" { assert tail[i] == gaps[i + 1]; }
    assert Blank(tail[0]);
  }

  lemma {:induction false} SpreadSplits(line: string, words: Command, gaps: seq<string>)
    requires Sets(line, words, gaps)
    ensures SplitFrom(line, "") == words
    decreases |words|
  {
    if words == [] {
      SplitBlank(gaps[0], "");
      assert gaps[0] + "" == gaps[0];
    } else {
      var rest := Spread(words[1..], gaps[1..]);
      SetsTail(line, words, gaps);
      SpreadSplits(rest, words[1..], gaps[1..]);
      Assoc(gaps[0], words[0], rest);
      SplitBlank(gaps[0], words[0] + rest);
      assert IsWord(words[0]);
      SplitWord(words[0], rest, "");
      assert "" + words[0] == words[0];
    }
  }

  lemma WidenGap(line: string, words: Command, gaps: seq<string>) returns (wider: seq<string>)
    requires Sets(line, words, gaps)
    ensures Sets(" " + line, words, wider) && wider[0] != ""
  {
    wider := [" " + gaps[0]] + gaps[1..];
    assert wider[1..] == gaps[1..];
    if words != [] {
      assert " " + (gaps[0] + words[0] + Spread(words[1..], gaps[1..]))
        == " " + gaps[0] + words[0] + Spread(words[1..], gaps[1..]);
    }
  }

  lemma PutWord(word: string, line: string, words: Command, gaps: seq<string>)
    requires IsWord(word) && Sets(line, words, gaps) && (words == [] || gaps[0] != "")
    ensures Sets(word + line, [word] + words, [""] + gaps)
  {
    var all, apart := [word] + words, [""] + gaps;
    assert all[1..] == words && apart[1..] == gaps;
    assert "" + word + line == word + line;
  }

  lemma {:induction false} SplitSpreads(line: string, word: string) returns (gaps: seq<string>)
    requires ' ' !in word
    ensures Sets(word + line, SplitFrom(line, word), gaps)
    decreases |line|
  {
    if line == "" {
      assert Sets("", [], [""]);
      if word == "" {
        gaps := [""];
        assert word + line == "" && SplitFrom(line, word) == [];
      } else {
        gaps := [""] + [""];
        PutWord(word, "", [], [""]);
        assert word + line == word + "" && SplitFrom(line, word) == [word] + [];
      }
    } else if line[0] == ' ' {
      var rest := line[1..];
      var inner := SplitSpreads(rest, "");
      assert "" + rest == rest;
      var wider := WidenGap(rest, SplitFrom(rest, ""), inner);
      assert line == " " + rest;
      if word == "" {
        gaps := wider;
        assert word + line == line && SplitFrom(line, word) == SplitFrom(rest, "");
      } else {
        gaps := [""] + wider;
        var words := [word] + SplitFrom(rest, "");
        PutWord(word, line, SplitFrom(rest, ""), wider);
        assert Sets(word + line, words, gaps);
        assert SplitFrom(line, word) == words;
      }
    } else {
      gaps := SplitSpreads(line[1..], word + [line[0]]);
      assert word + [line[0]] + line[1..] == word + line;
    }
  }

  /** The words of any line are its maximal runs of non-blank characters: they, and no others,
      make up the line with gaps of blanks that are empty at most at its ends. */
  lemma InlineWords(line: string, words: Command)
    ensures words == SplitFrom(line, "") <==> exists gaps :: Sets(line, words, gaps)
  {
    if words == SplitFrom(line, "") {
      var gaps := SplitSpreads(line, "");
      assert "" + line == line;
      assert Sets(line, words, gaps);
    }
    if gaps :| Sets(line, words, gaps) {
      SpreadSplits(line, words, gaps);
    }
  }
}
