/** The glob matcher of KEYS, against the language its pattern denotes. */
module Glob {

  // ---- What a pattern means ----

  /** A range of characters, both ends included; a single character is its own range. */
  datatype Range = Range(lo: char, hi: char)

  datatype Token =
    | Star
    | AnyOne
    | Class(negate: bool, ranges: seq<Range>)
    | Literal(c: char)
    | Unterminated

  predicate InRanges(c: char, ranges: seq<Range>) {
    exists i :: 0 <= i < |ranges| && ranges[i].lo <= c <= ranges[i].hi
  }

  /** The strings one token stands for. */
  predicate Denotes(t: Token, piece: string) {
    match t
    case Star => true
    case AnyOne => |piece| == 1
    case Class(negate, ranges) => |piece| == 1 && InRanges(piece[0], ranges) != negate
    case Literal(c) => piece == [c]
    case Unterminated => false
  }

  function Join(pieces: seq<string>): string {
    if pieces == [] then "" else pieces[0] + Join(pieces[1..])
  }

  ghost predicate Splits(tokens: seq<Token>, pieces: seq<string>, s: string) {
    && |pieces| == |tokens|
    && Join(pieces) == s
    && forall i :: 0 <= i < |tokens| ==> Denotes(tokens[i], pieces[i])
  }

  /** `s` is in the language of `tokens`: it can be cut into one piece for each token. */
  ghost predicate InLanguage(tokens: seq<Token>, s: string) {
    exists pieces :: Splits(tokens, pieces, s)
  }

  // ---- Reading a pattern ----

  /** The inside of a class from position `i` on: its ranges, and the position just after the
      closing bracket, or None when there is none. */
  datatype Inside = Inside(ranges: seq<Range>, end: nat) | Open

  function ReadClass(p: string, i: nat): (r: Inside)
    ensures r.Inside? ==> i < r.end <= |p|
    decreases |p| - i
  {
    if i >= |p| then Open
    else if p[i] == ']' then Inside([], i + 1)
    else if i + 2 < |p| && p[i + 1] == '-' && p[i + 2] != ']' then
      match ReadClass(p, i + 3)
      case Inside(ranges, end) => Inside([Range(p[i], p[i + 2])] + ranges, end)
      case Open => Open
    else
      match ReadClass(p, i + 1)
      case Inside(ranges, end) => Inside([Range(p[i], p[i])] + ranges, end)
      case Open => Open
  }

  function ClassStart(p: string): nat {
    if |p| > 1 && p[1] == '^' then 2 else 1
  }

  /** A pattern's tokens. An unterminated class swallows the rest of the pattern. */
  function Tokens(p: string): seq<Token> {
    if p == "" then []
    else if p[0] == '*' then [Star] + Tokens(p[1..])
    else if p[0] == '?' then [AnyOne] + Tokens(p[1..])
    else if p[0] == '[' then
      match ReadClass(p, ClassStart(p))
      case Inside(ranges, end) => [Class(ClassStart(p) == 2, ranges)] + Tokens(p[end..])
      case Open => [Unterminated]
    else if p[0] == '\\' && |p| >= 2 then [Literal(p[1])] + Tokens(p[2..])
    else [Literal(p[0])] + Tokens(p[1..])
  }

  // ---- Peeling off the first token ----

  lemma LanguageOfNone(s: string)
    ensures InLanguage([], s) <==> s == ""
  {
    if s == "" { assert Splits([], [], ""); }
  }

  lemma SplitFirst(t: Token, rest: seq<Token>, piece: string, s: string)
    requires |piece| <= |s| && s[..|piece|] == piece
    requires Denotes(t, piece) && InLanguage(rest, s[|piece|..])
    ensures InLanguage([t] + rest, s)
  {
    var pieces :| Splits(rest, pieces, s[|piece|..]);
    var all := [piece] + pieces;
    assert all[1..] == pieces;
    assert s == piece + s[|piece|..];
    assert Splits([t] + rest, all, s);
  }

  lemma FirstSplit(t: Token, rest: seq<Token>, s: string) returns (piece: string)
    requires InLanguage([t] + rest, s)
    ensures |piece| <= |s| && s[..|piece|] == piece
    ensures Denotes(t, piece) && InLanguage(rest, s[|piece|..])
  {
    var all :| Splits([t] + rest, all, s);
    piece := all[0];
    var pieces := all[1..];
    assert s == piece + Join(pieces);
    forall i | 0 <= i < |rest| ensures Denotes(rest[i], pieces[i]) {
      assert ([t] + rest)[i + 1] == rest[i] && all[i + 1] == pieces[i];
    }
    assert Splits(rest, pieces, s[|piece|..]);
  }

  /** A token that stands for single characters takes the first one. */
  lemma OneCharacter(t: Token, rest: seq<Token>, s: string)
    requires !t.Star?
    ensures InLanguage([t] + rest, s) <==> s != "" && Denotes(t, s[..1]) && InLanguage(rest, s[1..])
  {
    if InLanguage([t] + rest, s) {
      var piece := FirstSplit(t, rest, s);
      assert |piece| == 1;
    }
    if s != "" && Denotes(t, s[..1]) && InLanguage(rest, s[1..]) {
      SplitFirst(t, rest, s[..1], s);
    }
  }

  /** A star takes any prefix: membership is the existence of a split. */
  lemma StarSplits(rest: seq<Token>, s: string)
    ensures InLanguage([Star] + rest, s) <==> exists i :: 0 <= i <= |s| && InLanguage(rest, s[i..])
  {
    if InLanguage([Star] + rest, s) {
      var piece := FirstSplit(Star, rest, s);
      assert InLanguage(rest, s[|piece|..]);
    }
    if i :| 0 <= i <= |s| && InLanguage(rest, s[i..]) {
      SplitFirst(Star, rest, s[..i], s);
    }
  }

  lemma TrailingStar(s: string)
    ensures InLanguage([Star], s)
  {
    StarSplits([], s);
    LanguageOfNone("");
    assert s[|s|..] == "";
    assert [Star] + [] == [Star];
  }

  /** Collapsing stars keeps the meaning. */
  lemma StarsCollapse(rest: seq<Token>, s: string)
    ensures InLanguage([Star] + ([Star] + rest), s) <==> InLanguage([Star] + rest, s)
  {
    StarSplits([Star] + rest, s);
    StarSplits(rest, s);
    if i :| 0 <= i <= |s| && InLanguage([Star] + rest, s[i..]) {
      StarSplits(rest, s[i..]);
      var j :| 0 <= j <= |s[i..]| && InLanguage(rest, s[i..][j..]);
      assert s[i..][j..] == s[i + j..];
    }
    if InLanguage([Star] + rest, s) {
      assert s[0..] == s;
    }
  }

  // ---- The matcher ----

  datatype ClassMatch = ClassMatch(matched: bool, rest: string, ok: bool)

  method MatchClass(p: string, c: char) returns (m: ClassMatch)
    requires p != "" && p[0] == '['
    ensures var inside := ReadClass(p, ClassStart(p));
      m == if inside.Inside?
           then ClassMatch(InRanges(c, inside.ranges) != (ClassStart(p) == 2), p[inside.end..], true)
           else ClassMatch(false, "", false)
  {
    var i := 1;
    var negate := false;
    if i < |p| && p[i] == '^' {
      negate := true;
      i := i + 1;
    }
    ghost var whole := ReadClass(p, i);
    var found := false;
    while i < |p| && p[i] != ']'
      invariant 1 <= i
      invariant whole.Inside? <==> ReadClass(p, i).Inside?
      invariant whole.Inside? ==> whole.end == ReadClass(p, i).end
      invariant whole.Inside? ==> (InRanges(c, whole.ranges) <==> found || InRanges(c, ReadClass(p, i).ranges))
      decreases |p| - i
    {
      if i + 2 < |p| && p[i + 1] == '-' && p[i + 2] != ']' {
        var lo, hi := p[i], p[i + 2];
        FirstRange(c, p, i);
        if lo <= c && c <= hi {
          found := true;
        }
        i := i + 3;
      } else {
        FirstRange(c, p, i);
        if p[i] == c {
          found := true;
        }
        i := i + 1;
      }
    }
    if i >= |p| {
      return ClassMatch(false, "", false);
    }
    return ClassMatch(found != negate, p[i + 1..], true);
  }

  lemma InFirstRange(c: char, first: Range, rest: seq<Range>)
    ensures InRanges(c, [first] + rest) <==> first.lo <= c <= first.hi || InRanges(c, rest)
  {
    var all := [first] + rest;
    if first.lo <= c <= first.hi { assert all[0] == first; }
    if i :| 0 <= i < |rest| && rest[i].lo <= c <= rest[i].hi { assert all[i + 1] == rest[i]; }
  }

  lemma FirstRange(c: char, p: string, i: nat)
    requires i < |p| && p[i] != ']'
    ensures var isRange := i + 2 < |p| && p[i + 1] == '-' && p[i + 2] != ']';
      var here, next := ReadClass(p, i), ReadClass(p, if isRange then i + 3 else i + 1);
      && (here.Inside? <==> next.Inside?)
      && (here.Inside? ==>
            && here.end == next.end
            && (InRanges(c, here.ranges) <==>
                  (if isRange then p[i] <= c <= p[i + 2] else p[i] == c) || InRanges(c, next.ranges)))
  {
    var isRange := i + 2 < |p| && p[i + 1] == '-' && p[i + 2] != ']';
    var next := ReadClass(p, if isRange then i + 3 else i + 1);
    if next.Inside? {
      InFirstRange(c, if isRange then Range(p[i], p[i + 2]) else Range(p[i], p[i]), next.ranges);
    }
  }

  /** The matcher answers exactly whether the string is in the pattern's language. */
  method MatchHere(pattern: string, text: string) returns (r: bool)
    ensures r <==> InLanguage(Tokens(pattern), text)
    decreases |pattern|
  {
    var p, s := pattern, text;
    while |p| > 0
      invariant |p| <= |pattern|
      invariant InLanguage(Tokens(p), s) <==> InLanguage(Tokens(pattern), text)
      decreases |p|
    {
      if p[0] == '*' {
        while |p| > 1 && p[1] == '*'
          invariant 0 < |p| <= |pattern| && p[0] == '*'
          invariant InLanguage(Tokens(p), s) <==> InLanguage(Tokens(pattern), text)
        {
          StarsCollapse(Tokens(p[2..]), s);
          assert p[1..][1..] == p[2..];
          p := p[1..];
        }
        StarSplits(Tokens(p[1..]), s);
        if |p| == 1 {
          TrailingStar(s);
          assert Tokens(p) == [Star];
          return true;
        }
        for i := 0 to |s| + 1
          invariant forall j :: 0 <= j < i ==> !InLanguage(Tokens(p[1..]), s[j..])
        {
          var here := MatchHere(p[1..], s[i..]);
          if here {
            return true;
          }
        }
        return false;
      } else if p[0] == '?' {
        OneCharacter(AnyOne, Tokens(p[1..]), s);
        if |s| == 0 {
          return false;
        }
        p, s := p[1..], s[1..];
      } else if p[0] == '[' {
        ClassStep(p, s);
        if |s| == 0 {
          return false;
        }
        var m := MatchClass(p, s[0]);
        if !m.ok || !m.matched {
          return false;
        }
        p, s := m.rest, s[1..];
      } else if p[0] == '\\' && |p| >= 2 {
        OneCharacter(Literal(p[1]), Tokens(p[2..]), s);
        if |s| == 0 || s[0] != p[1] {
          return false;
        }
        p, s := p[2..], s[1..];
      } else {
        OneCharacter(Literal(p[0]), Tokens(p[1..]), s);
        if |s| == 0 || s[0] != p[0] {
          return false;
        }
        p, s := p[1..], s[1..];
      }
    }
    LanguageOfNone(s);
    return |s| == 0;
  }

  lemma ClassStep(p: string, s: string)
    requires p != "" && p[0] == '['
    ensures var inside := ReadClass(p, ClassStart(p));
      InLanguage(Tokens(p), s) <==>
        && inside.Inside? && s != ""
        && InRanges(s[0], inside.ranges) != (ClassStart(p) == 2)
        && InLanguage(Tokens(p[inside.end..]), s[1..])
  {
    var inside := ReadClass(p, ClassStart(p));
    if inside.Inside? {
      OneCharacter(Class(ClassStart(p) == 2, inside.ranges), Tokens(p[inside.end..]), s);
    } else {
      OneCharacter(Unterminated, [], s);
      assert [Unterminated] + [] == [Unterminated];
    }
  }

  method GlobMatch(pattern: string, s: string) returns (r: bool)
    ensures r <==> InLanguage(Tokens(pattern), s)
  {
    r := MatchHere(pattern, s);
  }

  // ---- Escaping ----

  function Escape(s: string): string {
    if s == "" then "" else ['\\', s[0]] + Escape(s[1..])
  }

  /** A fully escaped string matches itself and nothing else. */
  lemma {:induction false} EscapedMatchesItself(literal: string, s: string)
    ensures InLanguage(Tokens(Escape(literal)), s) <==> s == literal
  {
    if literal == "" {
      LanguageOfNone(s);
    } else {
      var p := Escape(literal);
      assert p[2..] == Escape(literal[1..]);
      OneCharacter(Literal(literal[0]), Tokens(p[2..]), s);
      if s != "" {
        EscapedMatchesItself(literal[1..], s[1..]);
        assert s == [s[0]] + s[1..] && literal == [literal[0]] + literal[1..];
      }
    }
  }

  // ---- What a pattern means, as it is written ----

  ghost predicate Matches(pattern: string, s: string) {
    InLanguage(Tokens(pattern), s)
  }

  lemma NothingMatches(s: string)
    ensures Matches("", s) <==> s == ""
  {
    LanguageOfNone(s);
  }

  /** A star matches any beginning of the text. */
  lemma StarMatches(rest: string, s: string)
    ensures Matches("*" + rest, s) <==> exists i :: 0 <= i <= |s| && Matches(rest, s[i..])
  {
    assert ("*" + rest)[1..] == rest;
    StarSplits(Tokens(rest), s);
    if InLanguage([Star] + Tokens(rest), s) {
      var i :| 0 <= i <= |s| && InLanguage(Tokens(rest), s[i..]);
      assert Matches(rest, s[i..]);
    }
    if i :| 0 <= i <= |s| && Matches(rest, s[i..]) {
      assert InLanguage(Tokens(rest), s[i..]);
    }
  }

  /** A question mark matches one character, whatever it is. */
  lemma QuestionMatches(rest: string, s: string)
    ensures Matches("?" + rest, s) <==> s != "" && Matches(rest, s[1..])
  {
    assert ("?" + rest)[1..] == rest;
    OneCharacter(AnyOne, Tokens(rest), s);
  }

  /** A backslash takes away what is special about the character behind it. */
  lemma EscapeMatches(c: char, rest: string, s: string)
    ensures Matches(['\\', c] + rest, s) <==> s != "" && s[0] == c && Matches(rest, s[1..])
  {
    assert (['\\', c] + rest)[2..] == rest;
    OneCharacter(Literal(c), Tokens(rest), s);
  }

  /** Any other character matches itself; so does a backslash at the very end. */
  lemma CharacterMatches(c: char, rest: string, s: string)
    requires c !in "*?[" && (c == '\\' ==> rest == "")
    ensures Matches([c] + rest, s) <==> s != "" && s[0] == c && Matches(rest, s[1..])
  {
    assert ([c] + rest)[1..] == rest;
    OneCharacter(Literal(c), Tokens(rest), s);
  }

  /** The text has no character that is special inside a class. */
  predicate IsPlainClass(body: string) {
    forall i :: 0 <= i < |body| ==> body[i] !in "-]"
  }

  lemma {:induction false} PlainClassReads(p: string, i: nat, k: nat, c: char)
    requires i <= k < |p| && p[k] == ']' && IsPlainClass(p[i..k])
    ensures var inside := ReadClass(p, i);
      inside.Inside? && inside.end == k + 1 && (InRanges(c, inside.ranges) <==> c in p[i..k])
    decreases k - i
  {
    if i < k {
      assert p[i] == p[i..k][0];
      if i + 1 < k { assert p[i + 1] == p[i..k][1]; }
      assert p[i..k] == [p[i]] + p[i + 1..k];
      FirstRange(c, p, i);
      PlainClassReads(p, i + 1, k, c);
    }
  }

  lemma ClassMatches(p: string, start: nat, k: nat, s: string)
    requires p != "" && p[0] == '[' && start == ClassStart(p) <= k && |p| == k + 1
    requires p[k] == ']' && IsPlainClass(p[start..k])
    ensures Matches(p, s) <==> |s| == 1 && (s[0] in p[start..k]) != (start == 2)
  {
    ClassStep(p, s);
    if s != "" {
      PlainClassReads(p, start, k, s[0]);
      assert p[k + 1..] == "";
      LanguageOfNone(s[1..]);
    }
  }

  /** Characters in brackets match any one of them. */
  lemma BracketsMatch(body: string, s: string)
    requires IsPlainClass(body) && (body != "" ==> body[0] != '^')
    ensures Matches("[" + body + "]", s) <==> |s| == 1 && s[0] in body
  {
    var p := "[" + body + "]";
    assert p[1..|body| + 1] == body && p[|body| + 1] == ']';
    if body != "" { assert p[1] == body[0]; }
    ClassMatches(p, 1, |body| + 1, s);
  }

  /** With a circumflex in front, any one of the others. */
  lemma NegationMatches(body: string, s: string)
    requires IsPlainClass(body)
    ensures Matches("[^" + body + "]", s) <==> |s| == 1 && s[0] !in body
  {
    var p := "[^" + body + "]";
    assert p[2..|body| + 2] == body && p[|body| + 2] == ']' && p[1] == '^';
    ClassMatches(p, 2, |body| + 2, s);
  }

  /** A dash between two characters stands for all that lie between them, both included. */
  lemma DashMatches(lo: char, hi: char, s: string)
    requires lo !in "^]" && hi != ']'
    ensures Matches(['[', lo, '-', hi, ']'], s) <==> |s| == 1 && lo <= s[0] <= hi
  {
    var p := ['[', lo, '-', hi, ']'];
    ClassStep(p, s);
    if s != "" {
      FirstRange(s[0], p, 1);
      assert ReadClass(p, 4) == Inside([], 5);
      assert p[5..] == "";
      LanguageOfNone(s[1..]);
    }
  }

  lemma {:induction false} OpenClassReads(p: string, i: nat)
    requires forall j :: i <= j < |p| ==> p[j] != ']'
    ensures ReadClass(p, i) == Open
    decreases |p| - i
  {
    if i < |p| {
      OpenClassReads(p, i + 1);
      OpenClassReads(p, i + 3);
    }
  }

  /** A bracket that is never closed matches nothing. */
  lemma OpenBracketMatches(body: string, s: string)
    requires ']' !in body
    ensures !Matches("[" + body, s)
  {
    var p := "[" + body;
    forall j | 1 <= j < |p| ensures p[j] != ']' {
      assert p[j] == body[j - 1];
    }
    OpenClassReads(p, ClassStart(p));
    ClassStep(p, s);
  }
}
