/** Signed 64-bit integers and their decimal text, as strconv prints and parses them. */
module Decimal {
  import opened Basics

  const MAX_INT64: int := 0x7FFF_FFFF_FFFF_FFFF
  const MIN_INT64: int := -0x8000_0000_0000_0000

  predicate IsInt64(n: int) {
    MIN_INT64 <= n <= MAX_INT64
  }

  /** Two's complement wrap-around of an int64 computation. */
  function Wrap64(n: int): (r: int)
    ensures IsInt64(r)
    ensures IsInt64(n) ==> r == n
  {
    (n - MIN_INT64) % 0x1_0000_0000_0000_0000 + MIN_INT64
  }

  /** The int64 it leaves is the one that differs by a multiple of two to the sixty-fourth. */
  lemma WrapIsCongruent(n: int)
    ensures (Wrap64(n) - n) % 0x1_0000_0000_0000_0000 == 0
  {}

  predicate IsDigit(c: char) {
    '0' <= c <= '9'
  }

  function DigitChar(d: nat): (c: char)
    requires d < 10
    ensures IsDigit(c) && DigitValue(c) == d
  {
    '0' + d as char
  }

  function DigitValue(c: char): nat
    requires IsDigit(c)
  {
    (c - '0') as nat
  }

  function FormatNat(n: nat): (s: string)
    ensures 1 <= |s| <= n / 10 + 1
    ensures forall i :: 0 <= i < |s| ==> IsDigit(s[i])
  {
    if n < 10 then [DigitChar(n)] else FormatNat(n / 10) + [DigitChar(n % 10)]
  }

  function FormatInt(n: int): (s: string)
    ensures |s| >= 1
  {
    if n < 0 then "-" + FormatNat(-n) else FormatNat(n)
  }

  /** The value of a non-empty all-digit text. */
  function ParseDigits(s: string): Option<nat> {
    if s == "" || !IsDigit(s[|s| - 1]) then None
    else if |s| == 1 then Some(DigitValue(s[0]))
    else match ParseDigits(s[..|s| - 1])
      case None => None
      case Some(v) => Some(10 * v + DigitValue(s[|s| - 1]))
  }

  /** strconv.ParseInt(s, 10, 64); strconv.Atoi is the same function where int has 64 bits. */
  function ParseInt(s: string): (r: Option<int>)
    ensures r.Some? ==> IsInt64(r.value)
  {
    if s == "" then None else
    var negative := s[0] == '-';
    match ParseDigits(if negative || s[0] == '+' then s[1..] else s)
    case None => None
    case Some(v) =>
      var n: int := if negative then 0 - v else v;
      if IsInt64(n) then Some(n) else None
  }

  lemma {:induction false} ParseFormatNat(n: nat)
    ensures ParseDigits(FormatNat(n)) == Some(n)
  {
    if n >= 10 {
      ParseFormatNat(n / 10);
      var s := FormatNat(n);
      assert s[..|s| - 1] == FormatNat(n / 10);
    }
  }

  lemma ParseUnsigned(s: string, v: nat)
    requires ParseDigits(s) == Some(v) && IsDigit(s[0]) && IsInt64(v)
    ensures ParseInt(s) == Some(v)
  {}

  lemma ParseNegative(s: string, v: int)
    requires v >= 0 && ParseDigits(s) == Some(v) && IsInt64(-v)
    ensures ParseInt("-" + s) == Some(-v)
  {
    assert ("-" + s)[1..] == s;
  }

  /** Printing then parsing is the identity on every int64. */
  lemma ParseFormat(n: int)
    requires IsInt64(n)
    ensures ParseInt(FormatInt(n)) == Some(n)
  {
    if n < 0 {
      ParseFormatNat(-n);
      ParseNegative(FormatNat(-n), -n);
    } else {
      ParseFormatNat(n);
      ParseUnsigned(FormatNat(n), n);
    }
  }

  // ---- Which texts are numbers ----

  function Pow10(n: nat): nat {
    if n == 0 then 1 else 10 * Pow10(n - 1)
  }

  /** The number a row of digits stands for, read from the left: each counts for its place. */
  function PlaceValue(s: string): nat
    requires forall i :: 0 <= i < |s| ==> IsDigit(s[i])
  {
    if s == "" then 0 else DigitValue(s[0]) * Pow10(|s| - 1) + PlaceValue(s[1..])
  }

  predicate AllDigits(s: string) {
    s != "" && forall i :: 0 <= i < |s| ==> IsDigit(s[i])
  }

  lemma {:induction false} PlaceValueSnoc(s: string, c: char)
    requires (forall i :: 0 <= i < |s| ==> IsDigit(s[i])) && IsDigit(c)
    ensures PlaceValue(s + [c]) == 10 * PlaceValue(s) + DigitValue(c)
  {
    if s == "" {
      assert s + [c] == [c] && [c][1..] == "";
      assert PlaceValue("") == 0 && Pow10(0) == 1;
    } else {
      assert (s + [c])[1..] == s[1..] + [c];
      PlaceValueSnoc(s[1..], c);
      TenTimes(DigitValue(s[0]), Pow10(|s| - 1));
    }
  }

  lemma TenTimes(d: nat, p: nat)
    ensures d * (10 * p) == 10 * (d * p)
  {}

  /** Exactly the rows of digits are read, each as what its places say. */
  lemma {:induction false} DigitsAreRead(s: string)
    ensures ParseDigits(s) == if AllDigits(s) then Some(PlaceValue(s)) else None
  {
    if s != "" && IsDigit(s[|s| - 1]) {
      var start := s[..|s| - 1];
      assert start + [s[|s| - 1]] == s;
      if start == "" {
        assert s[1..] == "" && Pow10(0) == 1;
      } else {
        DigitsAreRead(start);
        if AllDigits(start) {
          PlaceValueSnoc(start, s[|s| - 1]);
        }
        if AllDigits(s) {
          assert forall i :: 0 <= i < |start| ==> start[i] == s[i];
        }
      }
    }
  }

  /** The digits of a text, behind the sign it may have. */
  function Unsigned(s: string): string {
    if s != "" && (s[0] == '-' || s[0] == '+') then s[1..] else s
  }

  /** A text is a number exactly if it is a row of digits with at most one sign before it, and
      what it says lies in int64; a minus turns it around. */
  lemma NumbersAreRead(s: string)
    ensures ParseInt(s).Some? <==> AllDigits(Unsigned(s)) && IsInt64(Signed(s))
    ensures ParseInt(s).Some? ==> ParseInt(s).value == Signed(s)
  {
    DigitsAreRead(Unsigned(s));
  }

  /** What the text says, if its digits are digits. */
  function Signed(s: string): int {
    if !AllDigits(Unsigned(s)) then 0 else
    var n: int := PlaceValue(Unsigned(s));
    if s[0] == '-' then -n else n
  }

  /** How a number is printed: no leading zero, and a minus only before what is not zero. */
  predicate IsPlain(s: string) {
    s != "" && if s[0] == '-' then |s| > 1 && IsDigit(s[1]) && s[1] != '0'
               else s == "0" || (IsDigit(s[0]) && s[0] != '0')
  }

  lemma {:induction false} FormatNatIsPlain(n: nat)
    ensures var s := FormatNat(n); IsDigit(s[0]) && (s[0] == '0' <==> n == 0) && (n < 10 ==> |s| == 1)
  {
    if n >= 10 {
      FormatNatIsPlain(n / 10);
    }
  }

  lemma {:induction false} PlainDigitsAreFormat(s: string, v: nat)
    requires ParseDigits(s) == Some(v) && (s[0] == '0' ==> |s| == 1)
    ensures s == FormatNat(v) && (s[0] != '0' ==> v > 0)
  {
    if |s| > 1 {
      var start := s[..|s| - 1];
      var w := ParseDigits(start).value;
      PlainDigitsAreFormat(start, w);
      assert v / 10 == w && v % 10 == DigitValue(s[|s| - 1]);
      assert s == start + [s[|s| - 1]];
    }
  }

  /** A number is printed as its plain text: among all texts that read as it there is no other. */
  lemma FormatIsTheOne(s: string, n: int)
    requires IsInt64(n)
    ensures s == FormatInt(n) <==> ParseInt(s) == Some(n) && IsPlain(s)
  {
    ParseFormat(n);
    FormatIsPlain(n);
    if ParseInt(s) == Some(n) && IsPlain(s) {
      if s[0] == '-' {
        PlainNegative(s, n);
      } else {
        PlainUnsigned(s, n);
      }
    }
  }

  lemma PlainNegative(s: string, n: int)
    requires ParseInt(s) == Some(n) && IsPlain(s) && s[0] == '-'
    ensures s == FormatInt(n)
  {
    var v: int := ParseDigits(s[1..]).value;
    PlainDigitsAreFormat(s[1..], v);
    assert n == -v && v > 0;
    assert s == "-" + s[1..];
  }

  lemma PlainUnsigned(s: string, n: int)
    requires ParseInt(s) == Some(n) && IsPlain(s) && s[0] != '-'
    ensures s == FormatInt(n)
  {
    PlainDigitsAreFormat(s, ParseDigits(s).value);
  }

  lemma FormatIsPlain(n: int)
    ensures IsPlain(FormatInt(n))
  {
    if n < 0 {
      FormatNatIsPlain(-n);
    } else {
      FormatNatIsPlain(n);
      if n == 0 {
        assert FormatInt(0) == "0";
      }
    }
  }
}
