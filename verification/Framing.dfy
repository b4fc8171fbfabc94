/** Reading a number of items one after the other, for any item format. */
module Framing {

  /** The outcome of reading from a stream: a value and the unread bytes, an error (end of
      input or malformed frame), or the runtime panic of a negative bulk length. */
  datatype Read<+T> = Got(value: T, rest: string) | Failed | Panicked

  function ReadMany<T>(read: string -> Read<T>, n: nat, s: string): Read<seq<T>> {
    if n == 0 then Got([], s) else
    match read(s)
    case Got(x, rest) =>
      (match ReadMany(read, n - 1, rest)
       case Got(xs, rest') => Got([x] + xs, rest')
       case Failed => Failed
       case Panicked => Panicked)
    case Failed => Failed
    case Panicked => Panicked
  }

  function EncodeMany<T>(encode: T -> string, items: seq<T>): string {
    if items == [] then "" else encode(items[0]) + EncodeMany(encode, items[1..])
  }

  /** Reading never gives back more than there was. */
  ghost predicate Shrinks<T>(read: string -> Read<T>) {
    forall s :: read(s).Got? ==> |read(s).rest| <= |s|
  }

  lemma {:induction false} ReadManyShrinks<T>(read: string -> Read<T>, n: nat, s: string)
    requires Shrinks(read)
    ensures ReadMany(read, n, s).Got? ==> |ReadMany(read, n, s).rest| <= |s|
  {
    if n > 0 && read(s).Got? {
      ReadManyShrinks(read, n - 1, read(s).rest);
    }
  }

  /** What is printed for `x` reads back, whatever follows it. */
  ghost predicate Decodes<T>(read: string -> Read<T>, encode: T -> string, x: T) {
    forall rest :: read(encode(x) + rest) == Got(x, rest)
  }

  /** What is printed for `x` does not read when it is cut short. */
  ghost predicate Tears<T>(read: string -> Read<T>, encode: T -> string, x: T) {
    forall cut :: 0 <= cut < |encode(x)| ==> read(encode(x)[..cut]) == Failed
  }

  lemma Assoc(a: string, b: string, c: string)
    ensures a + b + c == a + (b + c)
  {}

  lemma Cut(a: string, b: string, n: nat)
    requires n <= |a + b|
    ensures (a + b)[..n] == if n < |a| then a[..n] else a + b[..n - |a|]
  {}

  lemma {:induction false} ManyDecode<T>(read: string -> Read<T>, encode: T -> string, items: seq<T>, rest: string)
    requires forall x :: x in items ==> Decodes(read, encode, x)
    ensures ReadMany(read, |items|, EncodeMany(encode, items) + rest) == Got(items, rest)
  {
    if items == [] {
      assert EncodeMany(encode, items) + rest == rest;
    } else {
      var more := EncodeMany(encode, items[1..]);
      Assoc(encode(items[0]), more, rest);
      assert Decodes(read, encode, items[0]);
      ManyDecode(read, encode, items[1..], rest);
      assert [items[0]] + items[1..] == items;
    }
  }

  /** `items` in front of whatever else was read. */
  function Prepend<T>(items: seq<T>, r: Read<seq<T>>): Read<seq<T>> {
    match r
    case Got(xs, rest) => Got(items + xs, rest)
    case Failed => Failed
    case Panicked => Panicked
  }

  /** Whole items are read before whatever follows them. */
  lemma {:induction false} ManyThen<T>(
      read: string -> Read<T>, encode: T -> string, items: seq<T>, n: nat, s: string, total: nat)
    requires forall x :: x in items ==> Decodes(read, encode, x)
    requires total == |items| + n
    ensures ReadMany(read, total, EncodeMany(encode, items) + s) == Prepend(items, ReadMany(read, n, s))
  {
    var after := ReadMany(read, n, s);
    if items == [] {
      assert EncodeMany(encode, items) + s == s;
      assert after.Got? ==> items + after.value == after.value;
    } else {
      var more := EncodeMany(encode, items[1..]);
      Assoc(encode(items[0]), more, s);
      assert Decodes(read, encode, items[0]);
      ManyThen(read, encode, items[1..], n, s, total - 1);
      assert after.Got? ==> [items[0]] + (items[1..] + after.value) == items + after.value;
    }
  }

  /** Whole items and then one that does not read. */
  lemma ManyThenFail<T>(read: string -> Read<T>, encode: T -> string, items: seq<T>, s: string, total: nat)
    requires forall x :: x in items ==> Decodes(read, encode, x)
    requires total > |items| && read(s) == Failed
    ensures ReadMany(read, total, EncodeMany(encode, items) + s) == Failed
  {
    ManyThen(read, encode, items, total - |items|, s, total);
  }

  /** Whole items, then one that is read as `x`, then what is due. */
  lemma ManyThenOne<T>(
      read: string -> Read<T>, encode: T -> string, items: seq<T>, s: string, x: T, rest: string, n: nat, total: nat)
    requires forall x :: x in items ==> Decodes(read, encode, x)
    requires total == |items| + 1 + n && read(s) == Got(x, rest)
    ensures ReadMany(read, total, EncodeMany(encode, items) + s) == Prepend(items + [x], ReadMany(read, n, rest))
  {
    var due := ReadMany(read, n, rest);
    ManyThen(read, encode, items, n + 1, s, total);
    assert due.Got? ==> items + ([x] + due.value) == items + [x] + due.value;
  }

  /** Items cut short anywhere do not read. */
  lemma {:induction false} ManyTear<T>(read: string -> Read<T>, encode: T -> string, items: seq<T>, cut: nat)
    requires forall x :: x in items ==> Decodes(read, encode, x) && Tears(read, encode, x)
    requires cut < |EncodeMany(encode, items)|
    ensures ReadMany(read, |items|, EncodeMany(encode, items)[..cut]) == Failed
  {
    var first, more := encode(items[0]), EncodeMany(encode, items[1..]);
    Cut(first, more, cut);
    assert Decodes(read, encode, items[0]) && Tears(read, encode, items[0]);
    if cut >= |first| {
      ManyTear(read, encode, items[1..], cut - |first|);
    }
  }

  /** A frame with a head and a body, after a mark, does not read when it is cut short if
      neither a torn head nor a torn body reads. */
  lemma MarkedTears<T>(read: string -> Read<T>, mark: char, head: string, body: string, cut: nat)
    requires read("") == Failed
    requires forall c :: 0 <= c < |head| ==> read([mark] + head[..c]) == Failed
    requires forall c :: 0 <= c < |body| ==> read([mark] + (head + body[..c])) == Failed
    requires cut < |[mark] + (head + body)|
    ensures read(([mark] + (head + body))[..cut]) == Failed
  {
    if cut > 0 {
      CutMark(mark, head + body, cut);
      Cut(head, body, cut - 1);
    }
  }

  lemma CutMark(mark: char, t: string, cut: nat)
    requires 0 < cut <= |t| + 1
    ensures ([mark] + t)[..cut] == [mark] + t[..cut - 1]
  {}

  /** Once its mark is taken off, a frame's line is next. */
  lemma Unmark(mark: char, t: string)
    ensures ([mark] + t)[0] == mark && ([mark] + t)[1..] == t
  {}

  lemma Regroup(a: string, b: string, c: string, d: string)
    ensures a + (b + c) + d == a + (b + (c + d))
  {}
}
