/**
 The peekable reader of postgresql/protocol/reader.go.

 `Input` is the reader's whole state as a value. Its functions say, for every state, what one reader call returns
 and which state it leaves; `PeekReader.Reader` is the mutable object, whose methods are proved against them.
 */
module Inputs {
  import opened BigEndian
  import opened Errors

  /** `peek` is peekBuf; `rest` is what the byte source still delivers before it ends. The source hands its bytes out
      in segments: a cut `c` says that a segment ends when `c` bytes remain. `misused` records, for the proofs only,
      that a peek found more bytes buffered than it asked for or that a raw read found bytes buffered. */
  datatype Input = Input(peek: Bytes, rest: Bytes, cuts: set<nat>, misused: bool) {
    /** The bytes still to be read, in order. */
    function Stream(): (s: Bytes) { peek + rest }

    /** The state between two requests: at most a peeked type byte is buffered. */
    predicate Tidy() { |peek| <= 1 && !misused }

    /** The state inside a message. */
    predicate Drained() { peek == [] && !misused }

    /** `this` after some calls that started in `before`. */
    predicate After(before: Input) {
      && cuts == before.cuts
      && |Stream()| <= |before.Stream()|
      && (before.peek == [] ==> peek == [])
      && (before.Drained() ==> Drained())
    }
  }

  /** The outcome of a call: a value or an error, and the state left behind either way. */
  datatype Parsed<+T> = Ok(value: T, next: Input) | Err(error: Error, next: Input) {
    predicate IsFailure() { Err? }

    function PropagateFailure<U>(): Parsed<U>
      requires Err?
    {
      Err(error, next)
    }

    function Extract(): (T, Input)
      requires Ok?
    {
      (value, next)
    }
  }

  predicate Reads<T>(i: Input, r: Parsed<T>) {
    r.next.After(i) && (r.Err? ==> ReadError(r.error))
  }

  /** One message was read, or as much of it as there was: what the dispatch loop needs from every parser. */
  predicate Consumed<T>(i: Input, r: Parsed<T>) {
    && Reads(i, r)
    && (i.Stream() != [] ==> |r.next.Stream()| < |i.Stream()|)
    && (i.Tidy() ==> r.next.Drained())
  }

  /** `ReadBytes` with an n-byte buffer: buffered bytes first, then exactly the missing ones from the source. */
  function Take(i: Input, n: nat): (r: Parsed<Bytes>)
    ensures r.Ok? <==> n <= |i.Stream()|
    ensures r.Ok? ==> r.value == i.Stream()[..n] && r.next.Stream() == i.Stream()[n..]
    ensures r.Err? ==> r.next.Stream() == [] && (r.error == Eof || r.error == UnexpectedEof)
    ensures Reads(i, r) && r.next.misused == i.misused
    ensures |i.peek| <= n ==> r.next.peek == []
  {
    if n <= |i.peek| then
      Ok(i.peek[..n], i.(peek := i.peek[n..]))
    else if n - |i.peek| <= |i.rest| then
      Ok(i.peek + i.rest[..n - |i.peek|], i.(peek := [], rest := i.rest[n - |i.peek|..]))
    else
      Err(if i.rest == [] then Eof else UnexpectedEof, i.(peek := [], rest := []))
  }

  /** `PeekBytes`: read n bytes, then put them back at the END of the buffer. */
  function Peek(i: Input, n: nat): (r: Parsed<Bytes>)
    ensures r.Ok? <==> n <= |i.Stream()|
    ensures r.Ok? ==> r.value == i.Stream()[..n] && |r.next.Stream()| == |i.Stream()|
    ensures r.Err? ==> r.next.Stream() == []
    ensures r.next.cuts == i.cuts && (r.Err? ==> ReadError(r.error))
  {
    var (b, j) :- Take(i, n);
    Ok(b, j.(peek := j.peek + b, misused := j.misused || |i.peek| > n))
  }

  /** A peek that asks for at least what is buffered changes nothing but where the bytes sit. */
  lemma PeekKeepsStream(i: Input, n: nat)
    requires |i.peek| <= n <= |i.Stream()|
    ensures Peek(i, n).next == i.(peek := i.Stream()[..n], rest := i.Stream()[n..])
    ensures Peek(i, n).next.Stream() == i.Stream()
  {
    var b, s := i.Stream()[..n], i.Stream()[n..];
    assert i.Stream() == b + s;
    TakePrefix(i, b, s);
    hide Take;
    assert [] + b == b;
  }

  /** Exactly when a peek is harmless: it either asks for at least the buffered bytes, or rotates them onto
      themselves. */
  lemma PeekHarmlessIff(i: Input, n: nat)
    requires n <= |i.Stream()|
    ensures Peek(i, n).next.Stream() == i.Stream()
       <==> |i.peek| <= n || i.peek[n..] + i.peek[..n] == i.peek
  {
    if |i.peek| <= n {
      PeekKeepsStream(i, n);
    } else {
      var p := i.peek[n..] + i.peek[..n];
      assert Peek(i, n).next.Stream() == p + i.rest;
      if p + i.rest == i.peek + i.rest {
        assert (p + i.rest)[..|p|] == p && (i.peek + i.rest)[..|p|] == i.peek;
      }
    }
  }

  /** Two bytes buffered and a one-byte peek: the buffered bytes come out in the wrong order. */
  lemma ShortPeekRotates()
    ensures var i := Input([1, 2], [3], {}, false);
      Peek(i, 1).Ok? && i.Stream() == [1, 2, 3] && Peek(i, 1).next.Stream() == [2, 1, 3]
  {}

  /** How many bytes one raw `Read` of up to n bytes gets when `len` bytes remain: it stops at the segment's end. */
  function Segment(len: nat, cuts: set<nat>, n: nat): (k: nat)
    ensures k <= n && k <= len
    ensures n > 0 && len > 0 ==> k > 0
    ensures forall c :: c in cuts && c < len ==> c <= len - k
    ensures k == n || k == len || len - k in cuts
  {
    if n == 0 || len == 0 then 0
    else if len - 1 in cuts then 1
    else 1 + Segment(len - 1, cuts, n - 1)
  }

  /** The embedded `io.Reader.Read`, which ignores the peek buffer and may return fewer bytes than asked for. */
  function RawRead(i: Input, n: nat): (r: Parsed<Bytes>)
    requires n > 0
    ensures Reads(i, r)
    ensures r.Ok? ==> |r.value| <= n && |r.next.Stream()| < |i.Stream()|
  {
    var j := i.(misused := i.misused || i.peek != []);
    if i.rest == [] then
      Err(Eof, j)
    else
      var k := Segment(|i.rest|, i.cuts, n);
      Ok(i.rest[..k], j.(rest := i.rest[k..]))
  }

  /** No segment ends strictly inside the next n bytes of the `len` that remain. */
  predicate Unbroken(len: nat, cuts: set<nat>, n: nat) {
    n <= len && forall c :: c in cuts ==> !(len - n < c < len)
  }

  lemma FullReadIff(i: Input, n: nat)
    requires i.peek == [] && 0 < n <= |i.rest|
    ensures RawRead(i, n).Ok?
    ensures |RawRead(i, n).value| == n <==> Unbroken(|i.rest|, i.cuts, n)
    ensures Unbroken(|i.rest|, i.cuts, n) ==>
            RawRead(i, n).value == i.rest[..n] && RawRead(i, n).next.rest == i.rest[n..]
  {
    var k := Segment(|i.rest|, i.cuts, n);
    if k < n {
      assert |i.rest| - k in i.cuts;
    }
  }

  function Byte(i: Input): (r: Parsed<byte>)
    ensures Reads(i, r)
    ensures r.Ok? <==> i.Stream() != []
    ensures r.Ok? ==> |r.next.Stream()| + 1 == |i.Stream()|
    ensures i.Tidy() ==> r.next.Drained()
  {
    var (b, j) :- Take(i, 1);
    Ok(b[0], j)
  }

  function Int16(i: Input): (r: Parsed<int>)
    ensures Reads(i, r)
  {
    var (b, j) :- Take(i, 2);
    Ok(Int16Of(b), j)
  }

  function Int32(i: Input): (r: Parsed<int>)
    ensures Reads(i, r)
    ensures |i.peek| <= 4 && !i.misused ==> r.next.Drained()
    ensures r.Ok? ==> |r.next.Stream()| + 4 == |i.Stream()|
  {
    var (b, j) :- Take(i, 4);
    Ok(Int32Of(b), j)
  }

  /** `ReadBytesUntil`, without the delimiter it also consumes. */
  function Until(i: Input, delim: byte): (r: Parsed<Bytes>)
    ensures Reads(i, r)
    ensures r.Ok? ==> |r.next.Stream()| + |r.value| + 1 == |i.Stream()|
    ensures r.Ok? ==> delim !in r.value
    decreases |i.Stream()|
  {
    var (b, j) :- Byte(i);
    if b == delim then
      Ok([], j)
    else
      var (s, k) :- Until(j, delim);
      Ok([b] + s, k)
  }

  /** `ReadString`: the bytes before the next zero byte. */
  function Str(i: Input): (r: Parsed<GoString>)
    ensures Reads(i, r)
    ensures r.Ok? ==> NulFree(r.value) && |r.next.Stream()| + |r.value| + 1 == |i.Stream()|
  {
    Until(i, 0)
  }

  /** Strings travel with a terminating zero byte, so they must not hold one. */
  predicate NulFree(s: GoString) { 0 !in s }

  /** A counted loop of `ReadInt16` into a slice made beforehand; a negative count panics in `make`. */
  function Int16s(i: Input, n: int): (r: Parsed<seq<int>>)
    ensures Reads(i, r)
    ensures r.Ok? ==> |r.value| == n
    decreases n
  {
    if n < 0 then Err(Crash(NegativeCount(n)), i)
    else if n == 0 then Ok([], i)
    else
      var (v, j) :- Int16(i);
      var (vs, k) :- Int16s(j, n - 1);
      Ok([v] + vs, k)
  }

  function Int32s(i: Input, n: int): (r: Parsed<seq<int>>)
    ensures Reads(i, r)
    ensures r.Ok? ==> |r.value| == n
    decreases n
  {
    if n < 0 then Err(Crash(NegativeCount(n)), i)
    else if n == 0 then Ok([], i)
    else
      var (v, j) :- Int32(i);
      var (vs, k) :- Int32s(j, n - 1);
      Ok([v] + vs, k)
  }

  /** `rest` with the elements already collected put in front. */
  function Prepend<T>(done: seq<T>, rest: Parsed<seq<T>>): Parsed<seq<T>> {
    match rest
    case Ok(v, i) => Ok(done + v, i)
    case Err(e, i) => Err(e, i)
  }

  lemma PrependLaws<T>(done: seq<T>, x: T, rest: Parsed<seq<T>>)
    ensures Prepend([], rest) == rest
    ensures Prepend(done, Prepend([x], rest)) == Prepend(done + [x], rest)
    ensures rest.Ok? && rest.value == [] ==> Prepend(done, rest) == Ok(done, rest.next)
    ensures rest.Err? ==> Prepend(done, rest) == rest
  {
    if rest.Ok? {
      assert [] + rest.value == rest.value && done + [] == done;
      assert done + ([x] + rest.value) == (done + [x]) + rest.value;
    }
  }

  lemma Int16sStep(i: Input, n: nat)
    ensures n == 0 ==> Int16s(i, n) == Ok([], i)
    ensures n > 0 && Int16(i).Err? ==> Int16s(i, n) == Err(Int16(i).error, Int16(i).next)
    ensures n > 0 && Int16(i).Ok? ==> Int16s(i, n) == Prepend([Int16(i).value], Int16s(Int16(i).next, n - 1))
  {}

  lemma Int32sStep(i: Input, n: nat)
    ensures n == 0 ==> Int32s(i, n) == Ok([], i)
    ensures n > 0 && Int32(i).Err? ==> Int32s(i, n) == Err(Int32(i).error, Int32(i).next)
    ensures n > 0 && Int32(i).Ok? ==> Int32s(i, n) == Prepend([Int32(i).value], Int32s(Int32(i).next, n - 1))
  {}

  // What each call gives on the encoding of its value, whatever follows.

  /** The state inside a message whose unread bytes are `s`. */
  function At(i: Input, s: Bytes): Input { i.(peek := [], rest := s) }

  lemma TakePrefix(i: Input, b: Bytes, s: Bytes)
    requires i.Stream() == b + s && |i.peek| <= |b|
    ensures Take(i, |b|) == Ok(b, At(i, s))
  {
    assert (b + s)[..|b|] == b && (b + s)[|b|..] == s;
  }

  lemma Int16Prefix(i: Input, v: int, s: Bytes)
    requires i.peek == [] && i.rest == Int16Bytes(v) + s
    ensures Int16(i) == Ok(Wrap16(v), At(i, s))
    ensures IsInt16(v) ==> Int16(i).value == v
  {
    TakePrefix(i, Int16Bytes(v), s);
    Int16RoundTrip(v);
  }

  lemma Int32Prefix(i: Input, v: int, s: Bytes)
    requires |i.peek| <= 4 && i.Stream() == Int32Bytes(v) + s
    ensures Int32(i) == Ok(Wrap32(v), At(i, s))
    ensures IsInt32(v) ==> Int32(i).value == v
  {
    TakePrefix(i, Int32Bytes(v), s);
    Int32RoundTrip(v);
  }

  lemma BytePrefix(i: Input, b: byte, s: Bytes)
    requires i.Stream() == [b] + s && |i.peek| <= 1
    ensures Byte(i) == Ok(b, At(i, s))
  {
    TakePrefix(i, [b], s);
  }

  lemma UntilStep(i: Input, delim: byte, b: byte, j: Input)
    requires Byte(i) == Ok(b, j)
    ensures Until(i, delim) ==
            if b == delim then Ok([], j)
            else
              match Until(j, delim)
              case Ok(v, k) => Ok([b] + v, k)
              case Err(e, k) => Err(e, k)
  {
    hide Byte;
  }

  lemma {:induction false} UntilPrefix(i: Input, delim: byte, v: Bytes, s: Bytes)
    requires i.peek == [] && i.rest == v + [delim] + s && delim !in v
    ensures Until(i, delim) == Ok(v, At(i, s))
    decreases |v|
  {
    hide Byte, Until;
    var t := if v == [] then s else v[1..] + [delim] + s;
    var b := if v == [] then delim else v[0];
    assert i.rest == [b] + t;
    BytePrefix(i, b, t);
    UntilStep(i, delim, b, At(i, t));
    if v != [] {
      UntilPrefix(At(i, t), delim, v[1..], s);
      assert v == [v[0]] + v[1..];
    }
  }

  lemma StrPrefix(i: Input, v: GoString, s: Bytes)
    requires i.peek == [] && i.rest == v + [0] + s && NulFree(v)
    ensures Str(i) == Ok(v, At(i, s))
  {
    UntilPrefix(i, 0, v, s);
  }

  function {:tailrecursion false} Int16sBytes(vs: seq<int>): Bytes {
    if vs == [] then [] else Int16Bytes(vs[0]) + Int16sBytes(vs[1..])
  }

  function {:tailrecursion false} Int32sBytes(vs: seq<int>): Bytes {
    if vs == [] then [] else Int32Bytes(vs[0]) + Int32sBytes(vs[1..])
  }

  lemma Int16sHead(vs: seq<int>, s: Bytes)
    requires vs != []
    ensures Int16sBytes(vs) + s == Int16Bytes(vs[0]) + (Int16sBytes(vs[1..]) + s)
  {}

  lemma {:induction false} Int16sPrefix(i: Input, vs: seq<int>, s: Bytes)
    requires i.peek == [] && i.rest == Int16sBytes(vs) + s
    requires forall v :: v in vs ==> IsInt16(v)
    ensures Int16s(i, |vs|) == Ok(vs, At(i, s))
    decreases |vs|
  {
    if vs != [] {
      var t := Int16sBytes(vs[1..]) + s;
      Int16sHead(vs, s);
      Int16Prefix(i, vs[0], t);
      Int16sPrefix(At(i, t), vs[1..], s);
      assert vs == [vs[0]] + vs[1..];
    }
  }

  lemma Int32sHead(vs: seq<int>, s: Bytes)
    requires vs != []
    ensures Int32sBytes(vs) + s == Int32Bytes(vs[0]) + (Int32sBytes(vs[1..]) + s)
  {}

  lemma {:induction false} Int32sPrefix(i: Input, vs: seq<int>, s: Bytes)
    requires i.peek == [] && i.rest == Int32sBytes(vs) + s
    requires forall v :: v in vs ==> IsInt32(v)
    ensures Int32s(i, |vs|) == Ok(vs, At(i, s))
    decreases |vs|
  {
    hide Int32Of, Int32Bytes;
    if vs != [] {
      var t := Int32sBytes(vs[1..]) + s;
      Int32sHead(vs, s);
      Int32Prefix(i, vs[0], t);
      Int32sPrefix(At(i, t), vs[1..], s);
      assert vs == [vs[0]] + vs[1..];
    }
  }
}
