/** CopyData frames (postgresql/protocol/copy_data.go) and the COPY stream (postgresql/copy_stream.go). */
module CopyFrames {
  import opened BigEndian
  import opened Errors
  import opened Inputs
  import Frontend
  import L = MessageLaws
  import Requests

  const TAB: byte := 0x09
  const LF: byte := 0x0A
  const CR: byte := 0x0D
  const DOT: byte := 0x2E
  const BACKSLASH: byte := 0x5C

  predicate LineEnd(b: byte) { b == CR || b == LF }

  /** `bytes.TrimRight(data, "\r\n")`. */
  function TrimRight(data: Bytes): Bytes {
    if data != [] && LineEnd(data[|data| - 1]) then TrimRight(data[..|data| - 1]) else data
  }

  /** Only backslashes and dots are left; an empty line counts too. */
  predicate IsEndMarker(data: Bytes) {
    forall k :: 0 <= k < |data| ==> data[k] == BACKSLASH || data[k] == DOT
  }

  /** `strings.Split(data, "\t")`. */
  function {:tailrecursion false} Split(data: Bytes): (fields: seq<GoString>)
    ensures fields != []
  {
    if data == [] then [[]]
    else
      var rest := Split(data[1..]);
      if data[0] == TAB then [[]] + rest else [[data[0]] + rest[0]] + rest[1..]
  }

  /** A line of COPY data, or Eof for an end marker. */
  function Line(payload: Bytes): Result<seq<GoString>> {
    var data := TrimRight(payload);
    if IsEndMarker(data) then Failure(Eof) else Success(Split(data))
  }

  function CopyData(i: Input): (r: Parsed<seq<GoString>>)
    ensures Consumed(i, r)
  {
    var (h, j) :- Requests.Header(i);
    var (payload, k) :- Requests.Data(j, h);
    match Line(payload)
    case Success(fields) => Ok(fields, k)
    case Failure(e) => Err(e, k)
  }

  /** `CopyStream.Next`. CopyDone, and any other type, end the stream as Eof; so does an end marker, which also takes
      a CopyDone right behind it. */
  function Next(i: Input): (r: Parsed<seq<GoString>>)
    ensures i.Tidy() ==> r.next.Tidy()
    ensures r.next.cuts == i.cuts && |r.next.Stream()| <= |i.Stream()| && (r.Err? ==> ReadError(r.error))
    ensures r.Ok? ==> |r.next.Stream()| < |i.Stream()|
  {
    var (t, j) :- Peek(i, 1);
    if t[0] == Frontend.COPY_DATA then
      match CopyData(j)
      case Ok(fields, k) => Ok(fields, k)
      case Err(e, k) => if e == Eof then AfterMarker(k) else Err(e, k)
    else if t[0] == Frontend.COPY_DONE then
      var (_, k) :- Requests.Header(j);
      Err(Eof, k)
    else
      Err(Eof, j)
  }

  function AfterMarker(i: Input): (r: Parsed<seq<GoString>>)
    ensures r.Err?
    ensures i.Tidy() ==> r.next.Tidy()
    ensures r.next.cuts == i.cuts && |r.next.Stream()| <= |i.Stream()| && (r.Err? ==> ReadError(r.error))
  {
    var (t, j) :- Peek(i, 1);
    if t[0] != Frontend.COPY_DONE then Err(Eof, j)
    else
      var (_, k) :- Requests.Header(j);
      Err(Eof, k)
  }

  // The line law.

  function Count(data: Bytes, b: byte): nat {
    if data == [] then 0 else (if data[0] == b then 1 else 0) + Count(data[1..], b)
  }

  function Join(fields: seq<GoString>): Bytes
    requires fields != []
  {
    if |fields| == 1 then fields[0] else fields[0] + ['\t' as int] + Join(fields[1..])
  }

  /** Trimming removes exactly the maximal trailing run of CR and LF. */
  lemma {:induction false} TrimIsMaximal(data: Bytes)
    ensures TrimRight(data) <= data
    ensures forall k :: |TrimRight(data)| <= k < |data| ==> LineEnd(data[k])
    ensures TrimRight(data) != [] ==> !LineEnd(TrimRight(data)[|TrimRight(data)| - 1])
  {
    if data != [] && LineEnd(data[|data| - 1]) {
      TrimIsMaximal(data[..|data| - 1]);
    }
  }

  lemma {:induction false} SplitFields(data: Bytes)
    ensures forall k :: 0 <= k < |Split(data)| ==> TAB !in Split(data)[k]
    ensures |Split(data)| == Count(data, TAB) + 1
  {
    if data != [] {
      SplitFields(data[1..]);
    }
  }

  lemma {:induction false} SplitJoin(data: Bytes)
    ensures Join(Split(data)) == data
  {
    if data != [] {
      SplitJoin(data[1..]);
      var rest := Split(data[1..]);
      assert data == [data[0]] + data[1..];
      if data[0] == TAB {
        assert ([[]] + rest)[1..] == rest;
      } else {
        assert ([[data[0]] + rest[0]] + rest[1..])[1..] == rest[1..];
      }
    }
  }

  lemma {:induction false} SplitAtTab(f: GoString, data: Bytes)
    requires TAB !in f
    ensures Split(f) == [f]
    ensures Split(f + [TAB] + data) == [f] + Split(data)
  {
    if f == [] {
      assert (f + [TAB] + data)[1..] == data;
    } else {
      SplitAtTab(f[1..], data);
      assert f == [f[0]] + f[1..];
      assert (f + [TAB] + data)[1..] == f[1..] + [TAB] + data;
    }
  }

  /** Every list of tab-free fields is the split of its own line, so the two forms are in one-to-one correspondence. */
  lemma {:induction false} JoinSplit(fields: seq<GoString>)
    requires fields != [] && forall k :: 0 <= k < |fields| ==> TAB !in fields[k]
    ensures Split(Join(fields)) == fields
    decreases |fields|
  {
    if |fields| == 1 {
      SplitAtTab(fields[0], []);
    } else {
      JoinSplit(fields[1..]);
      SplitAtTab(fields[0], Join(fields[1..]));
      assert fields == [fields[0]] + fields[1..];
    }
  }

  /** A CopyData frame is consumed whole, and its line is the payload without its line end, cut at every tab. */
  lemma CopyDataPrefix(i: Input, payload: Bytes, s: Bytes)
    requires |i.peek| <= 1 && i.Stream() == Frontend.Frame(Frontend.COPY_DATA, payload) + s && IsInt32(|payload| + 4)
    ensures match Line(payload) {
      case Success(fields) => CopyData(i) == Ok(fields, At(i, s))
      case Failure(e) => CopyData(i) == Err(e, At(i, s))
    }
  {
    L.HeaderPrefix(i, Frontend.COPY_DATA, payload, s);
    L.DataPrefix(At(i, payload + s), Requests.Head(Frontend.COPY_DATA, |payload| + 4), payload, s);
  }

  lemma LineLaw(payload: Bytes)
    requires !IsEndMarker(TrimRight(payload))
    ensures Line(payload).Success?
    ensures var fields, kept := Line(payload).value, TrimRight(payload);
      && (forall k :: 0 <= k < |fields| ==> TAB !in fields[k])
      && |fields| == Count(kept, TAB) + 1
      && Join(fields) == kept && kept <= payload
      && forall k :: |kept| <= k < |payload| ==> LineEnd(payload[k])
  {
    SplitFields(TrimRight(payload));
    SplitJoin(TrimRight(payload));
    TrimIsMaximal(payload);
  }
}
