/** The mutable reader of postgresql/protocol/reader.go, each method proved against `Inputs`. */
module PeekReader {
  import opened BigEndian
  import opened Errors
  import opened Inputs

  /** The call returned `r` and left the reader in state `now`, as `p` says. */
  predicate Did<T(==)>(r: Result<T>, now: Input, p: Parsed<T>) {
    && now == p.next
    && r == if p.Ok? then Success(p.value) else Failure(p.error)
  }

  class Reader {
    var peekBuf: Bytes
    var source: Bytes          // what the connection still delivers
    const cuts: set<nat>
    ghost var misused: bool

    ghost function View(): Input
      reads this
    {
      Input(peekBuf, source, cuts, misused)
    }

    constructor (source: Bytes, cuts: set<nat>)
      ensures View() == Input([], source, cuts, false)
    {
      peekBuf, this.source, this.cuts, misused := [], source, cuts, false;
    }

    /** Fills `buf`, or reports how far the peek buffer got it. */
    method ReadBytes(buf: array<byte>) returns (nRead: nat, err: Option<Error>)
      modifies this, buf
      ensures View() == Take(old(View()), buf.Length).next
      ensures match Take(old(View()), buf.Length) {
        case Ok(b, _) => err == None && nRead == buf.Length && buf[..] == b
        case Err(e, _) => err == Some(e) && nRead == |old(peekBuf)|
      }
    {
      nRead := 0;
      if 0 < |peekBuf| {
        var nCopy := if buf.Length < |peekBuf| then buf.Length else |peekBuf|;
        forall k | 0 <= k < nCopy {
          buf[k] := peekBuf[k];
        }
        peekBuf := peekBuf[nCopy..];
        nRead := nCopy;
      }
      assert buf[..nRead] == old(peekBuf)[..nRead];
      if buf.Length <= nRead {
        return nRead, None;
      }
      // io.ReadAtLeast(source, buf[nRead:], buf.Length-nRead)
      var missing := buf.Length - nRead;
      if |source| < missing {
        err := Some(if source == [] then Eof else UnexpectedEof);
        source := [];
        return;
      }
      forall k | 0 <= k < missing {
        buf[nRead + k] := source[k];
      }
      assert buf[..] == old(peekBuf) + source[..missing];
      source := source[missing..];
      nRead := nRead + missing;
      err := None;
    }

    /** The embedded reader's `Read`. */
    method Read(n: nat) returns (r: Result<Bytes>)
      requires n > 0
      modifies this
      ensures Did(r, View(), RawRead(old(View()), n))
    {
      misused := misused || peekBuf != [];
      if source == [] {
        return Failure(Eof);
      }
      var k := Segment(|source|, cuts, n);
      r := Success(source[..k]);
      source := source[k..];
    }

    method ReadByte() returns (r: Result<byte>)
      modifies this
      ensures Did(r, View(), Byte(old(View())))
    {
      var b := new byte[1];
      var _, err := ReadBytes(b);
      if err.Some? {
        return Failure(err.value);
      }
      assert b[..][0] == b[0];
      return Success(b[0]);
    }

    method PeekBytes(n: nat) returns (r: Result<Bytes>)
      modifies this
      ensures Did(r, View(), Peek(old(View()), n))
    {
      var buf := new byte[n];
      misused := misused || |peekBuf| > n;
      var nRead, err := ReadBytes(buf);
      if err.Some? {
        return Failure(err.value);
      }
      if nRead != n {
        return Failure(ShortMessage);
      }
      peekBuf := peekBuf + buf[..];
      return Success(buf[..]);
    }

    method PeekInt32() returns (r: Result<int>)
      modifies this
      ensures View() == Peek(old(View()), 4).next
      ensures match Peek(old(View()), 4) {
        case Ok(b, _) => r == Success(Int32Of(b))
        case Err(e, _) => r == Failure(e)
      }
    {
      var b :- PeekBytes(4);
      return Success(Int32Of(b));
    }

    method ReadInt32() returns (r: Result<int>)
      modifies this
      ensures Did(r, View(), Int32(old(View())))
    {
      var b := new byte[4];
      var nRead, err := ReadBytes(b);
      if err.Some? {
        return Failure(err.value);
      }
      if nRead != 4 {
        return Failure(ShortMessage);
      }
      return Success(Int32Of(b[..]));
    }

    method ReadInt16() returns (r: Result<int>)
      modifies this
      ensures Did(r, View(), Int16(old(View())))
    {
      var b := new byte[2];
      var nRead, err := ReadBytes(b);
      if err.Some? {
        return Failure(err.value);
      }
      if nRead != 2 {
        return Failure(ShortMessage);
      }
      return Success(Int16Of(b[..]));
    }

    /** Reads up to and including the delimiter. */
    method ReadBytesUntil(delim: byte) returns (r: Result<Bytes>)
      modifies this
      ensures View() == Until(old(View()), delim).next
      ensures match Until(old(View()), delim) {
        case Ok(s, _) => r == Success(s + [delim])
        case Err(e, _) => r == Failure(e)
      }
    {
      var buf: Bytes := [];
      var done := false;
      PrependLaws(buf, 0, Until(View(), delim));
      while !done
        invariant !done ==> Until(old(View()), delim) == Prepend(buf, Until(View(), delim))
        invariant done ==> exists s :: buf == s + [delim] && Until(old(View()), delim) == Ok(s, View())
        decreases !done, |View().Stream()|
      {
        var b :- ReadByte();
        PrependLaws(buf, b, if b == delim then Ok([], View()) else Until(View(), delim));
        buf := buf + [b];
        done := b == delim;
      }
      return Success(buf);
    }

    method ReadString() returns (r: Result<GoString>)
      modifies this
      ensures Did(r, View(), Str(old(View())))
    {
      var strBytes :- ReadBytesUntil(0);
      return Success(strBytes[..|strBytes| - 1]);
    }

    /** The loops `for n := range num { slice[n] = ReadInt16() }`. */
    method ReadInt16s(num: int) returns (r: Result<seq<int>>)
      modifies this
      ensures Did(r, View(), Int16s(old(View()), num))
    {
      if num < 0 {
        return Failure(Crash(NegativeCount(num)));
      }
      hide Int16Of, Take, Int16, Int16s, Prepend;
      var fmts: seq<int> := [];
      ghost var whole := Int16s(View(), num);
      ghost var todo := whole;
      PrependLaws([], 0, whole);
      for n := 0 to num
        invariant todo == Int16s(View(), num - n) && whole == Prepend(fmts, todo)
      {
        Int16sStep(View(), num - n);
        PrependLaws(fmts, 0, todo);
        var v :- ReadInt16();
        todo := Int16s(View(), num - n - 1);
        PrependLaws(fmts, v, todo);
        fmts := fmts + [v];
      }
      Int16sStep(View(), 0);
      PrependLaws(fmts, 0, todo);
      return Success(fmts);
    }

    method ReadInt32s(num: int) returns (r: Result<seq<int>>)
      modifies this
      ensures Did(r, View(), Int32s(old(View()), num))
    {
      if num < 0 {
        return Failure(Crash(NegativeCount(num)));
      }
      hide Int32Of, Take, Int32, Int32s, Prepend;
      var types: seq<int> := [];
      ghost var whole := Int32s(View(), num);
      ghost var todo := whole;
      PrependLaws([], 0, whole);
      for n := 0 to num
        invariant todo == Int32s(View(), num - n) && whole == Prepend(types, todo)
      {
        Int32sStep(View(), num - n);
        PrependLaws(types, 0, todo);
        var v :- ReadInt32();
        todo := Int32s(View(), num - n - 1);
        PrependLaws(types, v, todo);
        types := types + [v];
      }
      Int32sStep(View(), 0);
      PrependLaws(types, 0, todo);
      return Success(types);
    }
  }

}
