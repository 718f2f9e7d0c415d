/** The message parsers themselves: they pull field after field from the shared reader. */
module Parsers {
  import opened BigEndian
  import opened Errors
  import opened Inputs
  import opened PeekReader
  import opened Requests
  import Frontend
  import StartupMessage
  import CopyFrames

  method PeekType(reader: Reader) returns (r: Result<byte>)
    modifies reader
    ensures reader.View() == Peek(old(reader.View()), 1).next
    ensures match Peek(old(reader.View()), 1) {
      case Ok(b, _) => r == Success(b[0])
      case Err(e, _) => r == Failure(e)
    }
  {
    var b :- reader.PeekBytes(1);
    return Success(b[0]);
  }

  /** The deadline passes, with nothing read, unless a byte is buffered or arrives in time. */
  method PeekTypeNonBlocking(reader: Reader, arrived: bool) returns (r: Result<byte>)
    modifies reader
    ensures var i := old(reader.View());
      if i.peek != [] || arrived
      then reader.View() == Peek(i, 1).next && r.Success? == Peek(i, 1).Ok?
      else reader.View() == i && r == Failure(Timeout)
  {
    if reader.peekBuf == [] && !arrived {
      return Failure(Timeout);
    }
    r := PeekType(reader);
  }

  method IsPeekType(reader: Reader, t: byte) returns (r: Result<bool>)
    modifies reader
    ensures reader.View() == Peek(old(reader.View()), 1).next
    ensures match Peek(old(reader.View()), 1) {
      case Ok(b, _) => r == Success(b[0] == t)
      case Err(e, _) => r == Failure(e)
    }
  {
    var pt :- PeekType(reader);
    return Success(pt == t);
  }

  method NewMessageWithReader(reader: Reader) returns (r: Result<Head>)
    modifies reader
    ensures Did(r, reader.View(), Header(old(reader.View())))
  {
    hide Byte, Int32;
    var t :- reader.ReadByte();
    var l :- reader.ReadInt32();
    return Success(Head(t, l));
  }

  method ReadMessageData(reader: Reader, msg: Head) returns (r: Result<Bytes>)
    modifies reader
    ensures Did(r, reader.View(), Data(old(reader.View()), msg))
  {
    var dataLen := msg.DataLength();
    if dataLen < 0 {
      return Failure(InvalidLength(dataLen));
    }
    var data := new byte[dataLen];
    var _, err := reader.ReadBytes(data);
    if err.Some? {
      return Failure(err.value);
    }
    return Success(data[..]);
  }

  method NewParseWithReader(reader: Reader) returns (r: Result<Request>)
    modifies reader
    ensures Did(r, reader.View(), ParseRequest(old(reader.View())))
  {
    hide Header, Str, Int16, Int32s;
    var _ :- NewMessageWithReader(reader);
    var name :- reader.ReadString();
    var query :- reader.ReadString();
    var num :- reader.ReadInt16();
    var types :- reader.ReadInt32s(num);
    return Success(Parse(name, query, types));
  }

  /** The value loop of Bind: each value comes from a raw read of the connection. */
  method ReadValue(reader: Reader) returns (r: Result<Field>)
    modifies reader
    ensures Did(r, reader.View(), Value(old(reader.View())))
  {
    hide Int32, RawRead;
    var nBytes :- reader.ReadInt32();
    if nBytes == 0 {
      return Success(Field([]));
    } else if nBytes == -1 {
      return Success(Null);
    }
    if nBytes <= 0 {
      return Failure(InvalidLength(nBytes));
    }
    var bytes :- reader.Read(nBytes);
    if |bytes| != nBytes {
      return Failure(ShortMessage);
    }
    return Success(Field(bytes));
  }

  lemma ValuesStep(i: Input, n: nat)
    ensures n == 0 ==> Values(i, n) == Ok([], i)
    ensures n > 0 && Value(i).Err? ==> Values(i, n) == Err(Value(i).error, Value(i).next)
    ensures n > 0 && Value(i).Ok? ==> Values(i, n) == Prepend([Value(i).value], Values(Value(i).next, n - 1))
  {
    hide Value;
  }

  /** One turn of the value loop, with `n` values to come after it. */
  lemma ValueRead(whole: Parsed<seq<Field>>, done: seq<Field>, i: Input, v: Result<Field>, now: Input, n: nat)
    requires whole == Prepend(done, Values(i, n + 1)) && Did(v, now, Value(i))
    ensures v.Success? ==> whole == Prepend(done + [v.value], Values(now, n))
    ensures v.Failure? ==> Did(Failure(v.error), now, whole)
  {
    ValuesStep(i, n + 1);
    hide Value, Values, Prepend;
    PrependLaws(done, Null, Values(i, n + 1));
    if v.Success? {
      PrependLaws(done, v.value, Values(now, n));
    }
  }

  lemma ValuesRead(whole: Parsed<seq<Field>>, done: seq<Field>, i: Input)
    requires whole == Prepend(done, Values(i, 0))
    ensures Did(Success(done), i, whole)
  {
    ValuesStep(i, 0);
    hide Value, Values, Prepend;
    PrependLaws(done, Null, Values(i, 0));
  }

  lemma NegativeValues(i: Input, num: int)
    requires num < 0
    ensures Did(Failure(Crash(NegativeCount(num))), i, Values(i, num))
  {}

  method ReadValues(reader: Reader, num: int) returns (r: Result<seq<Field>>)
    modifies reader
    ensures Did(r, reader.View(), Values(old(reader.View()), num))
  {
    hide *;
    ghost var whole := Values(reader.View(), num);
    if num < 0 {
      NegativeValues(reader.View(), num);
      return Failure(Crash(NegativeCount(num)));
    }
    var paramBytes: seq<Field> := [];
    PrependLaws([], Null, whole);
    for n := 0 to num
      invariant whole == Prepend(paramBytes, Values(reader.View(), num - n))
    {
      ghost var i := reader.View();
      var v := ReadValue(reader);
      ValueRead(whole, paramBytes, i, v, reader.View(), num - n - 1);
      if v.Failure? {
        return Failure(v.error);
      }
      paramBytes := paramBytes + [v.value];
    }
    ValuesRead(whole, paramBytes, reader.View());
    return Success(paramBytes);
  }

  /** The last loop of Bind pairs values with format codes. */
  method PairParams(paramFmts: seq<int>, paramBytes: seq<Field>) returns (params: seq<BindParam>)
    ensures params == Params(paramFmts, paramBytes)
  {
    params := [];
    for n := 0 to |paramBytes|
      invariant params == Params(paramFmts, paramBytes)[..n]
    {
      var paramFmt := TEXT_FORMAT;
      if n < |paramFmts| {
        paramFmt := paramFmts[n];
      }
      var paramVal := NoValue;
      if paramFmt == TEXT_FORMAT {
        paramVal := Text(if paramBytes[n].Null? then [] else paramBytes[n].value);
      } else if paramFmt == BINARY_FORMAT {
        paramVal := Binary(paramBytes[n]);
      }
      params := params + [BindParam(paramFmt, paramVal)];
    }
  }

  method NewBindWithReader(reader: Reader) returns (r: Result<Request>)
    modifies reader
    ensures Did(r, reader.View(), BindRequest(old(reader.View())))
  {
    hide Header, Str, Int16, Int16s, Values, Params;
    var _ :- NewMessageWithReader(reader);
    var portal :- reader.ReadString();
    var stmt :- reader.ReadString();
    var paramFmtNum :- reader.ReadInt16();
    var paramFmts :- reader.ReadInt16s(paramFmtNum);
    var paramValNum :- reader.ReadInt16();
    var paramBytes :- ReadValues(reader, paramValNum);
    var resFmtNum :- reader.ReadInt16();
    var _ :- reader.ReadInt16s(resFmtNum);
    var params := PairParams(paramFmts, paramBytes);
    return Success(Bind(portal, stmt, params));
  }

  /** Kind byte, name, and only then the check of the kind. */
  method ReadTarget(reader: Reader) returns (r: Result<(Frontend.Prepared, GoString)>)
    modifies reader
    ensures Did(r, reader.View(), Target(old(reader.View())))
  {
    hide Byte, Str;
    var bt :- reader.ReadByte();
    var name :- reader.ReadString();
    if KindOf(bt).None? {
      return Failure(InvalidPreparedType(bt));
    }
    return Success((KindOf(bt).value, name));
  }

  method NewDescribeWithReader(reader: Reader) returns (r: Result<Request>)
    modifies reader
    ensures Did(r, reader.View(), DescribeRequest(old(reader.View())))
  {
    hide Header, Target;
    var _ :- NewMessageWithReader(reader);
    var t :- ReadTarget(reader);
    return Success(Describe(t.0, t.1));
  }

  method NewCloseWithReader(reader: Reader) returns (r: Result<Request>)
    modifies reader
    ensures Did(r, reader.View(), CloseRequest(old(reader.View())))
  {
    hide Header, Target;
    var _ :- NewMessageWithReader(reader);
    var t :- ReadTarget(reader);
    return Success(Close(t.0, t.1));
  }

  method NewQueryWithReader(reader: Reader) returns (r: Result<Request>)
    modifies reader
    ensures Did(r, reader.View(), QueryRequest(old(reader.View())))
  {
    hide Header, Str;
    var _ :- NewMessageWithReader(reader);
    var query :- reader.ReadString();
    return Success(Query(query));
  }

  method NewExecuteWithReader(reader: Reader) returns (r: Result<Request>)
    modifies reader
    ensures Did(r, reader.View(), ExecuteRequest(old(reader.View())))
  {
    hide Header, Str, Int32;
    var _ :- NewMessageWithReader(reader);
    var portal :- reader.ReadString();
    var maxRows :- reader.ReadInt32();
    return Success(Execute(portal, maxRows));
  }

  /** Sync, Flush and Terminate. */
  method NewBareWithReader(reader: Reader, q: Request) returns (r: Result<Request>)
    modifies reader
    ensures Did(r, reader.View(), BareRequest(old(reader.View()), q))
  {
    hide Header;
    var _ :- NewMessageWithReader(reader);
    return Success(q);
  }

  method SkipMessage(reader: Reader, t: byte) returns (r: Result<Request>)
    modifies reader
    ensures Did(r, reader.View(), SkipRequest(old(reader.View()), t))
  {
    hide Header, Data;
    var msg :- NewMessageWithReader(reader);
    var _ :- ReadMessageData(reader, msg);
    return Success(Unsupported(t));
  }

  /** The switch of the dispatch loop. */
  method NewRequestWithReader(reader: Reader, reqType: byte) returns (r: Result<Request>)
    modifies reader
    ensures Did(r, reader.View(), Dispatch(old(reader.View()), reqType))
  {
    hide ParseRequest, BindRequest, DescribeRequest, QueryRequest, ExecuteRequest, CloseRequest, BareRequest,
         SkipRequest;
    if reqType == Frontend.PARSE {
      r := NewParseWithReader(reader);
    } else if reqType == Frontend.BIND {
      r := NewBindWithReader(reader);
    } else if reqType == Frontend.DESCRIBE {
      r := NewDescribeWithReader(reader);
    } else if reqType == Frontend.QUERY {
      r := NewQueryWithReader(reader);
    } else if reqType == Frontend.EXECUTE {
      r := NewExecuteWithReader(reader);
    } else if reqType == Frontend.CLOSE {
      r := NewCloseWithReader(reader);
    } else if reqType == Frontend.SYNC {
      r := NewBareWithReader(reader, Sync);
    } else if reqType == Frontend.FLUSH {
      r := NewBareWithReader(reader, Flush);
    } else if reqType == Frontend.TERMINATE {
      r := NewBareWithReader(reader, Terminate);
    } else {
      r := SkipMessage(reader, reqType);
    }
  }

  method NewSslRequestWithReader(reader: Reader) returns (r: Result<int>)
    modifies reader
    ensures Did(r, reader.View(), StartupMessage.SslRequest(old(reader.View())))
  {
    hide Int32;
    var _ :- reader.ReadInt32();
    var code :- reader.ReadInt32();
    if code != StartupMessage.SSL_REQUEST_CODE {
      return Failure(InvalidSslCode(code));
    }
    return Success(code);
  }

  /** The pair loop of the startup message. Its measure drops by at least three with every completed pair. */
  method ReadPairs(reader: Reader, msgLen: int) returns (r: Result<StartupMessage.Parameters>)
    modifies reader
    ensures Did(r, reader.View(), StartupMessage.Pairs(old(reader.View()), 8, msgLen, map[]))
  {
    hide Str;
    var readLen := 8;
    var params: StartupMessage.Parameters := map[];
    while readLen < msgLen
      invariant StartupMessage.Pairs(old(reader.View()), 8, msgLen, map[])
             == StartupMessage.Pairs(reader.View(), readLen, msgLen, params)
      decreases msgLen - readLen
    {
      var k :- reader.ReadString();
      if k == [] {
        return Success(params);
      }
      var v :- reader.ReadString();
      readLen := readLen + |k| + 1 + |v| + 1;
      params := params[k := v];
    }
    return Success(params);
  }

  method NewPasswordWithReader(reader: Reader) returns (r: Result<GoString>)
    modifies reader
    ensures Did(r, reader.View(), StartupMessage.PasswordRequest(old(reader.View())))
  {
    hide Header, Str;
    var _ :- NewMessageWithReader(reader);
    r := reader.ReadString();
  }

  method NewStartupWithReader(reader: Reader) returns (r: Result<StartupMessage.Startup>)
    modifies reader
    ensures Did(r, reader.View(), StartupMessage.StartupRequest(old(reader.View())))
  {
    hide Int32, StartupMessage.Pairs;
    var msgLen :- reader.ReadInt32();
    var ver :- reader.ReadInt32();
    var params :- ReadPairs(reader, msgLen);
    return Success(StartupMessage.Startup(StartupMessage.Major(ver), StartupMessage.Minor(ver), msgLen, params));
  }

  method IsEOFData(data: Bytes) returns (b: bool)
    ensures b <==> CopyFrames.IsEndMarker(data)
  {
    for n := 0 to |data|
      invariant CopyFrames.IsEndMarker(data[..n])
    {
      if data[n] != CopyFrames.BACKSLASH && data[n] != CopyFrames.DOT {
        return false;
      }
    }
    return true;
  }

  method NewCopyDataWithReader(reader: Reader) returns (r: Result<seq<GoString>>)
    modifies reader
    ensures Did(r, reader.View(), CopyFrames.CopyData(old(reader.View())))
  {
    hide Header, Data, CopyFrames.TrimRight, CopyFrames.Split, CopyFrames.IsEndMarker;
    var msg :- NewMessageWithReader(reader);
    var dataBytes :- ReadMessageData(reader, msg);
    dataBytes := CopyFrames.TrimRight(dataBytes);
    var eof := IsEOFData(dataBytes);
    if eof {
      return Failure(Eof);
    }
    return Success(CopyFrames.Split(dataBytes));
  }

  /** `CopyStream.Next`. */
  method NextCopyData(reader: Reader) returns (r: Result<seq<GoString>>)
    modifies reader
    ensures Did(r, reader.View(), CopyFrames.Next(old(reader.View())))
  {
    hide Peek, Header, CopyFrames.CopyData;
    var t :- PeekType(reader);
    if t == Frontend.COPY_DATA {
      r := NewCopyDataWithReader(reader);
      if r.Success? || r.error != Eof {
        return;
      }
      var ok :- IsPeekType(reader, Frontend.COPY_DONE);
      if !ok {
        return;
      }
      var _ :- NewMessageWithReader(reader);
      return;
    }
    if t == Frontend.COPY_DONE {
      var _ :- NewMessageWithReader(reader);
    }
    return Failure(Eof);
  }
}
