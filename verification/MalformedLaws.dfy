/** What the parsers make of messages that are not as section 55.7 writes them: which error, and how far they have
    read. */
module MalformedLaws {
  import opened BigEndian
  import opened Errors
  import opened Frontend
  import opened Inputs
  import R = Requests
  import S = StartupMessage

  /** A type byte and any length. */
  lemma AnyHeader(i: Input, t: byte, length: int, s: Bytes)
    requires |i.peek| <= 1 && i.Stream() == [t] + (Int32Bytes(length) + s) && IsInt32(length)
    ensures R.Header(i) == Ok(R.Head(t, length), At(i, s))
  {
    hide Int32Bytes, Int32Of;
    TakePrefix(i, [t], Int32Bytes(length) + s);
    Int32Prefix(At(i, Int32Bytes(length) + s), length, s);
  }

  /** Describe or Close of a kind other than 'S' and 'P': refused, naming the byte, once the name has been read. */
  lemma WrongKind(i: Input, t: byte, length: int, b: byte, name: GoString, s: Bytes)
    requires (t == 'D' as int || t == 'C' as int) && b != 'S' as int && b != 'P' as int && NulFree(name)
             && IsInt32(length)
    requires |i.peek| <= 1 && i.Stream() == [t] + (Int32Bytes(length) + ([b] + (CString(name) + s)))
    ensures R.Dispatch(i, t) == Err(InvalidPreparedType(b), At(i, s))
  {
    hide Int32Bytes, R.Header, Str;
    var u := CString(name) + s;
    AnyHeader(i, t, length, [b] + u);
    TakePrefix(At(i, [b] + u), [b], u);
    StrPrefix(At(i, u), name, s);
  }

  /** The length field of the messages that have a parser of their own is not looked at. */
  lemma QueryLengthIsIgnored(i: Input, length: int, text: GoString, s: Bytes)
    requires NulFree(text) && IsInt32(length)
    requires |i.peek| <= 1 && i.Stream() == ['Q' as int] + (Int32Bytes(length) + (CString(text) + s))
    ensures R.Dispatch(i, 'Q' as int) == Ok(R.Query(text), At(i, s))
  {
    hide Int32Bytes, R.Header, Str;
    AnyHeader(i, 'Q' as int, length, CString(text) + s);
    StrPrefix(At(i, CString(text) + s), text, s);
  }

  /** A message of any other type is skipped by its length; one shorter than the length field itself is refused with
      what is left when that is taken off, and nothing more is read. */
  lemma ShortLength(i: Input, t: byte, length: int, s: Bytes)
    requires t !in SUPPORTED && -0x7FFF_FFFC <= length < 4
    requires |i.peek| <= 1 && i.Stream() == [t] + (Int32Bytes(length) + s)
    ensures R.Dispatch(i, t) == Err(InvalidLength(length - 4), At(i, s))
  {
    hide Int32Bytes, R.Header;
    AnyHeader(i, t, length, s);
  }

  /** A Bind value whose length is less than -1. */
  lemma WrongValueLength(i: Input, n: int, s: Bytes)
    requires i.peek == [] && i.rest == Int32Bytes(n) + s && IsInt32(n) && n < -1
    ensures R.Value(i) == Err(InvalidLength(n), At(i, s))
  {
    hide Int32Bytes, Int32Of;
    Int32Prefix(i, n, s);
  }

  /** A Bind whose number of formats is negative ends in the panic of `make`. */
  lemma BindOfNegativeCount(i: Input, length: int, portal: GoString, statement: GoString, n: int, s: Bytes)
    requires NulFree(portal) && NulFree(statement) && IsInt32(length) && -0x8000 <= n < 0
    requires |i.peek| <= 1
    requires i.Stream() ==
             ['B' as int] + (Int32Bytes(length) + (CString(portal) + (CString(statement) + (Int16Bytes(n) + s))))
    ensures R.Dispatch(i, 'B' as int) == Err(Crash(NegativeCount(n)), At(i, s))
  {
    hide Int16Bytes, Int32Bytes, Int16Of, Int16, Str, R.Header, R.Values;
    var u2 := Int16Bytes(n) + s;
    var u1 := CString(statement) + u2;
    AnyHeader(i, 'B' as int, length, CString(portal) + u1);
    StrPrefix(At(i, CString(portal) + u1), portal, u1);
    StrPrefix(At(i, u1), statement, u2);
    Int16Prefix(At(i, u2), n, s);
  }

  /** Eight bytes that begin like an SSLRequest but hold another code. */
  lemma WrongSslCode(i: Input, code: int, s: Bytes)
    requires |i.peek| <= 4 && i.Stream() == [0, 0, 0, 8] + (Int32Bytes(code) + s) && IsInt32(code) && code != 80877103
    ensures S.SslRequest(i) == Err(InvalidSslCode(code), At(i, s))
  {
    assert Int32Bytes(8) == [0, 0, 0, 8];
    hide Int32Bytes, Int32Of, Int32;
    Int32Prefix(i, 8, Int32Bytes(code) + s);
    Int32Prefix(At(i, Int32Bytes(code) + s), code, s);
  }
}
