/** Every well-formed frontend message is decoded to its meaning, and the reader stops exactly behind it. */
module MessageLaws {
  import opened BigEndian
  import opened Errors
  import opened Inputs
  import opened Frontend
  import R = Requests

  lemma HeaderPrefix(i: Input, t: byte, body: Bytes, s: Bytes)
    requires |i.peek| <= 1 && i.Stream() == Frame(t, body) + s && IsInt32(|body| + 4)
    ensures R.Header(i) == Ok(R.Head(t, |body| + 4), At(i, body + s))
    ensures R.Head(t, |body| + 4).DataLength() == |body|
  {
    hide Int16Bytes, Int32Bytes, Int16Of, Int32Of;
    var l := Int32Bytes(|body| + 4);
    var u := l + (body + s);
    assert Frame(t, body) + s == [t] + u;
    TakePrefix(i, [t], u);
    Int32Prefix(At(i, u), |body| + 4, body + s);
  }

  lemma DataPrefix(i: Input, h: R.Head, body: Bytes, s: Bytes)
    requires i.peek == [] && i.rest == body + s && h.DataLength() == |body|
    ensures R.Data(i, h) == Ok(body, At(i, s))
  {
    TakePrefix(i, body, s);
  }

  lemma TargetPrefix(i: Input, kind: Prepared, name: GoString, s: Bytes)
    requires i.peek == [] && i.rest == [KindByte(kind)] + CString(name) + s && NulFree(name)
    ensures R.Target(i) == Ok((kind, name), At(i, s))
  {
    hide Int16Bytes, Int32Bytes, Int16Of, Int32Of;
    var u := CString(name) + s;
    assert i.rest == [KindByte(kind)] + u;
    TakePrefix(i, [KindByte(kind)], u);
    StrPrefix(At(i, u), name, s);
  }

  /** One value comes back exactly when its bytes arrive in one segment; otherwise Bind fails with a short message. */
  lemma ValuePrefix(i: Input, v: Field, s: Bytes)
    requires i.peek == [] && i.rest == ValueBytes(v) + s && Fits(v)
    ensures v.Null? || v.value == [] || Unbroken(|i.rest| - 4, i.cuts, |v.value|) ==> R.Value(i) == Ok(v, At(i, s))
    ensures v.Field? && v.value != [] && !Unbroken(|i.rest| - 4, i.cuts, |v.value|)
            ==> R.Value(i).Err? && R.Value(i).error == ShortMessage
  {
    hide Int16Bytes, Int32Bytes, Int16Of, Int32Of;
    if v.Null? {
      Int32Prefix(i, -1, s);
    } else {
      var n := |v.value|;
      var u := v.value + s;
      assert i.rest == Int32Bytes(n) + u;
      Int32Prefix(i, n, u);
      if n > 0 {
        FullReadIff(At(i, u), n);
        assert u[..n] == v.value && u[n..] == s;
      } else {
        assert u == s;
      }
    }
  }

  lemma ValueLength(v: Field)
    ensures |ValueBytes(v)| == 4 + if v.Null? then 0 else |v.value|
  {}

  lemma {:induction false} ValuesPrefix(i: Input, vs: seq<Field>, s: Bytes)
    requires i.peek == [] && i.rest == ValuesBytes(vs) + s
    requires forall v :: v in vs ==> Fits(v)
    ensures UnbrokenValues(vs, |i.rest|, i.cuts) ==> R.Values(i, |vs|) == Ok(vs, At(i, s))
    ensures !UnbrokenValues(vs, |i.rest|, i.cuts) ==> R.Values(i, |vs|).Err? && R.Values(i, |vs|).error == ShortMessage
    decreases |vs|
  {
    hide Int16Bytes, Int32Bytes, Int16Of, Int32Of, Int16, Int32, Str, Int16s, Int32s, Take, R.Value, ValueBytes;
    if vs != [] {
      var t := ValuesBytes(vs[1..]) + s;
      assert i.rest == ValueBytes(vs[0]) + t;
      ValueLength(vs[0]);
      ValuePrefix(i, vs[0], t);
      ValuesPrefix(At(i, t), vs[1..], s);
      assert vs == [vs[0]] + vs[1..];
    }
  }

  lemma ParsePrefix(i: Input, m: Message, s: Bytes)
    requires m.Parse? && WellFormed(m) && |i.peek| <= 1 && i.Stream() == Encode(m) + s
    ensures R.ParseRequest(i) == Ok(R.Meaning(m), At(i, s))
  {
    hide Int16Bytes, Int32Bytes, Int16Of, Int32Of, Int16, Int32, Str, Int16s, Int32s, Take, R.Header;
    var tail := Int16Bytes(|m.types|) + Int32sBytes(m.types);
    HeaderPrefix(i, PARSE, Body(m), s);
    var u1 := CString(m.query) + tail + s;
    assert Body(m) + s == CString(m.name) + u1;
    StrPrefix(At(i, Body(m) + s), m.name, u1);
    var u2 := tail + s;
    assert u1 == CString(m.query) + u2;
    StrPrefix(At(i, u1), m.query, u2);
    var u3 := Int32sBytes(m.types) + s;
    assert u2 == Int16Bytes(|m.types|) + u3;
    Int16Prefix(At(i, u2), |m.types|, u3);
    Int32sPrefix(At(i, u3), m.types, s);
  }

  /** The parts of Bind up to its values. */
  lemma BindHead(i: Input, m: Message, s: Bytes) returns (v: Bytes)
    requires m.Bind? && WellFormed(m) && |i.peek| <= 1 && i.Stream() == Encode(m) + s
    ensures v == ValuesBytes(m.values) + (AfterValues(m.resultFormats) + s)
    ensures R.BindRequest(i) == BindTail(At(i, v), m)
  {
    hide Int16Bytes, Int32Bytes, Int16Of, Int32Of, Int16, Int32, Str, Int16s, Int32s, Take, R.Header, R.Values;
    var u5 := ValuesBytes(m.values) + AfterValues(m.resultFormats) + s;
    v := ValuesBytes(m.values) + (AfterValues(m.resultFormats) + s);
    assert u5 == v;
    var u4 := Int16Bytes(|m.values|) + v;
    var u3 := Int16sBytes(m.formats) + u4;
    var u2 := Int16Bytes(|m.formats|) + u3;
    var u1 := CString(m.statement) + u2;
    var u0 := CString(m.portal) + u1;
    HeaderPrefix(i, BIND, Body(m), s);
    assert Body(m) + s == u0;
    StrPrefix(At(i, u0), m.portal, u1);
    StrPrefix(At(i, u1), m.statement, u2);
    Int16Prefix(At(i, u2), |m.formats|, u3);
    Int16sPrefix(At(i, u3), m.formats, u4);
    Int16Prefix(At(i, u4), |m.values|, v);
  }

  /** What is left of `BindRequest` once the value count has been read. */
  function BindTail(i: Input, m: Message): Parsed<R.Request>
    requires m.Bind?
  {
    var (vals, j) :- R.Values(i, |m.values|);
    var (numRes, k) :- Int16(j);
    var (_, l) :- Int16s(k, numRes);
    Ok(R.Bind(m.portal, m.statement, R.Params(m.formats, vals)), l)
  }

  /** Bind succeeds exactly when no segment of the byte source ends inside one of its values. */
  lemma BindPrefix(i: Input, m: Message, s: Bytes)
    requires m.Bind? && WellFormed(m) && |i.peek| <= 1 && i.Stream() == Encode(m) + s
    ensures Unsplit(m, |s|, i.cuts) ==> R.BindRequest(i) == Ok(R.Meaning(m), At(i, s))
    ensures !Unsplit(m, |s|, i.cuts) ==> R.BindRequest(i).Err? && R.BindRequest(i).error == ShortMessage
  {
    hide Int16Bytes, Int32Bytes, Int16Of, Int32Of, Int16, Int32, Str, Int16s, Int32s, Take, R.Values;
    hide R.BindRequest, R.Header, R.Params, ValuesBytes, Encode, Int16sBytes, UnbrokenValues;
    var v := BindHead(i, m, s);
    var w := AfterValues(m.resultFormats) + s;
    ValuesPrefix(At(i, v), m.values, w);
    var x := Int16sBytes(m.resultFormats) + s;
    assert w == Int16Bytes(|m.resultFormats|) + x;
    Int16Prefix(At(i, w), |m.resultFormats|, x);
    Int16sPrefix(At(i, x), m.resultFormats, s);
  }

  lemma ExecutePrefix(i: Input, m: Message, s: Bytes)
    requires m.Execute? && WellFormed(m) && |i.peek| <= 1 && i.Stream() == Encode(m) + s
    ensures R.ExecuteRequest(i) == Ok(R.Meaning(m), At(i, s))
  {
    hide Int16Bytes, Int32Bytes, Int16Of, Int32Of, Int16, Int32, Str, Int16s, Int32s, Take, R.Header;
    HeaderPrefix(i, EXECUTE, Body(m), s);
    var u := Int32Bytes(m.maxRows) + s;
    assert Body(m) + s == CString(m.portal) + u;
    StrPrefix(At(i, Body(m) + s), m.portal, u);
    Int32Prefix(At(i, u), m.maxRows, s);
  }

  lemma OtherPrefix(i: Input, m: Message, s: Bytes)
    requires WellFormed(m) && |i.peek| <= 1 && i.Stream() == Encode(m) + s
    requires m.Describe? || m.Close? || m.Query? || m.Sync? || m.Flush? || m.Terminate? || m.Other?
    ensures R.Dispatch(i, TypeByte(m)) == Ok(R.Meaning(m), At(i, s))
  {
    hide Int16Bytes, Int32Bytes, Int16Of, Int32Of, Int16, Int32, Str, Int16s, Int32s, Take, R.Header, R.Data, R.Target;
    HeaderPrefix(i, TypeByte(m), Body(m), s);
    var j := At(i, Body(m) + s);
    assert Body(m) == [] ==> Body(m) + s == s;
    match m
    case Describe(kind, name) => TargetPrefix(j, kind, name, s);
    case Close(kind, name) => TargetPrefix(j, kind, name, s);
    case Query(text) => StrPrefix(j, text, s);
    case Other(t, payload) => DataPrefix(j, R.Head(t, |payload| + 4), payload, s);
    case _ =>
  }

  /** The length field of a frame counts everything but the type byte. */
  lemma FrameLength(t: byte, body: Bytes, s: Bytes)
    requires IsInt32(|body| + 4)
    ensures Int32Of((Frame(t, body) + s)[1..5]) == |body| + 4
  {
    assert (Frame(t, body) + s)[1..5] == Int32Bytes(|body| + 4);
    Int32RoundTrip(|body| + 4);
  }

  lemma PeekedType(i: Input, m: Message, s: Bytes)
    requires i.Tidy() && i.Stream() == Encode(m) + s
    ensures Peek(i, 1) == Ok([TypeByte(m)], i.(peek := [TypeByte(m)], rest := i.Stream()[1..]))
    ensures Peek(i, 1).next.Stream() == i.Stream()
  {
    PeekKeepsStream(i, 1);
    assert i.Stream()[..1] == [TypeByte(m)];
  }

  /** One message: the peeked type byte selects its parser, which returns the meaning and consumes exactly the frame,
      1 + Length bytes, whether the type is supported or skipped whole. */
  lemma DispatchDecodes(i: Input, m: Message, s: Bytes)
    requires WellFormed(m) && i.Tidy() && i.Stream() == Encode(m) + s && Unsplit(m, |s|, i.cuts)
    ensures Peek(i, 1).Ok? && Peek(i, 1).value == [TypeByte(m)]
    ensures Peek(i, 1).next.Tidy() && Peek(i, 1).next.Stream() == i.Stream()
    ensures R.Dispatch(Peek(i, 1).next, TypeByte(m)) == Ok(R.Meaning(m), At(i, s))
    ensures |i.Stream()| - |s| == 1 + Int32Of(i.Stream()[1..5])
  {
    hide Int32Bytes, Int32Of, Take, Peek, Body, Unsplit, R.Meaning, R.ParseRequest, R.BindRequest, R.ExecuteRequest;
    hide R.DescribeRequest, R.CloseRequest, R.QueryRequest, R.BareRequest, R.SkipRequest;
    FrameLength(TypeByte(m), Body(m), s);
    PeekedType(i, m, s);
    var p := Peek(i, 1).next;
    match m
    case Parse(_, _, _) => ParsePrefix(p, m, s);
    case Bind(_, _, _, _, _) => BindPrefix(p, m, s);
    case Execute(_, _) => ExecutePrefix(p, m, s);
    case _ => OtherPrefix(p, m, s);
  }

  /** What a Bind's values mean: format 0 is text, with NULL and the empty text alike, 1 is binary, any other is no
      value; a value without a code of its own is text. */
  lemma ParamsMean(formats: seq<int>, values: seq<Field>, k: nat)
    requires k < |values|
    ensures var p, format := R.Params(formats, values)[k], if k < |formats| then formats[k] else 0;
      && p.formatCode == format
      && (format == 0 && values[k].Null? ==> p.value == R.Text([]))
      && (format == 0 && !values[k].Null? ==> p.value == R.Text(values[k].value))
      && (format == 1 ==> p.value == R.Binary(values[k]))
      && (format != 0 && format != 1 ==> p.value == R.NoValue)
  {}

  /** The format code section 55.7 gives parameter k: one code alone applies to every parameter. */
  function DocumentedFormat(formats: seq<int>, k: nat): int
    requires |formats| <= 1 || k < |formats|
  {
    if formats == [] then 0 else if |formats| == 1 then formats[0] else formats[k]
  }

  /** The code agrees with the documentation unless a single non-text code stands for several parameters. */
  lemma FormatRuleIff(formats: seq<int>, values: seq<Field>)
    requires |formats| <= 1 || |formats| == |values|
    ensures (forall k :: 0 <= k < |values| ==> R.Params(formats, values)[k].formatCode == DocumentedFormat(formats, k))
       <==> |formats| != 1 || |values| <= 1 || formats[0] == 0
  {
    if |formats| == 1 && |values| > 1 {
      assert R.Params(formats, values)[1].formatCode == R.TEXT_FORMAT;
    }
  }
}
