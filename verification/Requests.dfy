/** The frontend parsers of postgresql/protocol as functions of the reader's state. */
module Requests {
  import opened BigEndian
  import opened Errors
  import opened Inputs
  import Frontend

  datatype BindValue =
    | Text(s: GoString)
    | Binary(bytes: Field)   // Null is the nil slice
    | NoValue                        // any other format code leaves the value nil

  datatype BindParam = BindParam(formatCode: int, value: BindValue)

  /** A decoded request, as the Go structs hold it. */
  datatype Request =
    | Parse(name: GoString, query: GoString, types: seq<int>)
    | Bind(portal: GoString, statement: GoString, params: seq<BindParam>)
    | Describe(kind: Frontend.Prepared, name: GoString)
    | Query(text: GoString)
    | Execute(portal: GoString, maxRows: int)
    | Close(kind: Frontend.Prepared, name: GoString)
    | Sync
    | Flush
    | Terminate
    | Unsupported(t: byte)

  const TEXT_FORMAT := 0
  const BINARY_FORMAT := 1

  datatype Head = Head(t: byte, length: int) {
    /** int32 subtraction: it wraps for the four smallest lengths. */
    function DataLength(): int { Wrap32(length - 4) }
  }

  function Header(i: Input): (r: Parsed<Head>)
    ensures Consumed(i, r)
  {
    var (t, j) :- Byte(i);
    var (l, k) :- Int32(j);
    Ok(Head(t, l), k)
  }

  /** `ReadMessageData` after the header: exactly Length-4 bytes. */
  function Data(i: Input, h: Head): (r: Parsed<Bytes>)
    ensures Reads(i, r)
  {
    if h.DataLength() < 0 then Err(InvalidLength(h.DataLength()), i) else Take(i, h.DataLength())
  }

  function KindOf(b: byte): Option<Frontend.Prepared> {
    if b == 83 then Some(Frontend.Statement) else if b == 80 then Some(Frontend.Portal) else None
  }

  /** Kind byte and name of Describe and Close; the name is read before the kind is checked. */
  function Target(i: Input): (r: Parsed<(Frontend.Prepared, GoString)>)
    ensures Reads(i, r)
  {
    var (b, j) :- Byte(i);
    var (name, k) :- Str(j);
    if KindOf(b).None? then Err(InvalidPreparedType(b), k) else Ok((KindOf(b).value, name), k)
  }

  /** One parameter value of Bind. Its bytes are fetched by one raw read that must return all of them. */
  function Value(i: Input): (r: Parsed<Field>)
    ensures Reads(i, r)
  {
    var (n, j) :- Int32(i);
    if n == 0 then Ok(Field([]), j)
    else if n == -1 then Ok(Null, j)
    else if n < 0 then Err(InvalidLength(n), j)
    else
      var (b, k) :- RawRead(j, n);
      if |b| != n then Err(ShortMessage, k) else Ok(Field(b), k)
  }

  function Values(i: Input, n: int): (r: Parsed<seq<Field>>)
    ensures Reads(i, r)
    ensures r.Ok? ==> |r.value| == n
    decreases n
  {
    if n < 0 then Err(Crash(NegativeCount(n)), i)
    else if n == 0 then Ok([], i)
    else
      var (v, j) :- Value(i);
      var (vs, k) :- Values(j, n - 1);
      Ok([v] + vs, k)
  }

  function Param(format: int, bytes: Field): BindParam {
    BindParam(format,
              if format == TEXT_FORMAT then Text(if bytes.Null? then [] else bytes.value)
              else if format == BINARY_FORMAT then Binary(bytes)
              else NoValue)
  }

  /** Parameter i takes format code i, or text once the list of codes is used up. */
  function Params(formats: seq<int>, values: seq<Field>): (ps: seq<BindParam>)
    ensures |ps| == |values|
  {
    seq(|values|, k requires 0 <= k < |values| => Param(if k < |formats| then formats[k] else TEXT_FORMAT, values[k]))
  }

  function ParseRequest(i: Input): (r: Parsed<Request>)
    ensures Consumed(i, r)
  {
    var (_, i0) :- Header(i);
    var (name, i1) :- Str(i0);
    var (query, i2) :- Str(i1);
    var (num, i3) :- Int16(i2);
    var (types, i4) :- Int32s(i3, num);
    Ok(Parse(name, query, types), i4)
  }

  function BindRequest(i: Input): (r: Parsed<Request>)
    ensures Consumed(i, r)
  {
    var (_, i0) :- Header(i);
    var (portal, i1) :- Str(i0);
    var (statement, i2) :- Str(i1);
    var (numFmts, i3) :- Int16(i2);
    var (fmts, i4) :- Int16s(i3, numFmts);
    var (numVals, i5) :- Int16(i4);
    var (vals, i6) :- Values(i5, numVals);
    var (numRes, i7) :- Int16(i6);
    var (_, i8) :- Int16s(i7, numRes);
    Ok(Bind(portal, statement, Params(fmts, vals)), i8)
  }

  function DescribeRequest(i: Input): (r: Parsed<Request>)
    ensures Consumed(i, r)
  {
    var (_, j) :- Header(i);
    var (t, k) :- Target(j);
    Ok(Describe(t.0, t.1), k)
  }

  function CloseRequest(i: Input): (r: Parsed<Request>)
    ensures Consumed(i, r)
  {
    var (_, j) :- Header(i);
    var (t, k) :- Target(j);
    Ok(Close(t.0, t.1), k)
  }

  function QueryRequest(i: Input): (r: Parsed<Request>)
    ensures Consumed(i, r)
  {
    var (_, j) :- Header(i);
    var (text, k) :- Str(j);
    Ok(Query(text), k)
  }

  function ExecuteRequest(i: Input): (r: Parsed<Request>)
    ensures Consumed(i, r)
  {
    var (_, i0) :- Header(i);
    var (portal, i1) :- Str(i0);
    var (maxRows, i2) :- Int32(i1);
    Ok(Execute(portal, maxRows), i2)
  }

  /** Sync, Flush and Terminate are read as a header alone. */
  function BareRequest(i: Input, q: Request): (r: Parsed<Request>)
    ensures Consumed(i, r)
  {
    var (_, j) :- Header(i);
    Ok(q, j)
  }

  function SkipRequest(i: Input, t: byte): (r: Parsed<Request>)
    ensures Consumed(i, r)
  {
    var (h, j) :- Header(i);
    var (_, k) :- Data(j, h);
    Ok(Unsupported(t), k)
  }

  /** The switch of the dispatch loop on the peeked type byte. */
  function Dispatch(i: Input, t: byte): (r: Parsed<Request>)
    ensures Consumed(i, r)
  {
    if t == Frontend.PARSE then ParseRequest(i)
    else if t == Frontend.BIND then BindRequest(i)
    else if t == Frontend.DESCRIBE then DescribeRequest(i)
    else if t == Frontend.QUERY then QueryRequest(i)
    else if t == Frontend.EXECUTE then ExecuteRequest(i)
    else if t == Frontend.CLOSE then CloseRequest(i)
    else if t == Frontend.SYNC then BareRequest(i, Sync)
    else if t == Frontend.FLUSH then BareRequest(i, Flush)
    else if t == Frontend.TERMINATE then BareRequest(i, Terminate)
    else SkipRequest(i, t)
  }

  /** What a message means to the server: NULL and empty text parameters are the same, result formats are dropped. */
  function Meaning(m: Frontend.Message): Request {
    match m
    case Parse(name, query, types) => Parse(name, query, types)
    case Bind(portal, statement, formats, values, _) => Bind(portal, statement, Params(formats, values))
    case Describe(kind, name) => Describe(kind, name)
    case Query(text) => Query(text)
    case Execute(portal, maxRows) => Execute(portal, maxRows)
    case Close(kind, name) => Close(kind, name)
    case Sync => Sync
    case Flush => Flush
    case Terminate => Terminate
    case Other(t, _) => Unsupported(t)
  }
}
