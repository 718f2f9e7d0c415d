/** Frontend messages as section 55.7 of the PostgreSQL 16 documentation lays them out. */
module Frontend {
  import opened BigEndian
  import opened Inputs

  datatype Prepared = Statement | Portal

  datatype Message =
    | Parse(name: GoString, query: GoString, types: seq<int>)
    | Bind(portal: GoString, statement: GoString, formats: seq<int>, values: seq<Field>, resultFormats: seq<int>)
    | Describe(kind: Prepared, name: GoString)
    | Query(text: GoString)
    | Execute(portal: GoString, maxRows: int)
    | Close(kind: Prepared, name: GoString)
    | Sync
    | Flush
    | Terminate
    | Other(t: byte, payload: Bytes)

  const BIND: byte := 66
  const CLOSE: byte := 67
  const DESCRIBE: byte := 68
  const EXECUTE: byte := 69
  const FLUSH: byte := 72
  const PARSE: byte := 80
  const QUERY: byte := 81
  const SYNC: byte := 83
  const TERMINATE: byte := 88
  const COPY_DATA: byte := 100
  const COPY_DONE: byte := 99
  const SUPPORTED: set<int> := {66, 67, 68, 69, 72, 80, 81, 83, 88}

  function TypeByte(m: Message): byte {
    match m
    case Parse(_, _, _) => 'P' as int
    case Bind(_, _, _, _, _) => 'B' as int
    case Describe(_, _) => 'D' as int
    case Query(_) => 'Q' as int
    case Execute(_, _) => 'E' as int
    case Close(_, _) => 'C' as int
    case Sync => 'S' as int
    case Flush => 'H' as int
    case Terminate => 'X' as int
    case Other(t, _) => t
  }

  function KindByte(k: Prepared): byte { if k.Statement? then 'S' as int else 'P' as int }

  function CString(s: GoString): Bytes { s + [0] }

  /** A parameter value: its length and its bytes, or length -1 for NULL. */
  function ValueBytes(v: Field): Bytes {
    if v.Null? then Int32Bytes(-1) else Int32Bytes(|v.value|) + v.value
  }

  function {:tailrecursion false} ValuesBytes(vs: seq<Field>): Bytes {
    if vs == [] then [] else ValueBytes(vs[0]) + ValuesBytes(vs[1..])
  }

  function AfterValues(resultFormats: seq<int>): Bytes {
    Int16Bytes(|resultFormats|) + Int16sBytes(resultFormats)
  }

  function Body(m: Message): Bytes {
    match m
    case Parse(name, query, types) =>
      CString(name) + (CString(query) + (Int16Bytes(|types|) + Int32sBytes(types)))
    case Bind(portal, statement, formats, values, resultFormats) =>
      CString(portal) + (CString(statement) + (Int16Bytes(|formats|) + (Int16sBytes(formats)
      + (Int16Bytes(|values|) + (ValuesBytes(values) + AfterValues(resultFormats))))))
    case Describe(kind, name) => [KindByte(kind)] + CString(name)
    case Query(text) => CString(text)
    case Execute(portal, maxRows) => CString(portal) + Int32Bytes(maxRows)
    case Close(kind, name) => [KindByte(kind)] + CString(name)
    case Other(_, payload) => payload
    case _ => []
  }

  /** A message on the wire: type byte, length of everything after it, body. */
  function Frame(t: byte, body: Bytes): (f: Bytes)
    ensures |f| == |body| + 5
  {
    [t] + (Int32Bytes(|body| + 4) + body)
  }

  function Encode(m: Message): Bytes { Frame(TypeByte(m), Body(m)) }

  function {:tailrecursion false} EncodeAll(ms: seq<Message>): Bytes {
    if ms == [] then [] else Encode(ms[0]) + EncodeAll(ms[1..])
  }

  predicate Fits(v: Field) { v.Null? || IsInt32(|v.value|) }

  /** What the message formats can express. */
  predicate WellFormed(m: Message) {
    && IsInt32(|Body(m)| + 4)
    && match m {
      case Parse(name, query, types) =>
        NulFree(name) && NulFree(query) && IsInt16(|types|) && forall v :: v in types ==> IsInt32(v)
      case Bind(portal, statement, formats, values, resultFormats) =>
        && NulFree(portal) && NulFree(statement)
        && IsInt16(|formats|) && (forall v :: v in formats ==> IsInt16(v))
        && IsInt16(|values|) && (forall v :: v in values ==> Fits(v))
        && IsInt16(|resultFormats|) && (forall v :: v in resultFormats ==> IsInt16(v))
      case Describe(_, name) => NulFree(name)
      case Query(text) => NulFree(text)
      case Execute(portal, maxRows) => NulFree(portal) && IsInt32(maxRows)
      case Close(_, name) => NulFree(name)
      case Other(t, _) => t !in SUPPORTED
      case _ => true
    }
  }

  /** Bind values reach the server unbroken: no segment of the source ends strictly inside one of them, when `len`
      bytes remain at the first value's length field. */
  predicate UnbrokenValues(vs: seq<Field>, len: nat, cuts: set<nat>) {
    vs == [] ||
    if vs[0].Null? then
      len >= 4 && UnbrokenValues(vs[1..], len - 4, cuts)
    else
      && len >= 4 + |vs[0].value|
      && (vs[0].value == [] || Unbroken(len - 4, cuts, |vs[0].value|))
      && UnbrokenValues(vs[1..], len - 4 - |vs[0].value|, cuts)
  }

  /** The same for a whole message followed by `after` bytes. */
  predicate Unsplit(m: Message, after: nat, cuts: set<nat>) {
    m.Bind? ==> UnbrokenValues(m.values, |ValuesBytes(m.values)| + |AfterValues(m.resultFormats)| + after, cuts)
  }

  predicate AllUnsplit(ms: seq<Message>, after: nat, cuts: set<nat>) {
    ms == [] || (Unsplit(ms[0], |EncodeAll(ms[1..])| + after, cuts) && AllUnsplit(ms[1..], after, cuts))
  }
}
