/** DataRow and RowDescription payloads, and their reading by section 55.7. */
module RowFormat {
  import opened BigEndian
  import opened Errors
  import opened Inputs
  import opened Frontend

  type Bits32 = b: Bytes | |b| == 4 witness [0, 0, 0, 0]
  type Bits64 = b: Bytes | |b| == 8 witness [0, 0, 0, 0, 0, 0, 0, 0]

  /** A column value as the Go code may hold it; floats are given by their bits. */
  datatype Cell =
    | RawBytes(b: Bytes)
    | Str(s: GoString)
    | Int8(v: int)
    | Int16(v: int)
    | Int32(v: int)
    | Int64(v: int)
    | GoInt(v: int)
    | Float32(bits32: Bits32)
    | Float64(bits64: Bits64)
    | Nil
    | Unsupported

  /** What goes on the wire for a cell. */
  function CellField(c: Cell): Option<BigEndian.Field> {
    match c
    case RawBytes(b) => Some(Field(b))
    case Str(s) => Some(Field(s))
    case Int8(v) => Some(Field([v % 256]))
    case Int16(v) => Some(Field(Int16Bytes(v)))
    case Int32(v) => Some(Field(Int32Bytes(v)))
    case Int64(v) => Some(Field(Int64Bytes(v)))
    case GoInt(v) => Some(Field(Int64Bytes(v)))
    case Float32(bits) => Some(Field(bits))
    case Float64(bits) => Some(Field(bits))
    case Nil => Some(Null)
    case Unsupported => None
  }

  /** What a client that reads the column by its length finds: text and bytes as they are, integers in big-endian
      order of their own width, floats by their bits, nil as NULL; other Go types are refused. */
  lemma CellFieldMeans(c: Cell)
    ensures match c
            case RawBytes(b) => CellField(c) == Some(Field(b))
            case Str(s) => CellField(c) == Some(Field(s))
            case Int8(v) => exists b: byte :: CellField(c) == Some(Field([b])) && (v - b) % 256 == 0
            case Int16(v) =>
              exists b: Bytes :: |b| == 2 && CellField(c) == Some(Field(b)) && BigEndian.Int16Of(b) == Wrap16(v)
            case Int32(v) =>
              exists b: Bytes :: |b| == 4 && CellField(c) == Some(Field(b)) && BigEndian.Int32Of(b) == Wrap32(v)
            case Int64(v) => IsInt64(CellField(c), v)
            case GoInt(v) => IsInt64(CellField(c), v)
            case Float32(bits) => CellField(c) == Some(Field(bits))
            case Float64(bits) => CellField(c) == Some(Field(bits))
            case Nil => CellField(c) == Some(Null)
            case Unsupported => CellField(c) == None
  {
    hide Int16Bytes, Int32Bytes, BigEndian.Int16Of, BigEndian.Int32Of, Wrap16, Wrap32;
    match c
    case Int16(v) => Int16RoundTrip(v);
    case Int32(v) => Int32RoundTrip(v);
    case Int64(v) => Int64Reads(v);
    case GoInt(v) => Int64Reads(v);
    case Int8(v) => assert CellField(c) == Some(Field([v % 256])) && (v - v % 256) % 256 == 0;
    case _ =>
  }

  /** Eight bytes: the high half of the number, then the low half. */
  ghost predicate IsInt64(f: Option<BigEndian.Field>, v: int) {
    exists b: Bytes ::
      && |b| == 8 && f == Some(Field(b))
      && BigEndian.Int32Of(b[..4]) == Wrap32(v / 0x1_0000_0000) && BigEndian.Int32Of(b[4..]) == Wrap32(v)
  }

  lemma Int64Reads(v: int)
    ensures IsInt64(Some(Field(Int64Bytes(v))), v)
  {
    hide Int32Bytes, BigEndian.Int32Of, Wrap32;
    Int32RoundTrip(v / 0x1_0000_0000);
    Int32RoundTrip(v);
    var b := Int64Bytes(v);
    assert b[..4] == Int32Bytes(v / 0x1_0000_0000) && b[4..] == Int32Bytes(v);
  }

  function CellFields(cs: seq<Cell>): (fs: Option<seq<BigEndian.Field>>)
    ensures fs.Some? ==> |fs.value| == |cs|
  {
    if cs == [] then Some([])
    else
      var f, rest := CellField(cs[0]), CellFields(cs[1..]);
      if f.None? || rest.None? then None else Some([f.value] + rest.value)
  }

  /** Column count, then every column's length and bytes. */
  function RowPayload(fs: seq<BigEndian.Field>): Bytes { Int16Bytes(|fs|) + ValuesBytes(fs) }

  /** One column as a client reads it: -1 is NULL, other negative lengths are malformed. */
  function ReadField(i: Input): Parsed<BigEndian.Field> {
    var (n, j) :- Inputs.Int32(i);
    if n == -1 then Ok(Null, j)
    else if n < 0 then Err(InvalidLength(n), j)
    else
      var (b, k) :- Take(j, n);
      Ok(Field(b), k)
  }

  function ReadFields(i: Input, n: nat): (r: Parsed<seq<BigEndian.Field>>)
    ensures r.Ok? ==> |r.value| == n
    decreases n
  {
    if n == 0 then Ok([], i)
    else
      var (f, j) :- ReadField(i);
      var (fs, k) :- ReadFields(j, n - 1);
      Ok([f] + fs, k)
  }

  /** A client's reading of a DataRow payload, which it must use up. */
  function ReadRow(payload: Bytes): Option<seq<BigEndian.Field>> {
    match Inputs.Int16(Input([], payload, {}, false))
    case Err(_, _) => None
    case Ok(n, i) =>
      if n < 0 then None
      else
        var r := ReadFields(i, n);
        if r.Ok? && r.next.Stream() == [] then Some(r.value) else None
  }

  predicate FitsField(f: BigEndian.Field) { f.Null? || IsInt32(|f.value|) }

  lemma ReadFieldPrefix(i: Input, f: BigEndian.Field, s: Bytes)
    requires i.peek == [] && i.rest == ValueBytes(f) + s
    ensures FitsField(f) ==> ReadField(i) == Ok(f, At(i, s))
    ensures !FitsField(f) && ReadField(i).Ok? ==> ReadField(i).value != f
  {
    if f.Null? {
      Int32Prefix(i, -1, s);
    } else {
      var n := |f.value|;
      var u := f.value + s;
      assert i.rest == Int32Bytes(n) + u;
      Int32Prefix(i, n, u);
      hide Inputs.Int32, Int32Bytes, Int32Of;
      if FitsField(f) {
        TakePrefix(At(i, u), f.value, s);
      } else {
        assert Wrap32(n) != n;
      }
    }
  }

  lemma {:induction false} ReadFieldsPrefix(i: Input, fs: seq<BigEndian.Field>, s: Bytes)
    requires i.peek == [] && i.rest == ValuesBytes(fs) + s
    ensures (forall k :: 0 <= k < |fs| ==> FitsField(fs[k])) ==> ReadFields(i, |fs|) == Ok(fs, At(i, s))
    ensures !(forall k :: 0 <= k < |fs| ==> FitsField(fs[k])) && ReadFields(i, |fs|).Ok? ==>
            ReadFields(i, |fs|).value != fs
    decreases |fs|
  {
    hide ReadField, ValueBytes;
    if fs != [] {
      var t := ValuesBytes(fs[1..]) + s;
      assert i.rest == ValueBytes(fs[0]) + t;
      ReadFieldPrefix(i, fs[0], t);
      if FitsField(fs[0]) {
        ReadFieldsPrefix(At(i, t), fs[1..], s);
        assert fs == [fs[0]] + fs[1..];
        assert forall r: seq<BigEndian.Field> :: [fs[0]] + r == fs ==> ([fs[0]] + r)[1..] == r;
      }
    }
  }

  /** A row is read back exactly, NULL as length -1, exactly when it has fewer than 32768 columns and no column of 2^31
      bytes or more. */
  lemma RowReadsIff(fs: seq<BigEndian.Field>)
    ensures ReadRow(RowPayload(fs)) == Some(fs) <==> |fs| < 0x8000 && forall k :: 0 <= k < |fs| ==> FitsField(fs[k])
  {
    hide ReadFields, ValuesBytes, Inputs.Int16, Int16Bytes, Int16Of;
    var i := Input([], RowPayload(fs), {}, false);
    Int16Prefix(i, |fs|, ValuesBytes(fs));
    var j := At(i, ValuesBytes(fs));
    if |fs| < 0x8000 {
      assert ValuesBytes(fs) + [] == ValuesBytes(fs);
      ReadFieldsPrefix(j, fs, []);
    } else {
      assert Wrap16(|fs|) != |fs|;
    }
  }

  lemma RowInjective(fs: seq<BigEndian.Field>, gs: seq<BigEndian.Field>)
    requires |fs| < 0x8000 && (forall k :: 0 <= k < |fs| ==> FitsField(fs[k]))
    requires |gs| < 0x8000 && (forall k :: 0 <= k < |gs| ==> FitsField(gs[k]))
    requires RowPayload(fs) == RowPayload(gs)
    ensures fs == gs
  {
    RowReadsIff(fs);
    RowReadsIff(gs);
  }

  // RowDescription.

  datatype RowField = RowField(
    name: GoString,
    tableId: int,
    number: int,
    objectId: int,
    size: int,
    modifier: int,
    format: int)

  predicate FieldFits(f: RowField) {
    && NulFree(f.name) && IsInt32(f.tableId) && IsInt16(f.number) && IsInt32(f.objectId)
    && IsInt16(f.size) && IsInt32(f.modifier) && IsInt16(f.format)
  }

  function FieldTail(f: RowField): Bytes {
    Int16Bytes(f.number) + (Int32Bytes(f.objectId)
        + (Int16Bytes(f.size) + (Int32Bytes(f.modifier) + Int16Bytes(f.format))))
  }

  function RowFieldBytes(f: RowField): Bytes { CString(f.name) + (Int32Bytes(f.tableId) + FieldTail(f)) }

  function {:tailrecursion false} RowFieldsBytes(fs: seq<RowField>): Bytes {
    if fs == [] then [] else RowFieldBytes(fs[0]) + RowFieldsBytes(fs[1..])
  }

  function DescriptionPayload(fs: seq<RowField>): Bytes { Int16Bytes(|fs|) + RowFieldsBytes(fs) }

  function ReadRowField(i: Input): Parsed<RowField> {
    var (name, i1) :- Inputs.Str(i);
    var (tableId, i2) :- Inputs.Int32(i1);
    var (number, i3) :- Inputs.Int16(i2);
    var (objectId, i4) :- Inputs.Int32(i3);
    var (size, i5) :- Inputs.Int16(i4);
    var (modifier, i6) :- Inputs.Int32(i5);
    var (format, i7) :- Inputs.Int16(i6);
    Ok(RowField(name, tableId, number, objectId, size, modifier, format), i7)
  }

  function ReadRowFields(i: Input, n: nat): Parsed<seq<RowField>>
    decreases n
  {
    if n == 0 then Ok([], i)
    else
      var (f, j) :- ReadRowField(i);
      var (fs, k) :- ReadRowFields(j, n - 1);
      Ok([f] + fs, k)
  }

  function ReadDescription(payload: Bytes): Option<seq<RowField>> {
    match Inputs.Int16(Input([], payload, {}, false))
    case Err(_, _) => None
    case Ok(n, i) =>
      if n < 0 then None
      else
        var r := ReadRowFields(i, n);
        if r.Ok? && r.next.Stream() == [] then Some(r.value) else None
  }

  lemma RowFieldPrefix(i: Input, f: RowField, s: Bytes)
    requires i.peek == [] && i.rest == RowFieldBytes(f) + s && FieldFits(f)
    ensures ReadRowField(i) == Ok(f, At(i, s))
  {
    hide Inputs.Str, Inputs.Int16, Inputs.Int32, Int16Bytes, Int32Bytes, Int16Of, Int32Of, Take;
    var u7 := Int16Bytes(f.format) + s;
    var u6 := Int32Bytes(f.modifier) + u7;
    var u5 := Int16Bytes(f.size) + u6;
    var u4 := Int32Bytes(f.objectId) + u5;
    var u3 := Int16Bytes(f.number) + u4;
    var u2 := Int32Bytes(f.tableId) + u3;
    assert i.rest == CString(f.name) + u2;
    StrPrefix(i, f.name, u2);
    Int32Prefix(At(i, u2), f.tableId, u3);
    Int16Prefix(At(i, u3), f.number, u4);
    Int32Prefix(At(i, u4), f.objectId, u5);
    Int16Prefix(At(i, u5), f.size, u6);
    Int32Prefix(At(i, u6), f.modifier, u7);
    Int16Prefix(At(i, u7), f.format, s);
  }

  lemma {:induction false} RowFieldsPrefix(i: Input, fs: seq<RowField>, s: Bytes)
    requires i.peek == [] && i.rest == RowFieldsBytes(fs) + s
    requires forall k :: 0 <= k < |fs| ==> FieldFits(fs[k])
    ensures ReadRowFields(i, |fs|) == Ok(fs, At(i, s))
    decreases |fs|
  {
    hide ReadRowField, RowFieldBytes, FieldFits;
    if fs != [] {
      var t := RowFieldsBytes(fs[1..]) + s;
      assert i.rest == RowFieldBytes(fs[0]) + t;
      RowFieldPrefix(i, fs[0], t);
      RowFieldsPrefix(At(i, t), fs[1..], s);
      assert fs == [fs[0]] + fs[1..];
    }
  }

  lemma NumbersFit(i: Input)
    ensures Inputs.Int16(i).Ok? ==> IsInt16(Inputs.Int16(i).value)
    ensures Inputs.Int32(i).Ok? ==> IsInt32(Inputs.Int32(i).value)
  {
    hide Take, Join2, Join4;
  }

  /** Whatever the bytes are, a field that is read fits its format. */
  lemma ReadFieldFits(i: Input)
    ensures ReadRowField(i).Ok? ==> FieldFits(ReadRowField(i).value)
  {
    hide Inputs.Str, Inputs.Int16, Inputs.Int32;
    var i1 := Inputs.Str(i).next;
    NumbersFit(i1);
    var i2 := Inputs.Int32(i1).next;
    NumbersFit(i2);
    var i3 := Inputs.Int16(i2).next;
    NumbersFit(i3);
    var i4 := Inputs.Int32(i3).next;
    NumbersFit(i4);
    var i5 := Inputs.Int16(i4).next;
    NumbersFit(i5);
    NumbersFit(Inputs.Int32(i5).next);
  }

  lemma {:induction false} ReadFieldsFit(i: Input, n: nat)
    ensures var r := ReadRowFields(i, n);
      r.Ok? ==> |r.value| == n && forall k :: 0 <= k < n ==> FieldFits(r.value[k])
    decreases n
  {
    hide ReadRowField, FieldFits;
    if n > 0 && ReadRowField(i).Ok? {
      ReadFieldFits(i);
      ReadFieldsFit(ReadRowField(i).next, n - 1);
    }
  }

  /** A description is read back field by field exactly when it has fewer than 32768 fields, no name holds a zero byte
      and every number fits its width. */
  lemma DescriptionReadsIff(fs: seq<RowField>)
    ensures ReadDescription(DescriptionPayload(fs)) == Some(fs) <==>
            |fs| < 0x8000 && forall k :: 0 <= k < |fs| ==> FieldFits(fs[k])
  {
    hide ReadRowFields, RowFieldsBytes, Inputs.Int16, Int16Bytes, Int16Of, FieldFits;
    var i := Input([], DescriptionPayload(fs), {}, false);
    Int16Prefix(i, |fs|, RowFieldsBytes(fs));
    NumbersFit(i);
    var j := At(i, RowFieldsBytes(fs));
    if |fs| < 0x8000 && forall k :: 0 <= k < |fs| ==> FieldFits(fs[k]) {
      assert RowFieldsBytes(fs) + [] == RowFieldsBytes(fs);
      RowFieldsPrefix(j, fs, []);
    } else if Inputs.Int16(i).value >= 0 {
      ReadFieldsFit(j, Inputs.Int16(i).value);
    }
  }

  lemma DescriptionInjective(fs: seq<RowField>, gs: seq<RowField>)
    requires |fs| < 0x8000 && forall k :: 0 <= k < |fs| ==> FieldFits(fs[k])
    requires |gs| < 0x8000 && forall k :: 0 <= k < |gs| ==> FieldFits(gs[k])
    requires DescriptionPayload(fs) == DescriptionPayload(gs)
    ensures fs == gs
  {
    DescriptionReadsIff(fs);
    DescriptionReadsIff(gs);
  }
}
