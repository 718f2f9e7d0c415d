/** The writer, and the response objects that write themselves through it. */
module Writers {
  import opened BigEndian
  import opened Errors
  import opened Framing
  import RowFormat
  import Frontend

  /** A memory buffer behind a buffered writer. */
  class Writer {
    var buffer: Bytes
    var pending: Bytes

    ghost function Content(): Bytes
      reads this
    {
      buffer + pending
    }

    constructor ()
      ensures Content() == []
    {
      buffer, pending := [], [];
    }

    method AppendByte(c: byte)
      modifies this
      ensures Content() == old(Content()) + [c]
    {
      pending := pending + [c];
    }

    method AppendBytes(p: Bytes)
      modifies this
      ensures Content() == old(Content()) + p
    {
      pending := pending + p;
    }

    method AppendInt8(v: int)
      modifies this
      ensures Content() == old(Content()) + [v % 256]
    {
      AppendByte(v % 256);
    }

    method AppendInt16(v: int)
      modifies this
      ensures Content() == old(Content()) + Int16Bytes(v)
    {
      var b := Int16ToBytes(v);
      AppendBytes(b[..]);
    }

    method AppendInt32(v: int)
      modifies this
      ensures Content() == old(Content()) + Int32Bytes(v)
    {
      var b := Int32ToBytes(v);
      AppendBytes(b[..]);
    }

    method AppendInt64(v: int)
      modifies this
      ensures Content() == old(Content()) + Int64Bytes(v)
    {
      var b := Int64ToBytes(v);
      AppendBytes(b[..]);
    }

    method AppendString(s: GoString)
      modifies this
      ensures Content() == old(Content()) + Frontend.CString(s)
    {
      if 0 < |s| {
        AppendBytes(s);
      }
      AppendByte(0);
    }

    /** Flushes, and shows everything written so far. */
    method Bytes() returns (b: Bytes)
      modifies this
      ensures b == Content() == old(Content())
    {
      buffer := buffer + pending;
      pending := [];
      return buffer;
    }
  }

  class ResponseMessage {
    const typ: byte
    const writer: Writer

    constructor (typ: byte)
      ensures this.typ == typ && fresh(writer) && writer.Content() == []
    {
      this.typ := typ;
      writer := new Writer();
    }

    method Bytes() returns (b: Bytes)
      modifies writer
      ensures b == FrameBytes(typ, old(writer.Content())) && writer.Content() == old(writer.Content())
    {
      var msgBytes := writer.Bytes();
      var l := |msgBytes|;
      b := [];
      if typ != 0 {
        b := b + [typ];
      }
      var len := Int32ToBytes(l + 4);
      b := b + len[..];
      b := b + msgBytes;
    }
  }

  const DATA_ROW: byte := 68
  const ROW_DESCRIPTION: byte := 84

  /** Length and bytes of a column, by the Go type of its value. */
  function CellBytes(c: RowFormat.Cell): Option<Bytes> {
    match c
    case RawBytes(b) => Some(Int32Bytes(|b|) + b)
    case Str(s) => Some(Int32Bytes(|s|) + s)
    case Int8(v) => Some(Int32Bytes(1) + [v % 256])
    case Int16(v) => Some(Int32Bytes(2) + Int16Bytes(v))
    case Int32(v) => Some(Int32Bytes(4) + Int32Bytes(v))
    case Int64(v) => Some(Int32Bytes(8) + Int64Bytes(v))
    case GoInt(v) => Some(Int32Bytes(8) + Int64Bytes(v))
    case Float32(bits) => Some(Int32Bytes(4) + bits)
    case Float64(bits) => Some(Int32Bytes(8) + bits)
    case Nil => Some(Int32Bytes(-1))
    case Unsupported => None
  }

  lemma CellLayout(c: RowFormat.Cell)
    ensures RowFormat.CellField(c).Some? <==> CellBytes(c).Some?
    ensures RowFormat.CellField(c).Some? ==> Frontend.ValueBytes(RowFormat.CellField(c).value) == CellBytes(c).value
  {}

  class DataRow {
    const msg: ResponseMessage
    var data: seq<RowFormat.Cell>

    constructor ()
      ensures data == [] && msg.typ == DATA_ROW && fresh(msg) && fresh(msg.writer) && msg.writer.Content() == []
    {
      msg := new ResponseMessage(DATA_ROW);
      data := [];
    }

    /** Writes one column: its length, then its bytes. */
    method WriteCell(c: RowFormat.Cell) returns (err: Option<Error>)
      modifies msg.writer
      ensures match RowFormat.CellField(c) {
        case Some(f) => err == None && msg.writer.Content() == old(msg.writer.Content()) + Frontend.ValueBytes(f)
        case None => err == Some(UnsupportedColumn) && msg.writer.Content() == old(msg.writer.Content())
      }
    {
      CellLayout(c);
      hide Int16Bytes, Int32Bytes, Int64Bytes, Frontend.ValueBytes, RowFormat.CellField;
      var w := msg.writer;
      err := None;
      match c {
        case RawBytes(b) =>
          w.AppendInt32(|b|);
          w.AppendBytes(b);
        case Str(s) =>
          w.AppendInt32(|s|);
          w.AppendBytes(s);
        case Int8(v) =>
          w.AppendInt32(1);
          w.AppendInt8(v);
        case Int16(v) =>
          w.AppendInt32(2);
          w.AppendInt16(v);
        case Int32(v) =>
          w.AppendInt32(4);
          w.AppendInt32(v);
        case Int64(v) =>
          w.AppendInt32(8);
          w.AppendInt64(v);
        case GoInt(v) =>
          w.AppendInt32(8);
          w.AppendInt64(v);
        case Float32(bits) =>
          w.AppendInt32(4);
          w.AppendBytes(bits);
        case Float64(bits) =>
          w.AppendInt32(8);
          w.AppendBytes(bits);
        case Nil =>
          w.AppendInt32(-1);
        case Unsupported =>
          err := Some(UnsupportedColumn);
      }
    }

    /** The frame of the row. The payload goes behind whatever the writer already holds: a second call would repeat
        it. */
    method Bytes() returns (r: Result<Bytes>)
      modifies msg.writer
      ensures match RowFormat.CellFields(data) {
        case Some(fs) => r == Success(FrameBytes(msg.typ, old(msg.writer.Content()) + RowFormat.RowPayload(fs)))
        case None => r == Failure(UnsupportedColumn)
      }
    {
      hide Int16Bytes, Frontend.ValueBytes, RowFormat.CellField, FrameBytes;
      ghost var head := msg.writer.Content() + Int16Bytes(|data|);
      msg.writer.AppendInt16(|data|);
      ghost var done: seq<Field> := [];
      assert head + Frontend.ValuesBytes(done) == head;
      ghost var all := RowFormat.CellFields(data);
      assert data[0..] == data && (all.Some? ==> [] + all.value == all.value);
      for n := 0 to |data|
        invariant msg.writer.Content() == head + Frontend.ValuesBytes(done)
        invariant RowFormat.CellFields(data) == var rest := RowFormat.CellFields(data[n..]);
                    if rest.Some? then Some(done + rest.value) else None
        invariant |done| == n
      {
        assert data[n..][1..] == data[n + 1..];
        var err := WriteCell(data[n]);
        if err.Some? {
          return Failure(err.value);
        }
        ghost var f := RowFormat.CellField(data[n]).value;
        ValuesAppend(done, f);
        ghost var rest := RowFormat.CellFields(data[n + 1..]);
        assert rest.Some? ==> done + ([f] + rest.value) == (done + [f]) + rest.value;
        done := done + [f];
      }
      assert done + [] == done;
      assert head + Frontend.ValuesBytes(done)
             == old(msg.writer.Content()) + (Int16Bytes(|done|) + Frontend.ValuesBytes(done));
      var b := msg.Bytes();
      return Success(b);
    }
  }

  lemma {:induction false} ValuesAppend(fs: seq<Field>, f: Field)
    ensures Frontend.ValuesBytes(fs + [f]) == Frontend.ValuesBytes(fs) + Frontend.ValueBytes(f)
    decreases |fs|
  {
    hide Frontend.ValueBytes;
    if fs == [] {
      assert fs + [f] == [f] && [f][1..] == [];
    } else {
      ValuesAppend(fs[1..], f);
      assert (fs + [f])[1..] == fs[1..] + [f];
    }
  }

  lemma {:induction false} RowFieldsAppend(fs: seq<RowFormat.RowField>, f: RowFormat.RowField)
    ensures RowFormat.RowFieldsBytes(fs + [f]) == RowFormat.RowFieldsBytes(fs) + RowFormat.RowFieldBytes(f)
    decreases |fs|
  {
    hide RowFormat.RowFieldBytes;
    if fs == [] {
      assert fs + [f] == [f] && [f][1..] == [];
    } else {
      RowFieldsAppend(fs[1..], f);
      assert (fs + [f])[1..] == fs[1..] + [f];
    }
  }

  class RowDescription {
    const msg: ResponseMessage
    var fileds: seq<RowFormat.RowField>

    constructor ()
      ensures fileds == [] && msg.typ == ROW_DESCRIPTION && fresh(msg) && fresh(msg.writer)
              && msg.writer.Content() == []
    {
      msg := new ResponseMessage(ROW_DESCRIPTION);
      fileds := [];
    }

    method AppendField(f: RowFormat.RowField)
      modifies this`fileds
      ensures fileds == old(fileds) + [f]
    {
      fileds := fileds + [f];
    }

    /** `RowField.WirteBytes`. */
    method WriteField(f: RowFormat.RowField)
      modifies msg.writer
      ensures msg.writer.Content() == old(msg.writer.Content()) + RowFormat.RowFieldBytes(f)
    {
      hide Int16Bytes, Int32Bytes;
      msg.writer.AppendString(f.name);
      msg.writer.AppendInt32(f.tableId);
      msg.writer.AppendInt16(f.number);
      msg.writer.AppendInt32(f.objectId);
      msg.writer.AppendInt16(f.size);
      msg.writer.AppendInt32(f.modifier);
      msg.writer.AppendInt16(f.format);
    }

    method Bytes() returns (b: Bytes)
      modifies msg.writer
      ensures b == FrameBytes(msg.typ, old(msg.writer.Content()) + RowFormat.DescriptionPayload(fileds))
    {
      hide Int16Bytes, RowFormat.RowFieldBytes, FrameBytes;
      ghost var head := msg.writer.Content() + Int16Bytes(|fileds|);
      msg.writer.AppendInt16(|fileds|);
      assert head + RowFormat.RowFieldsBytes([]) == head;
      for n := 0 to |fileds|
        invariant msg.writer.Content() == head + RowFormat.RowFieldsBytes(fileds[..n])
      {
        WriteField(fileds[n]);
        RowFieldsAppend(fileds[..n], fileds[n]);
        assert fileds[..n + 1] == fileds[..n] + [fileds[n]];
      }
      assert fileds[..|fileds|] == fileds;
      assert head + RowFormat.RowFieldsBytes(fileds)
          == old(msg.writer.Content()) + (Int16Bytes(|fileds|) + RowFormat.RowFieldsBytes(fileds));
      b := msg.Bytes();
    }
  }
}
