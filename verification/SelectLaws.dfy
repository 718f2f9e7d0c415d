/** A client that reads the bytes of a SELECT's answer gets the result set back. */
module SelectLaws {
  import opened BigEndian
  import opened Responses
  import opened Framing
  import opened RowFormat
  import opened ResultSets
  import opened Values
  import Writers

  type Fields = seq<BigEndian.Field>

  /** The response a part writes; a row with a cell the writer does not know is refused. */
  function PartResponse(p: Part): Option<Response> {
    match p
    case Description(fs) => Some(Typed(Writers.ROW_DESCRIPTION, DescriptionPayload(fs)))
    case Row(cells) =>
      (match CellFields(cells)
       case None => None
       case Some(fs) => Some(Typed(Writers.DATA_ROW, RowPayload(fs))))
    case Complete(n) => Some(SelectComplete(n))
  }

  function PartResponses(ps: seq<Part>): (rs: Option<seq<Response>>)
    decreases |ps|
  {
    if ps == [] then Some([])
    else
      match (PartResponse(ps[0]), PartResponses(ps[1..]))
      case (Some(r), Some(rest)) => Some([r] + rest)
      case _ => None
  }

  /** What a client makes of the answer: the columns, the rows, the command tag. */
  datatype Answer = Answer(columns: seq<RowField>, rows: seq<Fields>, tag: Bytes)

  function {:tailrecursion false} ReadRows(rs: seq<Response>): Option<seq<Fields>> {
    if rs == [] then Some([])
    else if !rs[0].Typed? || rs[0].typ != 'D' as int then None
    else
      match (ReadRow(rs[0].payload), ReadRows(rs[1..]))
      case (Some(fs), Some(rest)) => Some([fs] + rest)
      case _ => None
  }

  /** Cut the bytes into messages; the first describes the rows, the last completes the command. */
  function ReadAnswer(b: Bytes): Option<Answer> {
    match Cut(b)
    case None => None
    case Some(rs) => ReadMessages(rs)
  }

  function ReadMessages(rs: seq<Response>): Option<Answer> {
    if |rs| < 2 then None
    else
      var first, last := rs[0], rs[|rs| - 1];
      if !first.Typed? || first.typ != 'T' as int || !last.Typed? || last.typ != 'C' as int then None
      else
        match (ReadDescription(first.payload), ReadRows(rs[1..|rs| - 1]))
        case (Some(columns), Some(rows)) => Some(Answer(columns, rows, last.payload))
        case _ => None
  }

  /** Fields a client reads back whole. */
  predicate Readable(fs: Fields) {
    |fs| < 0x8000 && forall k :: 0 <= k < |fs| ==> FitsField(fs[k])
  }

  function RowResponses(wire: seq<Fields>): (rs: seq<Response>)
    ensures |rs| == |wire|
  {
    seq(|wire|, k requires 0 <= k < |wire| => Typed('D' as int, RowPayload(wire[k])))
  }

  lemma {:induction false} RowsReadBack(wire: seq<Fields>)
    requires forall k :: 0 <= k < |wire| ==> Readable(wire[k])
    ensures ReadRows(RowResponses(wire)) == Some(wire)
    decreases |wire|
  {
    hide ReadRow, RowPayload;
    if wire != [] {
      RowReadsIff(wire[0]);
      RowsReadBack(wire[1..]);
      assert RowResponses(wire)[1..] == RowResponses(wire[1..]);
      assert wire == [wire[0]] + wire[1..];
    }
  }

  /** Row k's cells, as they go on the wire. */
  ghost predicate Encoded(c: Conversion, fields: seq<RowField>, selectors: seq<GoString>, rows: seq<Content>,
      wire: seq<Fields>)
    requires |fields| == |selectors|
  {
    |wire| == |rows| && forall k :: 0 <= k < |rows| ==>
        CellFields(CellsFor(c, fields, selectors, rows[k])) == Some(wire[k])
  }

  lemma {:induction false} RowPartsWrite(
    c: Conversion, fields: seq<RowField>, selectors: seq<GoString>, rows: seq<Content>, wire: seq<Fields>,
    end: seq<Part>)
    requires |fields| == |selectors| && Encoded(c, fields, selectors, rows, wire) && PartResponses(end).Some?
    ensures PartResponses(RowParts(c, fields, selectors, rows) + end)
            == Some(RowResponses(wire) + PartResponses(end).value)
    decreases |rows|
  {
    hide CellFields, CellsFor, RowPayload, PartResponses, PartResponse;
    var parts := RowParts(c, fields, selectors, rows);
    var e := PartResponses(end).value;
    if rows == [] {
      assert parts + end == end && RowResponses(wire) + e == e;
    } else {
      var rest := RowParts(c, fields, selectors, rows[1..]) + end;
      RowPartsWrite(c, fields, selectors, rows[1..], wire[1..], end);
      var row := Row(CellsFor(c, fields, selectors, rows[0]));
      assert parts + end == [row] + rest;
      FirstPart(row, wire[0], rest);
      var first := Typed('D' as int, RowPayload(wire[0]));
      assert RowResponses(wire) == [first] + RowResponses(wire[1..]);
      assert ([first] + RowResponses(wire[1..])) + e == [first] + (RowResponses(wire[1..]) + e);
    }
  }

  lemma FirstPart(row: Part, fs: Fields, rest: seq<Part>)
    requires row.Row? && CellFields(row.cells) == Some(fs) && PartResponses(rest).Some?
    ensures PartResponses([row] + rest) == Some([Typed('D' as int, RowPayload(fs))] + PartResponses(rest).value)
  {
    hide CellFields, RowPayload;
    assert ([row] + rest)[1..] == rest;
  }

  /** The command tag "SELECT n". */
  function Tag(n: nat): Response {
    Typed('C' as int, Ascii("SELECT ") + Decimal(n) + [0])
  }

  lemma TagIs(n: nat)
    ensures SelectComplete(n) == Tag(n)
  {
    assert Ascii("SELECT ") == [83, 69, 76, 69, 67, 84, 32];
  }

  /** The messages of an answer, read one by one. */
  lemma MessagesReadBack(fields: seq<RowField>, wire: seq<Fields>, n: nat)
    requires |fields| < 0x8000 && forall k :: 0 <= k < |fields| ==> FieldFits(fields[k])
    requires forall k :: 0 <= k < |wire| ==> Readable(wire[k])
    ensures ReadMessages([Typed('T' as int, DescriptionPayload(fields))] + RowResponses(wire)
            + [Tag(n)]) ==
            Some(Answer(fields, wire, Tag(n).payload))
  {
    hide ReadDescription, DescriptionPayload, ReadRows, RowResponses, Readable, FieldFits;
    DescriptionReadsIff(fields);
    RowsReadBack(wire);
    var rows := RowResponses(wire);
    var rs := [Typed('T' as int, DescriptionPayload(fields))] + rows + [Tag(n)];
    assert rs[1..|rs| - 1] == rows;
  }

  /** The messages of an answer: description, rows, tag. */
  function AnswerMessages(fields: seq<RowField>, wire: seq<Fields>): seq<Response> {
    [Typed('T' as int, DescriptionPayload(fields))] + RowResponses(wire) + [Tag(|wire|)]
  }

  /** What is converted for selector i of a row can be written, and in a field of its width. */
  predicate Writable(c: Conversion, f: RowField, name: GoString, row: Content) {
    var cell := c.convert(f, if name in row then Some(row[name]) else None);
    cell.Some? ==> CellField(cell.value).Some? && FitsField(CellField(cell.value).value)
  }

  /** The parts made of a result set of n rows over m selectors write these messages, and the bytes of these messages
      read back as m columns, then the n rows in order, then the tag "SELECT n". What is read of row k are the
      conversions of its own values, selector by selector, nil standing in for a column it does not have; a value that
      does not convert is left out, so that the row is as long as its description exactly when all of them do. */
  lemma SelectReadsBack(c: Conversion, selectors: seq<GoString>, fields: seq<RowField>, rows: seq<Content>)
    returns (wire: seq<Fields>)
    requires FieldsFor(c, selectors) == Some(fields) && |fields| < 0x8000
    requires forall k :: 0 <= k < |fields| ==> FieldFits(fields[k])
    requires forall k, i :: 0 <= k < |rows| && 0 <= i < |selectors| ==> Writable(c, fields[i], selectors[i], rows[k])
    ensures PartResponses([Description(fields)] + RowParts(c, fields, selectors, rows) + [Complete(|rows|)])
            == Some(AnswerMessages(fields, wire))
    ensures (forall k :: 0 <= k < |wire| + 2 ==> FitsFrame(AnswerMessages(fields, wire)[k])) ==>
            ReadAnswer(Wire(AnswerMessages(fields, wire))) == Some(Answer(fields, wire, Tag(|rows|).payload))
    ensures |wire| == |rows| && forall k :: 0 <= k < |rows| ==> RowReadsBack(c, fields, selectors, rows[k], wire[k])
  {
    hide RowReadsBack, FieldsFor, FieldFits, CellFields, CellsFor, Converted, CellField, DescriptionPayload, RowPayload,
      FitsField, FitsFrame, Writable;
    wire := RowsAreReadable(c, fields, selectors, rows);
    var end := [Complete(|rows|)];
    Written(fields, RowParts(c, fields, selectors, rows), |rows|);
    RowPartsWrite(c, fields, selectors, rows, wire, end);
    var rs := AnswerMessages(fields, wire);
    assert rs == [Typed('T' as int, DescriptionPayload(fields))] + (RowResponses(wire) + [Tag(|rows|)]);
    hide PartResponses, RowParts, ReadMessages, Cut, Wire, Tag;
    TagTyped(|rows|);
    WireCutsIff(rs);
    MessagesReadBack(fields, wire, |rows|);
  }

  lemma TagTyped(n: nat)
    ensures Tag(n).Typed? && Tag(n).typ == 'C' as int
  {}

  /** What a client makes of one row. */
  ghost predicate RowReadsBack(c: Conversion, fields: seq<RowField>, selectors: seq<GoString>, row: Content,
      read: Fields)
    requires |fields| == |selectors|
  {
    && (|read| == |selectors| <==>
          forall i :: 0 <= i < |selectors| ==>
            c.convert(fields[i], if selectors[i] in row then Some(row[selectors[i]]) else None).Some?)
    && exists kept: seq<nat> ::
         && Kept(c, fields, selectors, row, kept) && |read| == |kept|
         && forall q :: 0 <= q < |kept| ==>
              var i := kept[q];
              var cell := c.convert(fields[i], if selectors[i] in row then Some(row[selectors[i]]) else None);
              cell.Some? && CellField(cell.value) == Some(read[q])
  }

  lemma RowsAreReadable(c: Conversion, fields: seq<RowField>, selectors: seq<GoString>, rows: seq<Content>)
    returns (wire: seq<Fields>)
    requires |fields| == |selectors| < 0x8000
    requires forall k, i :: 0 <= k < |rows| && 0 <= i < |selectors| ==> Writable(c, fields[i], selectors[i], rows[k])
    ensures Encoded(c, fields, selectors, rows, wire)
    ensures forall k :: 0 <= k < |wire| ==> Readable(wire[k])
    ensures forall k :: 0 <= k < |rows| ==> RowReadsBack(c, fields, selectors, rows[k], wire[k])
    decreases |rows|
  {
    hide CellFields, CellsFor, CellField, FitsField, Writable, RowReadsBack, Readable;
    if rows == [] {
      wire := [];
    } else {
      var first := RowIsReadable(c, fields, selectors, rows[0]);
      var rest := RowsAreReadable(c, fields, selectors, rows[1..]);
      wire := [first] + rest;
    }
  }

  lemma RowIsReadable(c: Conversion, fields: seq<RowField>, selectors: seq<GoString>, row: Content)
      returns (read: Fields)
    requires |fields| == |selectors| < 0x8000
    requires forall i :: 0 <= i < |selectors| ==> Writable(c, fields[i], selectors[i], row)
    ensures CellFields(CellsFor(c, fields, selectors, row)) == Some(read) && Readable(read)
    ensures RowReadsBack(c, fields, selectors, row, read)
  {
    hide CellFields, CellsFor, CellField, FitsField;
    var cells := CellsFor(c, fields, selectors, row);
    RowCompleteIff(c, fields, selectors, row);
    var kept := RowKeeps(c, fields, selectors, row);
    forall q | 0 <= q < |cells|
      ensures CellField(cells[q]).Some? && FitsField(CellField(cells[q]).value)
    {
      assert Writable(c, fields[kept[q]], selectors[kept[q]], row);
    }
    AllWrite(cells);
    CellFieldsAt(cells);
    read := CellFields(cells).value;
  }

  lemma {:induction false} AllWrite(cells: seq<Cell>)
    requires forall q :: 0 <= q < |cells| ==> CellField(cells[q]).Some?
    ensures CellFields(cells).Some?
    decreases |cells|
  {
    hide CellField;
    if cells != [] {
      AllWrite(cells[1..]);
    }
  }

  lemma {:induction false} CellFieldsAt(cells: seq<Cell>)
    requires CellFields(cells).Some?
    ensures |CellFields(cells).value| == |cells|
    ensures forall i :: 0 <= i < |cells| ==> CellField(cells[i]) == Some(CellFields(cells).value[i])
    decreases |cells|
  {
    hide CellField;
    if cells != [] {
      CellFieldsAt(cells[1..]);
    }
  }

  lemma Written(fields: seq<RowField>, parts: seq<Part>, n: nat)
    ensures PartResponses([Complete(n)]) == Some([Tag(n)])
    ensures PartResponses([Description(fields)] + parts + [Complete(n)]) ==
            match PartResponses(parts + [Complete(n)])
            case None => None
            case Some(rest) => Some([Typed('T' as int, DescriptionPayload(fields))] + rest)
  {
    hide DescriptionPayload, SelectComplete, Tag;
    TagIs(n);
    var all := [Description(fields)] + parts + [Complete(n)];
    assert all[1..] == parts + [Complete(n)];
    var end := [Complete(n)];
    assert end[1..] == [] && PartResponses(end[1..]) == Some([]) && PartResponse(end[0]) == Some(Tag(n));
    assert [Tag(n)] + [] == [Tag(n)];
  }
}
