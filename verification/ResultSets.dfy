/** From a result set to responses (postgresql/query/resultset.go, data_row.go, row_field.go). */
module ResultSets {
  import opened BigEndian
  import opened Errors
  import opened RowFormat
  import opened Values

  /** A column's wire type, if the schema knows the column. */
  datatype ColumnType = ColumnType(objectId: int, size: int, format: int)

  /** The schema and the value conversion of `AppendData`, which may refuse a value. */
  datatype Conversion = Conversion(
    lookup: GoString -> Option<ColumnType>,
    convert: (RowField, Option<Value>) -> Option<Cell>)

  /** `NewRowFieldFrom`: fields are numbered from 1, in an int16. */
  function FieldFor(c: Conversion, name: GoString, idx: nat): Option<RowField> {
    match c.lookup(name)
    case None => None
    case Some(t) => Some(RowField(name, 0, Wrap16(idx + 1), t.objectId, Wrap16(t.size), 0, t.format))
  }

  /** The fields of a row description, or None if the schema misses a selector. */
  function FieldsFor(c: Conversion, selectors: seq<GoString>): (fs: Option<seq<RowField>>)
    ensures fs.Some? <==> forall k :: 0 <= k < |selectors| ==> c.lookup(selectors[k]).Some?
    ensures fs.Some? ==> |fs.value| == |selectors|
    ensures fs.Some? ==> forall k :: 0 <= k < |selectors| ==> FieldFor(c, selectors[k], k) == Some(fs.value[k])
    decreases |selectors|
  {
    if selectors == [] then Some([])
    else
      var n := |selectors| - 1;
      var before := FieldsFor(c, selectors[..n]);
      if before.None? || c.lookup(selectors[n]).None? then None
      else Some(before.value + [FieldFor(c, selectors[n], n).value])
  }

  /** The conversion of selector k's value; a column the row does not have is converted from nil. */
  function Converted(c: Conversion, f: RowField, name: GoString, row: Content): Option<Cell> {
    c.convert(f, if name in row then Some(row[name]) else None)
  }

  /** `NewDataRowForSelectors`: a value that does not convert is left out, because append errors are ignored. */
  function CellsFor(c: Conversion, fields: seq<RowField>, selectors: seq<GoString>, row: Content): (cells: seq<Cell>)
    requires |fields| == |selectors|
    ensures |cells| <= |selectors|
    decreases |selectors|
  {
    if selectors == [] then []
    else
      var n := |selectors| - 1;
      var cell := Converted(c, fields[n], selectors[n], row);
      CellsFor(c, fields[..n], selectors[..n], row) + if cell.Some? then [cell.value] else []
  }

  /** `kept` numbers, in order, the selectors whose value converts: the row's own value where it has the column, nil
      where it has not. */
  predicate Kept(c: Conversion, fields: seq<RowField>, selectors: seq<GoString>, row: Content, kept: seq<nat>)
    requires |fields| == |selectors|
  {
    && (forall p, q :: 0 <= p < q < |kept| ==> kept[p] < kept[q])
    && (forall q :: 0 <= q < |kept| ==>
          var k := kept[q];
          k < |selectors| && c.convert(fields[k], if selectors[k] in row then Some(row[selectors[k]]) else None).Some?)
    && forall k :: 0 <= k < |selectors| ==>
         c.convert(fields[k], if selectors[k] in row then Some(row[selectors[k]]) else None).Some? ==> k in kept
  }

  /** The conversion of selector k's value. */
  predicate IsCell(c: Conversion, fields: seq<RowField>, selectors: seq<GoString>, row: Content, k: nat, cell: Cell) {
    && k < |selectors| && k < |fields|
    && c.convert(fields[k], if selectors[k] in row then Some(row[selectors[k]]) else None) == Some(cell)
  }

  /** A row's cells are the conversions of exactly those values, in order. */
  lemma {:induction false} RowKeeps(c: Conversion, fields: seq<RowField>, selectors: seq<GoString>, row: Content)
    returns (kept: seq<nat>)
    requires |fields| == |selectors|
    ensures Kept(c, fields, selectors, row, kept) && |CellsFor(c, fields, selectors, row)| == |kept|
    ensures forall q :: 0 <= q < |kept| ==>
              IsCell(c, fields, selectors, row, kept[q], CellsFor(c, fields, selectors, row)[q])
    decreases |selectors|
  {
    hide CellsFor;
    if selectors == [] {
      kept := [];
      NoCells(c, fields, selectors, row);
    } else {
      var n := |selectors| - 1;
      var before := RowKeeps(c, fields[..n], selectors[..n], row);
      kept := before + if Converted(c, fields[n], selectors[n], row).Some? then [n] else [];
      CellsLast(c, fields, selectors, row);
      KeptLast(c, fields, selectors, row, before, kept);
      hide Kept, Converted;
      forall q | 0 <= q < |kept|
        ensures IsCell(c, fields, selectors, row, kept[q], CellsFor(c, fields, selectors, row)[q])
      {
        if q < |before| {
          assert IsCell(c, fields[..n], selectors[..n], row, before[q],
                 CellsFor(c, fields[..n], selectors[..n], row)[q]);
        } else {
          LastCell(c, fields, selectors, row);
        }
      }
    }
  }

  lemma LastCell(c: Conversion, fields: seq<RowField>, selectors: seq<GoString>, row: Content)
    requires |fields| == |selectors| > 0
    ensures var cell := Converted(c, fields[|selectors| - 1], selectors[|selectors| - 1], row);
      cell.Some? ==> IsCell(c, fields, selectors, row, |selectors| - 1, cell.value)
  {}

  lemma NoCells(c: Conversion, fields: seq<RowField>, selectors: seq<GoString>, row: Content)
    requires selectors == [] && |fields| == |selectors|
    ensures CellsFor(c, fields, selectors, row) == []
  {}

  lemma KeptLast(c: Conversion, fields: seq<RowField>, selectors: seq<GoString>, row: Content, before: seq<nat>,
      kept: seq<nat>)
    requires |fields| == |selectors| > 0
    requires var n := |selectors| - 1;
      && Kept(c, fields[..n], selectors[..n], row, before)
      && kept == before + if Converted(c, fields[n], selectors[n], row).Some? then [n] else []
    ensures Kept(c, fields, selectors, row, kept)
  {
    var n := |selectors| - 1;
    assert forall k :: 0 <= k < n ==> fields[..n][k] == fields[k] && selectors[..n][k] == selectors[k];
    forall k | 0 <= k < n && c.convert(fields[k], if selectors[k] in row then Some(row[selectors[k]]) else None).Some?
      ensures k in kept
    {
      assert k in before;
    }
  }

  lemma CellsLast(c: Conversion, fields: seq<RowField>, selectors: seq<GoString>, row: Content)
    requires |fields| == |selectors| > 0
    ensures var n := |selectors| - 1;
      var cell := Converted(c, fields[n], selectors[n], row);
      CellsFor(c, fields, selectors, row) ==
      CellsFor(c, fields[..n], selectors[..n], row) + if cell.Some? then [cell.value] else []
  {}

  /** A row has one column per selector, in order, exactly when every value converts; otherwise it is shorter than its
      description. */
  lemma {:induction false} RowCompleteIff(c: Conversion, fields: seq<RowField>, selectors: seq<GoString>, row: Content)
    requires |fields| == |selectors|
    ensures var cells := CellsFor(c, fields, selectors, row);
      && (|cells| == |selectors| <==>
            forall k :: 0 <= k < |selectors| ==>
              c.convert(fields[k], if selectors[k] in row then Some(row[selectors[k]]) else None).Some?)
      && (|cells| == |selectors| ==>
            forall k :: 0 <= k < |selectors| ==>
              c.convert(fields[k], if selectors[k] in row then Some(row[selectors[k]]) else None) == Some(cells[k]))
    decreases |selectors|
  {
    if selectors != [] {
      var n := |selectors| - 1;
      RowCompleteIff(c, fields[..n], selectors[..n], row);
      CellsLast(c, fields, selectors, row);
      hide CellsFor;
      assert forall k :: 0 <= k < n ==> fields[..n][k] == fields[k] && selectors[..n][k] == selectors[k];
      var last := c.convert(fields[n], if selectors[n] in row then Some(row[selectors[n]]) else None);
      assert last == Converted(c, fields[n], selectors[n], row);
      assert (forall k :: 0 <= k < |selectors| ==>
                c.convert(fields[k], if selectors[k] in row then Some(row[selectors[k]]) else None).Some?) <==>
             last.Some? && forall k :: 0 <= k < n ==>
               c.convert(fields[..n][k], if selectors[..n][k] in row then Some(row[selectors[..n][k]]) else None).Some?;
    }
  }

  /** What `NewResponseFromResultSet` lists: the description, the rows, "SELECT n". */
  datatype Part = Description(fields: seq<RowField>) | Row(cells: seq<Cell>) | Complete(rows: nat)

  function RowParts(c: Conversion, fields: seq<RowField>, selectors: seq<GoString>,
      rows: seq<Content>): (parts: seq<Part>)
    requires |fields| == |selectors|
    ensures |parts| == |rows|
  {
    seq(|rows|, k requires 0 <= k < |rows| => Row(CellsFor(c, fields, selectors, rows[k])))
  }

  /** The cursor over a result set; a row may fail to be delivered. */
  class ResultSet {
    const rows: seq<Option<Content>>
    var pos: nat

    constructor (rows: seq<Option<Content>>)
      ensures this.rows == rows && pos == 0
    {
      this.rows, pos := rows, 0;
    }

    method Next() returns (more: bool)
      modifies this
      ensures more == (old(pos) < |rows|) && pos == old(pos) + if more then 1 else 0
    {
      more := pos < |rows|;
      if more {
        pos := pos + 1;
      }
    }

    method Row() returns (r: Result<Content>)
      requires 0 < pos <= |rows|
      ensures r == if rows[pos - 1].Some? then Success(rows[pos - 1].value) else Failure(RowFetch)
    {
      if rows[pos - 1].None? {
        return Failure(RowFetch);
      }
      return Success(rows[pos - 1].value);
    }
  }

  method NewDataRowForSelectors(c: Conversion, fields: seq<RowField>, selectors: seq<GoString>, row: Content)
      returns (cells: seq<Cell>)
    requires |fields| == |selectors|
    ensures cells == CellsFor(c, fields, selectors, row)
  {
    cells := [];
    for n := 0 to |selectors|
      invariant cells == CellsFor(c, fields[..n], selectors[..n], row)
    {
      assert fields[..n + 1][..n] == fields[..n] && selectors[..n + 1][..n] == selectors[..n];
      var name := selectors[n];
      var v := if name in row then Some(row[name]) else None;
      var cell := c.convert(fields[n], v);
      if cell.Some? {
        cells := cells + [cell.value];
      }
    }
    assert fields[..|selectors|] == fields && selectors[..|selectors|] == selectors;
  }

  /** The fetched rows before the first that fails. */
  function Fetched(rows: seq<Option<Content>>): seq<Content> {
    if rows == [] || rows[0].None? then [] else [rows[0].value] + Fetched(rows[1..])
  }

  lemma FetchedAll(rows: seq<Option<Content>>, n: nat)
    requires n <= |rows| && forall k :: 0 <= k < n ==> rows[k].Some?
    ensures |Fetched(rows[..n])| == n && forall k :: 0 <= k < n ==> Fetched(rows[..n])[k] == rows[k].value
    decreases n
  {
    if n > 0 {
      FetchedAll(rows[1..], n - 1);
      assert rows[..n][1..] == rows[1..][..n - 1];
    }
  }

  lemma RowPartsNext(c: Conversion, fields: seq<RowField>, selectors: seq<GoString>, rows: seq<Option<Content>>, n: nat)
    requires |fields| == |selectors| && n < |rows| && forall k :: 0 <= k <= n ==> rows[k].Some?
    ensures RowParts(c, fields, selectors, Fetched(rows[..n + 1]))
         == RowParts(c, fields, selectors, Fetched(rows[..n])) + [Row(CellsFor(c, fields, selectors, rows[n].value))]
  {
    hide CellsFor;
    FetchedAll(rows, n);
    FetchedAll(rows, n + 1);
  }

  method NewRowDescription(c: Conversion, selectors: seq<GoString>) returns (r: Result<seq<RowField>>)
    ensures r == if FieldsFor(c, selectors).None? then Failure(SchemaLookup) else Success(FieldsFor(c, selectors).value)
  {
    var fields: seq<RowField> := [];
    for n := 0 to |selectors|
      invariant FieldsFor(c, selectors[..n]) == Some(fields)
    {
      assert selectors[..n + 1][..n] == selectors[..n];
      var field := FieldFor(c, selectors[n], n);
      if field.None? {
        return Failure(SchemaLookup);
      }
      fields := fields + [field.value];
    }
    assert selectors[..|selectors|] == selectors;
    return Success(fields);
  }

  /** A result set of n rows over m known selectors becomes one description of m fields, then the n rows in order, then
      "SELECT n"; an unknown selector or an undelivered row is an error instead. */
  method NewResponseFromResultSet(c: Conversion, selectors: seq<GoString>, rs: ResultSet) returns (r: Result<seq<Part>>)
    requires rs.pos == 0
    modifies rs
    ensures FieldsFor(c, selectors).None? ==> r == Failure(SchemaLookup)
    ensures FieldsFor(c, selectors).Some? && (exists k :: 0 <= k < |rs.rows| && rs.rows[k].None?) ==>
            r == Failure(RowFetch)
    ensures FieldsFor(c, selectors).Some? && (forall k :: 0 <= k < |rs.rows| ==> rs.rows[k].Some?) ==>
              var fields := FieldsFor(c, selectors).value;
              r == Success([Description(fields)] + RowParts(c, fields, selectors, Fetched(rs.rows))
                  + [Complete(|rs.rows|)])
  {
    var fields :- NewRowDescription(c, selectors);
    hide FieldsFor, CellsFor, RowParts, Fetched;
    var parts: seq<Part> := [];
    assert RowParts(c, fields, selectors, Fetched(rs.rows[..0])) == [] by { FetchedAll(rs.rows, 0); }
    var nRows: nat := 0;
    var more := rs.Next();
    while more
      invariant nRows <= |rs.rows| && rs.pos == (if more then nRows + 1 else nRows)
      invariant more ==> nRows < |rs.rows|
      invariant !more ==> nRows == |rs.rows|
      invariant forall k :: 0 <= k < nRows ==> rs.rows[k].Some?
      invariant parts == RowParts(c, fields, selectors, Fetched(rs.rows[..nRows]))
      decreases |rs.rows| - nRows
    {
      var row := rs.Row();
      if row.Failure? {
        return Failure(RowFetch);
      }
      var dataRow := NewDataRowForSelectors(c, fields, selectors, row.value);
      RowPartsNext(c, fields, selectors, rs.rows, nRows);
      parts := parts + [Row(dataRow)];
      nRows := nRows + 1;
      more := rs.Next();
    }
    assert rs.rows[..|rs.rows|] == rs.rows;
    return Success([Description(fields)] + parts + [Complete(nRows)]);
  }

  /** Each field has its selector's name, the type the schema gives the column, and no table; they are numbered 1, 2,
      ... as long as that fits an int16. */
  lemma FieldsDescribe(c: Conversion, selectors: seq<GoString>)
    requires FieldsFor(c, selectors).Some?
    ensures forall k :: 0 <= k < |selectors| ==>
              var f, t := FieldsFor(c, selectors).value[k], c.lookup(selectors[k]);
              && f.name == selectors[k] && (f.number == k + 1 <==> k < 0x7FFF)
              && t.Some? && f.objectId == t.value.objectId && f.format == t.value.format
              && (IsInt16(t.value.size) ==> f.size == t.value.size) && f.tableId == 0 && f.modifier == 0
  {
    hide FieldsFor;
    forall k | 0 <= k < |selectors|
      ensures FieldFor(c, selectors[k], k) == Some(FieldsFor(c, selectors).value[k])
    {}
  }
}
