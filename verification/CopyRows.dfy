/** From the bytes of COPY data to the rows an executor is given: which lines become rows, and which field goes to which
    column. */
module CopyRows {
  import opened BigEndian
  import opened ConversationLaws
  import opened CopyFrames
  import opened CopyLaws
  import opened CopyStatements
  import opened Errors
  import opened Session
  import F = Frontend

  /** `fields` are the payload's line, without the CRs and LFs at its end, cut at every tab. */
  predicate IsCut(payload: Bytes, fields: seq<GoString>) {
    && fields != [] && (forall k :: 0 <= k < |fields| ==> '\t' as int !in fields[k])
    && IsText(payload, Join(fields))
  }

  /** `text` is the payload without the CRs and LFs at its end. */
  predicate IsText(payload: Bytes, text: Bytes) {
    && text <= payload
    && (forall k :: |text| <= k < |payload| ==> payload[k] == '\r' as int || payload[k] == '\n' as int)
    && (text != [] ==> text[|text| - 1] != '\r' as int && text[|text| - 1] != '\n' as int)
  }

  /** Nothing, or only backslashes and dots: the end of the data. */
  predicate Ends(text: Bytes) {
    forall k :: 0 <= k < |text| ==> text[k] == '\\' as int || text[k] == '.' as int
  }

  predicate IsData(m: F.Message) { m.Other? && m.t == 'd' as int }

  /** The lines of the messages: the payloads of the CopyData in front, cut, up to the first that ends the data. */
  ghost predicate CutsOf(ms: seq<F.Message>, cuts: seq<seq<GoString>>) {
    && |cuts| <= |ms|
    && (forall i :: 0 <= i < |cuts| ==> IsData(ms[i]) && IsCut(ms[i].payload, cuts[i]) && !Ends(Join(cuts[i])))
    && (|cuts| < |ms| && IsData(ms[|cuts|]) ==> exists text :: IsText(ms[|cuts|].payload, text) && Ends(text))
  }

  lemma TrimIsText(payload: Bytes)
    ensures IsText(payload, TrimRight(payload)) && (IsEndMarker(TrimRight(payload)) <==> Ends(TrimRight(payload)))
  {
    TrimIsMaximal(payload);
  }

  lemma SplitIsCut(payload: Bytes)
    ensures IsCut(payload, Split(TrimRight(payload))) && Join(Split(TrimRight(payload))) == TrimRight(payload)
  {
    SplitFields(TrimRight(payload));
    SplitJoin(TrimRight(payload));
    TrimIsText(payload);
  }

  lemma CutsFirst(ms: seq<F.Message>, fields: seq<GoString>, rest: seq<seq<GoString>>)
    requires ms != [] && IsData(ms[0]) && IsCut(ms[0].payload, fields) && !Ends(Join(fields)) && CutsOf(ms[1..], rest)
    ensures CutsOf(ms, [fields] + rest)
  {
    hide IsCut, IsText, Ends, Join, IsData;
    var cuts := [fields] + rest;
    assert forall i :: 0 <= i < |ms| - 1 ==> ms[1..][i] == ms[i + 1];
    assert forall i :: 1 <= i < |cuts| ==> cuts[i] == rest[i - 1];
  }

  lemma NoCuts(ms: seq<F.Message>)
    requires !AtLine(ms)
    ensures CutsOf(ms, [])
  {
    hide TrimRight, IsEndMarker, IsText, Ends;
    if ms != [] && IsData(ms[0]) {
      TrimIsText(ms[0].payload);
    }
  }

  lemma {:induction false} LinesAreCuts(ms: seq<F.Message>)
    ensures CutsOf(ms, Lines(ms))
    decreases |ms|
  {
    hide Split, TrimRight, IsEndMarker, IsCut, IsText, Ends, Join, CutsOf;
    if AtLine(ms) {
      SplitIsCut(ms[0].payload);
      TrimIsText(ms[0].payload);
      LinesAreCuts(ms[1..]);
      CutsFirst(ms, Split(TrimRight(ms[0].payload)), Lines(ms[1..]));
    } else {
      NoCuts(ms);
    }
  }

  /** The row of a line: one entry for each column, in order, with the line's field of the same number, or NULL exactly
      where that is empty. */
  predicate IsRow(columns: seq<GoString>, fields: seq<GoString>, row: CopiedRow) {
    && |fields| == |columns| == |row|
    && forall j :: 0 <= j < |columns| ==>
         row[j].0 == columns[j] && row[j].1 == if fields[j] == [] then Ascii("NULL") else fields[j]
  }

  /** `wide` numbers the lines of the right width, in order. */
  predicate Numbers(columns: seq<GoString>, cuts: seq<seq<GoString>>, wide: seq<nat>) {
    && (forall q :: 0 <= q < |wide| ==> wide[q] < |cuts| && |cuts[wide[q]]| == |columns|)
    && (forall p, q :: 0 <= p < q < |wide| ==> wide[p] < wide[q])
    && forall i :: 0 <= i < |cuts| && |cuts[i]| == |columns| ==> i in wide
  }

  lemma CopiedIsRow(columns: seq<GoString>, fields: seq<GoString>)
    requires |columns| == |fields|
    ensures IsRow(columns, fields, CopiedColumns(columns, fields))
  {
    assert Ascii("NULL") == [78, 85, 76, 76];
  }

  lemma {:induction false} InsertsAreRows(s: Stmt, columns: seq<GoString>, lines: seq<seq<GoString>>)
      returns (wide: seq<nat>)
    ensures Numbers(columns, lines, wide) && |Inserts(s, columns, lines)| == |wide|
    ensures forall q :: 0 <= q < |wide| ==>
              var c := Inserts(s, columns, lines)[q];
              c.InsertCopied? && c.stmt == s && IsRow(columns, lines[wide[q]], c.row)
    decreases |lines|
  {
    hide IsRow, CopiedColumns;
    if lines == [] {
      wide := [];
    } else {
      var n := |lines| - 1;
      var before := InsertsAreRows(s, columns, lines[..n]);
      InsertsLast(s, columns, lines[..n], lines[n]);
      assert lines == lines[..n] + [lines[n]];
      if |lines[n]| == |columns| {
        CopiedIsRow(columns, lines[n]);
        wide := before + [n];
      } else {
        wide := before;
      }
    }
  }

  lemma InsertsFirst(s: Stmt, columns: seq<GoString>, line: seq<GoString>, lines: seq<seq<GoString>>)
    ensures Inserts(s, columns, [line] + lines) ==
            (if |line| == |columns| then [InsertCopied(s, CopiedColumns(columns, line))] else [])
            + Inserts(s, columns, lines)
  {
    hide CopiedColumns;
    assert ([line] + lines)[1..] == lines;
  }

  lemma InsertsNone(s: Stmt, columns: seq<GoString>)
    ensures Inserts(s, columns, []) == []
  {}

  lemma {:induction false} InsertsLast(s: Stmt, columns: seq<GoString>, lines: seq<seq<GoString>>, line: seq<GoString>)
    ensures Inserts(s, columns, lines + [line]) == Inserts(s, columns, lines) +
            if |line| == |columns| then [InsertCopied(s, CopiedColumns(columns, line))] else []
    decreases |lines|
  {
    hide CopiedColumns, Inserts;
    InsertsNone(s, columns);
    if lines == [] {
      InsertsFirst(s, columns, line, []);
      assert lines + [line] == [line] + [];
    } else {
      InsertsLast(s, columns, lines[1..], line);
      InsertsFirst(s, columns, lines[0], lines[1..]);
      InsertsFirst(s, columns, lines[0], lines[1..] + [line]);
      assert lines == [lines[0]] + lines[1..] && lines + [line] == [lines[0]] + (lines[1..] + [line]);
    }
  }

  /** The whole COPY statement, from the bytes of its data to the executor's calls: the COPY itself, and then one row
      for each line that has as many fields as there are columns, in order, each field in its own column. */
  lemma RowsAreInserted(env: Env, st: State, s: Stmt, all: seq<GoString>, ms: seq<F.Message>, seen: bool, tail: Bytes)
    returns (r: Reply, cuts: seq<seq<GoString>>, wide: seq<nat>)
    requires s.Copy? && CopyBegins(env, st, s) && Before(st.input, ms, seen, tail) && ms != [] && IsData(ms[0])
    requires env.schema(st.calls + [StartCopy(s)], s) == Success(all)
    ensures r == StatementStep(env, st, s)
    ensures CutsOf(ms, cuts) && Numbers(if s.columns == [] then all else s.columns, cuts, wide)
    ensures st.calls + [StartCopy(s)] <= r.state.calls && |r.state.calls| == |st.calls| + 1 + |wide|
    ensures forall q :: 0 <= q < |wide| ==>
              var c := r.state.calls[|st.calls| + 1 + q];
              && c.InsertCopied? && c.stmt == s
              && IsRow(if s.columns == [] then all else s.columns, cuts[wide[q]], c.row)
  {
    hide *;
    DataIsCopyData(ms);
    var calls, cs, n;
    r, calls, cs, n := CopyStatementRuns(env, st, s, all, ms, seen, tail);
    cuts := Lines(ms);
    LinesAreCuts(ms);
    wide := InsertsAreRows(s, if s.columns == [] then all else s.columns, cuts);
    NumbersFit(if s.columns == [] then all else s.columns, cuts, wide);
  }

  lemma DataIsCopyData(ms: seq<F.Message>)
    requires ms != [] && IsData(ms[0])
    ensures IsCopyData(ms)
  {}

  lemma NumbersFit(columns: seq<GoString>, cuts: seq<seq<GoString>>, wide: seq<nat>)
    requires Numbers(columns, cuts, wide)
    ensures forall q :: 0 <= q < |wide| ==> wide[q] < |cuts|
  {}
}
