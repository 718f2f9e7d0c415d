/** The in-memory table: a slice of rows (examples/go-postgresqld/server/store/table.go). */
module Store {
  import opened BigEndian
  import opened Values
  import opened SliceShift
  import opened DeleteLaws
  import DeleteAll
  import opened StoreRow

  /** What `Table.Select` returns: a list of its own, or the table's own slice header. */
  datatype Selection = Own(rows: seq<Row>) | Shared(back: array<Row?>, len: nat)

  ghost function ContentsOf(rows: seq<Row?>): map<Row?, Content>
    reads rows
  {
    map r | r in rows && r != null :: r.cols
  }

  function KeyIn(m: map<Row?, Content>): Row? -> Option<Content> {
    r => if r in m then RowKey(m[r]) else None
  }

  function MatchesIn(m: map<Row?, Content>, cond: Condition): Row? -> bool {
    r => r in m && Matched(m[r], cond)
  }

  /** The contents of a list of rows. */
  ghost function Held(rows: seq<Row?>): (s: seq<Content>)
    requires null !in rows
    reads rows
    ensures |s| == |rows|
  {
    if rows == [] then [] else Held(rows[..|rows| - 1]) + [rows[|rows| - 1].cols]
  }

  lemma InsertedNothing(schema: Schema)
    ensures Inserted(schema, []) == []
  {}

  lemma InsertedStep(schema: Schema, values: seq<seq<Column>>)
    requires values != []
    ensures Inserted(schema, values) ==
            match NewContent(schema, values[0])
            case None => []
            case Some(c) => [c] + Inserted(schema, values[1..])
  {}

  lemma HeldAppend(rows: seq<Row?>, row: Row)
    requires null !in rows
    ensures Held(rows + [row]) == Held(rows) + [row.cols]
  {
    assert (rows + [row])[..|rows|] == rows;
  }

  /** The rows a DELETE has to leave: those the condition does not match, and those that do not equal themselves. */
  ghost function Unmatched(rows: seq<Row?>, cond: Condition): (s: seq<Row?>)
    requires null !in rows
    reads rows
  {
    if rows == [] then []
    else (if rows[0].IsMatched(cond) && rows[0].IsEqual(rows[0]) then [] else [rows[0]]) + Unmatched(rows[1..], cond)
  }

  /** What n passes of a DELETE without a condition leave of pairwise unequal rows: a row that equals itself goes and
      the one behind it is passed over, unless that is the last and there is one more pass; a row that does not equal
      itself stays. */
  ghost function PassedOver(rows: seq<Row?>, n: nat): (s: seq<Row?>)
    requires null !in rows
    reads rows
  {
    if rows == [] || n == 0 then rows
    else if !rows[0].IsEqual(rows[0]) then [rows[0]] + PassedOver(rows[1..], n - 1)
    else if |rows| == 1 || (|rows| == 2 && n > 1 && rows[1].IsEqual(rows[1])) then []
    else [rows[1]] + PassedOver(rows[2..], n - 1)
  }

  ghost predicate NoTwoEqual(rows: seq<Row?>)
    requires null !in rows
    reads rows
  {
    forall i, j :: 0 <= i < j < |rows| ==> !rows[j].IsEqual(rows[i])
  }

  lemma {:induction false} PassedOverIsSurvivors(rows: seq<Row?>, n: nat, m: map<Row?, Content>)
    requires null !in rows && forall r: Row? :: r in rows ==> r in m && m[r] == r.cols
    ensures PassedOver(rows, n) == DeleteAll.Survivors(rows, n, KeyIn(m))
    decreases |rows|
  {
    if rows != [] && n > 0 {
      assert rows[0] in rows;
      SameRowIsKey(rows[0].cols, rows[0].cols);
      PassedOverIsSurvivors(rows[1..], n - 1, m);
      if |rows| > 1 {
        assert rows[1] in rows;
        SameRowIsKey(rows[1].cols, rows[1].cols);
        PassedOverIsSurvivors(rows[2..], n - 1, m);
      }
    }
  }

  lemma NoTwoEqualIsUnequal(rows: seq<Row?>, m: map<Row?, Content>)
    requires null !in rows && forall r: Row? :: r in rows ==> r in m && m[r] == r.cols
    ensures NoTwoEqual(rows) <==> Unequal(rows, KeyIn(m))
  {
    forall i, j | 0 <= i < j < |rows|
      ensures rows[j].IsEqual(rows[i]) <==> Hits(KeyIn(m), KeyIn(m)(rows[j]), rows[i])
    {
      assert rows[i] in rows && rows[j] in rows;
      SameRowIsKey(rows[j].cols, rows[i].cols);
    }
  }

  /** The last row matches, and a row before it equals it. */
  ghost predicate LastRowRepeats(rows: seq<Row?>, cond: Condition)
    requires null !in rows
    reads rows
  {
    && rows != [] && rows[|rows| - 1].IsMatched(cond)
    && exists j :: 0 <= j < |rows| - 1 && rows[|rows| - 1].IsEqual(rows[j])
  }

  lemma {:induction false} UnmatchedIsKeep(rows: seq<Row?>, m: map<Row?, Content>, cond: Condition)
    requires null !in rows && forall r: Row? :: r in rows ==> r in m && m[r] == r.cols
    ensures Unmatched(rows, cond) == Keep(rows, MatchesIn(m, cond), KeyIn(m))
    decreases |rows|
  {
    if rows != [] {
      UnmatchedIsKeep(rows[1..], m, cond);
      assert rows[0] in rows;
      SameRowIsKey(rows[0].cols, rows[0].cols);
    }
  }

  lemma LastRowRepeatsIff(rows: seq<Row?>, m: map<Row?, Content>, cond: Condition)
    requires null !in rows && forall r: Row? :: r in rows ==> r in m && m[r] == r.cols
    ensures LastRowRepeats(rows, cond) <==>
            && rows != [] && MatchesIn(m, cond)(rows[|rows| - 1])
            && LastRepeats(rows, KeyIn(m), KeyIn(m)(rows[|rows| - 1]))
  {
    if rows != [] {
      var last := rows[|rows| - 1];
      assert last in rows;
      forall j | 0 <= j < |rows|
        ensures rows[j] in rows && (last.IsEqual(rows[j]) <==> Hits(KeyIn(m), KeyIn(m)(last), rows[j]))
      {
        assert rows[j] in rows;
        SameRowIsKey(last.cols, rows[j].cols);
      }
      hide SameRow, RowKey;
      if LastRowRepeats(rows, cond) {
        var j :| 0 <= j < |rows| - 1 && last.IsEqual(rows[j]);
        assert Hits(KeyIn(m), KeyIn(m)(last), rows[j]);
      }
    }
  }

  /** A row that equals itself. */
  ghost predicate Whole(r: Row)
    reads r
  {
    forall k :: k in r.cols ==> r.cols[k] != NotANumber
  }

  lemma {:induction false} UnmatchedMembers(rows: seq<Row?>, cond: Condition)
    requires null !in rows
    ensures forall r: Row? :: r in Unmatched(rows, cond) <==> r in rows && !(Matched(r.cols, cond) && Whole(r))
    ensures InOrder(Unmatched(rows, cond), rows)
    decreases |rows|
  {
    hide Matched;
    if rows != [] {
      UnmatchedMembers(rows[1..], cond);
      assert rows == [rows[0]] + rows[1..];
      SameRowMeans(rows[0].cols, rows[0].cols);
      var t := Unmatched(rows[1..], cond);
      InOrderBehind(t, rows[0], rows[1..]);
    }
  }

  lemma {:induction false} AllUnmatched(rows: seq<Row?>, cond: Condition)
    requires null !in rows && forall r: Row? :: r in rows ==> !Matched(r.cols, cond)
    ensures Unmatched(rows, cond) == rows
    decreases |rows|
  {
    if rows != [] {
      assert rows[0] in rows;
      AllUnmatched(rows[1..], cond);
    }
  }

  /** `x` stands before `y` in `s`. */
  predicate Earlier<T(==)>(s: seq<T>, x: T, y: T) {
    exists p, q :: 0 <= p < q < |s| && s[p] == x && s[q] == y
  }

  /** `t` lists elements of `s` in the order in which they stand there. */
  predicate InOrder<T(==)>(t: seq<T>, s: seq<T>) {
    && (forall i :: 0 <= i < |t| ==> t[i] in s)
    && forall i, j :: 0 <= i < j < |t| ==> Earlier(s, t[i], t[j])
  }

  lemma EarlierBehind<T>(s: seq<T>, x: T, y: T, z: T)
    ensures Earlier(s, y, z) ==> Earlier([x] + s, y, z)
    ensures z in s ==> Earlier([x] + s, x, z)
  {
    if Earlier(s, y, z) {
      var p, q :| 0 <= p < q < |s| && s[p] == y && s[q] == z;
      assert ([x] + s)[p + 1] == y && ([x] + s)[q + 1] == z;
    }
    if z in s {
      var q :| 0 <= q < |s| && s[q] == z;
      assert ([x] + s)[0] == x && ([x] + s)[q + 1] == z;
    }
  }

  lemma InOrderBehind<T>(t: seq<T>, x: T, s: seq<T>)
    requires InOrder(t, s)
    ensures InOrder(t, [x] + s) && InOrder([x] + t, [x] + s)
  {
    hide Earlier;
    forall i, j | 0 <= i < j < |t|
      ensures Earlier([x] + s, t[i], t[j])
    {
      EarlierBehind(s, x, t[i], t[j]);
    }
    var u := [x] + t;
    forall i, j | 0 <= i < j < |u|
      ensures Earlier([x] + s, u[i], u[j])
    {
      assert u[j] == t[j - 1] && (i > 0 ==> u[i] == t[i - 1]);
      EarlierBehind(s, x, u[i], u[j]);
    }
  }

  lemma {:induction false} SelectedInOrder<T>(s: seq<T>, matches: T -> bool)
    ensures InOrder(Selected(s, matches), s)
    decreases |s|
  {
    if s != [] {
      SelectedInOrder(s[1..], matches);
      assert s == [s[0]] + s[1..];
      InOrderBehind(Selected(s[1..], matches), s[0], s[1..]);
    }
  }

  /** `left` is what is left of the rows without those that hold such a value in the column and equal themselves. */
  ghost predicate LosesHolders(left: seq<Row?>, rows: seq<Row?>, column: GoString, same: Value -> bool)
    requires null !in rows
    reads rows
  {
    && InOrder(left, rows)
    && forall i :: 0 <= i < |rows| ==>
         (rows[i] in left <==> !(column in rows[i].cols && same(rows[i].cols[column]) && Whole(rows[i])))
  }

  /** `left` is what is left of the rows without the others that equal themselves. */
  ghost predicate KeepsHolders(left: seq<Row?>, rows: seq<Row?>, column: GoString, same: Value -> bool)
    requires null !in rows
    reads rows
  {
    && InOrder(left, rows)
    && forall i :: 0 <= i < |rows| ==>
         (rows[i] in left <==> (column in rows[i].cols && same(rows[i].cols[column])) || !Whole(rows[i]))
  }

  /** `left` is what is left of the rows without any that equal themselves. */
  ghost predicate KeepsUnequal(left: seq<Row?>, rows: seq<Row?>)
    requires null !in rows
    reads rows
  {
    InOrder(left, rows) && forall i :: 0 <= i < |rows| ==> (rows[i] in left <==> !Whole(rows[i]))
  }

  /** The last row equals itself and a row before it holds the same. */
  ghost predicate LastHasTwin(rows: seq<Row?>)
    requires null !in rows
    reads rows
  {
    rows != [] && Whole(rows[|rows| - 1]) && exists j :: 0 <= j < |rows| - 1 && rows[j].cols == rows[|rows| - 1].cols
  }

  lemma LastRowRepeatsMeans(rows: seq<Row?>, cond: Condition)
    requires null !in rows
    ensures LastRowRepeats(rows, cond) <==> LastHasTwin(rows) && Matched(rows[|rows| - 1].cols, cond)
  {
    hide Matched;
    if rows != [] {
      var last := rows[|rows| - 1];
      forall j | 0 <= j < |rows| - 1
        ensures last.IsEqual(rows[j]) <==> rows[j].cols == last.cols && Whole(last)
      {
        SameRowMeans(last.cols, rows[j].cols);
      }
      hide SameRow;
    }
  }

  /** What DELETE leaves of a slice: it ranges over a list of its own, or without a condition over the slice itself. */
  ghost function Outcome(back: seq<Row?>, len: nat, cond: Condition): (r: Slice<Row?>)
    requires len <= |back|
    reads back
  {
    var m := ContentsOf(back);
    if cond.NoCondition? then DeleteShared(back, len, 0, len, KeyIn(m))
    else DeleteListed(back, len, Selected(back[..len], MatchesIn(m, cond)), KeyIn(m))
  }

  /** The laws of DELETE, read off the rows themselves. */
  lemma OutcomeLaw(back: seq<Row?>, len: nat, cond: Condition)
    requires len <= |back| && null !in back[..len]
    ensures var r, rows := Outcome(back, len, cond), back[..len];
      && (r.Panic? <==> LastRowRepeats(rows, cond))
      && (!cond.NoCondition? && r.Slice? ==> r.len <= |r.back| && r.back[..r.len] == Unmatched(rows, cond))
      && (cond.NoCondition? && NoTwoEqual(rows) ==>
          r.Slice? && r.len <= |r.back| && r.back[..r.len] == PassedOver(rows, len))
  {
    var m, rows := ContentsOf(back), back[..len];
    assert forall r: Row? :: r in rows ==> r in back && r in m;
    LastRowRepeatsIff(rows, m, cond);
    hide Unmatched, PassedOver, NoTwoEqual, Keep, DeleteAll.Survivors, LastRowRepeats, LastRepeats, DeleteListed,
         DeleteShared;
    if cond.NoCondition? {
      DeleteAll.DeleteAllPanicsIff(back, len, KeyIn(m));
      assert len > 0 ==> rows[len - 1] in rows;
      NoTwoEqualIsUnequal(rows, m);
      PassedOverIsSurvivors(rows, len, m);
      if NoTwoEqual(rows) {
        DeleteAll.UnequalDeleteAll(back, len, len, KeyIn(m));
      }
    } else {
      EqualRowsMatchAlike(rows, m, cond);
      ConditionalDelete(back, len, MatchesIn(m, cond), KeyIn(m));
      UnmatchedIsKeep(rows, m, cond);
    }
  }

  /** Whatever DELETE ranges over, no two slots come to share a row. */
  lemma OutcomeKeepsDistinct(back: seq<Row?>, len: nat, cond: Condition)
    requires len <= |back| && null !in back[..len] && Distinct(back[..len])
    ensures var r := Outcome(back, len, cond);
      r.Slice? ==> r.len <= |r.back| && null !in r.back[..r.len] && Distinct(r.back[..r.len])
  {
    var m := ContentsOf(back);
    var other := (x: Row?, y: Row?) => x != y;
    hide DeleteListed, DeleteShared;
    DeleteListedShortens(back, len, Selected(back[..len], MatchesIn(m, cond)), KeyIn(m), other);
    DeleteSharedShortens(back, len, 0, len, KeyIn(m), other);
  }

  lemma EqualRowsMatchAlike(s: seq<Row?>, m: map<Row?, Content>, cond: Condition)
    ensures Uniform(s, MatchesIn(m, cond), KeyIn(m))
  {}

  lemma {:induction false} SelectedAll<T>(s: seq<T>, matches: T -> bool)
    requires forall x :: x in s ==> matches(x)
    ensures Selected(s, matches) == s
    decreases |s|
  {
    if s != [] {
      assert s[0] in s;
      SelectedAll(s[1..], matches);
    }
  }

  /** Selecting by a snapshot is selecting by the rows' contents; without a condition it is the whole list. */
  lemma SnapshotHolds(s: seq<Row?>, len: nat, cond: Condition)
    requires len <= |s| && null !in s[..len]
    ensures var matches := MatchesIn(ContentsOf(s), cond);
      && (forall r: Row? :: r in s[..len] ==> matches(r) == Matched(r.cols, cond))
      && (forall r: Row? :: r in Selected(s[..len], matches) ==> r in s[..len] && Matched(r.cols, cond))
      && (forall r: Row? :: r in s[..len] && Matched(r.cols, cond) ==> r in Selected(s[..len], matches))
      && (cond.NoCondition? ==> Selected(s[..len], matches) == s[..len])
  {
    var matches := MatchesIn(ContentsOf(s), cond);
    forall r: Row? | r in s[..len]
      ensures r in s && matches(r) == Matched(r.cols, cond)
    {}
    SelectedMatch(s[..len], matches);
    if cond.NoCondition? {
      SelectedAll(s[..len], matches);
    }
  }

  lemma {:induction false} SelectedDistinct<T>(s: seq<T>, matches: T -> bool)
    requires Distinct(s)
    ensures Distinct(Selected(s, matches))
    decreases |s|
  {
    if s != [] {
      SelectedDistinct(s[1..], matches);
      SelectedMatch(s[1..], matches);
      var t := Selected(s[1..], matches);
      assert forall i :: 0 <= i < |t| ==> t[i] in t;
      assert forall x :: x in s[1..] ==> x != s[0];
    }
  }

  ghost function Listed(sel: Selection): seq<Row?>
    requires sel.Shared? ==> sel.len <= sel.back.Length
    reads if sel.Shared? then {sel.back} else {}
  {
    if sel.Own? then sel.rows else sel.back[..sel.len]
  }

  /** The loop of `Table.Update`: the error a row's update returns is dropped. */
  method UpdateEach(sel: Selection, columns: seq<Column>) returns (n: nat)
    requires sel.Shared? ==> sel.len <= sel.back.Length
    requires null !in Listed(sel) && Distinct(Listed(sel))
    modifies set r | r in Listed(sel)
    ensures n == |Listed(sel)|
    ensures forall r :: r in Listed(sel) ==> r.cols == Updated(old(r.cols), columns)
  {
    ghost var list := Listed(sel);
    hide Updated;
    n := if sel.Own? then |sel.rows| else sel.len;
    for i := 0 to n
      invariant Listed(sel) == list
      invariant forall j :: 0 <= j < |list| ==>
                  list[j].cols == if j < i then Updated(old(list[j].cols), columns) else old(list[j].cols)
    {
      var row := if sel.Own? then sel.rows[i] else sel.back[i];
      assert row == list[i];
      var _ := row.Update(columns);
    }
  }

  /** A table: `len` rows of a backing array it grows by replacing. No two slots share a row. */
  class Table {
    const schema: Schema
    var back: array<Row?>
    var len: nat

    ghost predicate Valid()
      reads this, back
    {
      len <= back.Length && null !in back[..len] && Distinct(back[..len])
    }

    ghost function Rows(): (s: seq<Row?>)
      requires Valid()
      reads this, back
    {
      back[..len]
    }

    ghost function Contents(): (s: seq<Content>)
      requires Valid()
      reads this, back, back[..]
    {
      Held(back[..len])
    }

    /** The rows a condition selects, in table order. */
    ghost function Matching(cond: Condition): seq<Row?>
      requires len <= back.Length
      reads this, back, back[..]
    {
      Selected(back[..len], MatchesIn(ContentsOf(back[..]), cond))
    }

    constructor (schema: Schema)
      ensures Valid() && Rows() == [] && fresh(back) && this.schema == schema
    {
      this.schema := schema;
      back := new Row?[0];
      len := 0;
    }

    /** What a clause chooses. */
    lemma ChosenMean(cond: Condition)
      requires Valid()
      ensures InOrder(Matching(cond), Rows()) && Distinct(Matching(cond))
      ensures cond.Comparison? && cond.op.EQ? ==>
                forall r: Row? :: r in Matching(cond) <==>
                                  r in Rows() && cond.column in r.cols && cond.same(r.cols[cond.column])
      ensures cond.Comparison? && cond.op.NEQ? ==>
                forall r: Row? :: r in Matching(cond) <==>
                                  r in Rows() && !(cond.column in r.cols && cond.same(r.cols[cond.column]))
      ensures cond.Comparison? && cond.op.OtherOperator? ==> Matching(cond) == []
      ensures !cond.Comparison? ==> Matching(cond) == Rows()
    {
      SnapshotHolds(back[..], len, cond);
      SelectedInOrder(Rows(), MatchesIn(ContentsOf(back[..]), cond));
      SelectedDistinct(Rows(), MatchesIn(ContentsOf(back[..]), cond));
      assert back[..][..len] == back[..len];
      forall r: Row? | r in Rows()
        ensures cond.Comparison? && cond.op.EQ? ==>
                  (Matched(r.cols, cond) <==> cond.column in r.cols && cond.same(r.cols[cond.column]))
        ensures cond.Comparison? && cond.op.NEQ? ==>
                  (Matched(r.cols, cond) <==> !(cond.column in r.cols && cond.same(r.cols[cond.column])))
        ensures cond.Comparison? && cond.op.OtherOperator? ==> !Matched(r.cols, cond)
        ensures !cond.Comparison? ==> Matched(r.cols, cond)
      {
        MatchedMeans(r.cols, cond);
      }
      hide Matched;
      if !cond.Comparison? {
        SelectedAll(Rows(), MatchesIn(ContentsOf(back[..]), cond));
      }
      if Matching(cond) != [] {
        assert Matching(cond)[0] in Matching(cond);
      }
    }

    /** `Table.Select`. Without a condition it hands out the table's own slice. */
    method Select(cond: Condition) returns (sel: Selection)
      requires Valid()
      ensures cond.NoCondition? ==> sel == Shared(back, len)
      ensures !cond.NoCondition? ==>
                sel.Own? && sel.rows == Matching(cond) && InOrder(sel.rows, Rows()) && Distinct(sel.rows)
      ensures cond.Comparison? && cond.op.EQ? ==>
                forall r: Row :: r in sel.rows <==>
                    r in Rows() && cond.column in r.cols && cond.same(r.cols[cond.column])
      ensures cond.Comparison? && cond.op.NEQ? ==>
                forall r: Row :: r in sel.rows <==>
                    r in Rows() && !(cond.column in r.cols && cond.same(r.cols[cond.column]))
      ensures cond.Comparison? && cond.op.OtherOperator? ==> sel.rows == []
      ensures cond.OtherExpression? ==> sel.rows == Rows()
    {
      if cond.NoCondition? {
        return Shared(back, len);
      }
      ghost var matches := MatchesIn(ContentsOf(back[..]), cond);
      var rows: seq<Row> := [];
      for i := 0 to len
        invariant rows == Selected(back[..i], matches)
      {
        SelectedAppend(back[..i], back[i], matches);
        assert back[..i + 1] == back[..i] + [back[i]] && back[i] in back[..len];
        if back[i].IsMatched(cond) {
          rows := rows + [back[i]];
        }
      }
      ChosenMean(cond);
      sel := Own(rows);
    }

    /** `append(tbl.Rows, row)`: in place while the array has room, else into a new array. */
    method Append(row: Row)
      requires Valid() && row !in Rows()
      modifies this`back, this`len, back
      ensures Valid() && Rows() == old(Rows()) + [row]
      ensures if old(len) < old(back).Length then back == old(back) && back[..] == old(back[..])[old(len) := row]
              else fresh(back)
    {
      if len == back.Length {
        var bigger := new Row?[2 * len + 1];
        for i := 0 to len
          invariant unchanged(this) && unchanged(back) && bigger[..i] == back[..i]
        {
          bigger[i] := back[i];
        }
        back := bigger;
      }
      back[len] := row;
      len := len + 1;
      assert back[..len] == old(back[..len]) + [row];
    }

    /** `Table.Insert`: one row. */
    method Insert(cols: seq<Column>) returns (row: Row?)
      requires Valid()
      modifies this`back, this`len, back
      ensures Valid() && (back == old(back) || fresh(back)) && (row != null) == NewContent(schema, cols).Some?
      ensures row == null ==> Rows() == old(Rows()) && Contents() == old(Contents())
      ensures row != null ==> fresh(row) && row.cols == NewContent(schema, cols).value && Rows() == old(Rows()) + [row]
      ensures row != null ==> Contents() == old(Contents()) + [row.cols]
    {
      row := NewRowFromColumns(schema, cols);
      if row != null {
        Append(row);
        HeldAppend(old(Rows()), row);
      }
    }

    /** The store's INSERT: rows go in one by one; one that cannot be built stops it, and those before it stay. */
    method InsertAll(values: seq<seq<Column>>) returns (ok: bool)
      requires Valid()
      modifies this`back, this`len, back
      ensures Valid() && ok == (|Inserted(schema, values)| == |values|)
      ensures old(Rows()) <= Rows() && Contents() == old(Contents()) + Inserted(schema, values)
    {
      hide *;
      ok := true;
      assert values[0..] == values;
      for i := 0 to |values|
        invariant Valid() && (back == old(back) || fresh(back)) && old(Rows()) <= Rows()
        invariant Contents() + Inserted(schema, values[i..]) == old(Contents()) + Inserted(schema, values)
        invariant |Inserted(schema, values)| - |Inserted(schema, values[i..])| == i
      {
        InsertedStep(schema, values[i..]);
        assert values[i..][0] == values[i] && values[i..][1..] == values[i + 1..];
        ghost var before, rest := Contents(), Inserted(schema, values[i + 1..]);
        var row := Insert(values[i]);
        if row == null {
          assert before + [] == before;
          return false;
        }
        assert before + ([row.cols] + rest) == (before + [row.cols]) + rest;
      }
      InsertedNothing(schema);
      assert values[|values|..] == [] && Contents() + [] == Contents();
    }

    /** `Table.Update`: each row the clause chooses, by its contents before any change. */
    method Update(columns: seq<Column>, cond: Condition) returns (n: nat)
      requires Valid()
      modifies set r | r in Rows()
      ensures n == old(|Matching(cond)|)
      ensures cond.Comparison? && cond.op.EQ? ==>
                forall r :: r in Rows() ==>
                  r.cols == if cond.column in old(r.cols) && cond.same(old(r.cols)[cond.column])
                            then Updated(old(r.cols), columns) else old(r.cols)
      ensures cond.Comparison? && cond.op.NEQ? ==>
                forall r :: r in Rows() ==>
                  r.cols == if cond.column in old(r.cols) && cond.same(old(r.cols)[cond.column])
                            then old(r.cols) else Updated(old(r.cols), columns)
      ensures cond.Comparison? && cond.op.OtherOperator? ==> n == 0 && forall r :: r in Rows() ==> r.cols == old(r.cols)
      ensures !cond.Comparison? ==> n == len && forall r :: r in Rows() ==> r.cols == Updated(old(r.cols), columns)
    {
      hide Matched, Updated, InOrder;
      ChosenMean(cond);
      n := UpdateMatching(columns, cond);
    }

    method UpdateMatching(columns: seq<Column>, cond: Condition) returns (n: nat)
      requires Valid()
      modifies set r | r in Rows()
      ensures n == old(|Matching(cond)|)
      ensures forall r :: r in Rows() ==>
                r.cols == if r in old(Matching(cond)) then Updated(old(r.cols), columns) else old(r.cols)
    {
      hide Updated, Matched, InOrder, Earlier, Selected;
      var sel := Select(cond);
      SnapshotHolds(back[..], len, cond);
      SelectedDistinct(Rows(), MatchesIn(ContentsOf(back[..]), cond));
      assert Listed(sel) == Matching(cond);
      assert forall r: Row? :: r in Listed(sel) ==> r in Rows();
      n := UpdateEach(sel, columns);
    }

    /** `append(tbl.Rows[:n], tbl.Rows[n+1:]...)`: the tail moves down in the same array. */
    method RemoveAt(n: nat)
      requires n < len <= back.Length
      modifies this`len, back
      ensures len == old(len) - 1 && back[..] == CloseGap(old(back[..]), old(len), n)
      ensures forall i :: 0 <= i < back.Length ==> back[i] == if n <= i < len then old(back[i + 1]) else old(back[i])
    {
      for k := n to len - 1
        invariant len == old(len)
        invariant forall i :: 0 <= i < back.Length ==> back[i] == if n <= i < k then old(back[i + 1]) else old(back[i])
      {
        back[k] := back[k + 1];
      }
      len := len - 1;
    }

    ghost predicate Filled(n: nat)
      requires n <= back.Length
      reads this, back
    {
      forall i :: 0 <= i < n ==> back[i] != null
    }

    /** What `key` says of the array's rows is what `Row.IsEqual` compares. */
    ghost predicate Keyed(key: Row? -> Option<Content>)
      reads this, back, back[..]
    {
      forall i :: 0 <= i < back.Length && back[i] != null ==> key(back[i]) == RowKey(back[i].cols)
    }

    lemma RemovalPlan(cond: Condition)
      requires Valid()
      ensures var key := KeyIn(ContentsOf(back[..]));
        && len <= back.Length && Keyed(key) && Filled(len)
        && (forall i :: 0 <= i < |Matching(cond)| ==>
              Matching(cond)[i] != null && key(Matching(cond)[i]) == RowKey(Matching(cond)[i].cols))
        && (cond.NoCondition? ==> |Matching(cond)| == len)
        && Outcome(back[..], len, cond) ==
           if cond.NoCondition? then DeleteShared(back[..], len, 0, len, key)
           else DeleteListed(back[..], len, Matching(cond), key)
    {
      var list := Matching(cond);
      SnapshotHolds(back[..], len, cond);
      forall i | 0 <= i < back.Length && back[i] != null
        ensures back[i] in ContentsOf(back[..])
      {
        assert back[..][i] == back[i];
      }
      forall i | 0 <= i < |list|
        ensures list[i] != null && list[i] in ContentsOf(back[..])
      {
        assert list[i] in list && list[i] in back[..len] && list[i] in back[..];
      }
    }

    /** The inner loop of `Table.Delete`: the slice header is the one the table had at the start, the elements are read
        live, and slicing behind the end panics. */
    method RemoveEqual(row: Row, ghost upto: nat, ghost key: Row? -> Option<Content>) returns (panicked: bool)
      requires len <= upto <= back.Length && Filled(upto) && Keyed(key)
      modifies this`len, back
      ensures len <= upto && Filled(upto) && Keyed(key)
      ensures Sweep(old(back[..]), old(len), 0, old(len), key, RowKey(row.cols)) ==
              if panicked then Panic else SliceShift.Slice(back[..], len)
    {
      hide Sweep, CloseGap;
      var n, end := 0, len;
      while n < end
        invariant len <= end <= upto <= back.Length && n <= end && Filled(upto) && Keyed(key)
        invariant Sweep(back[..], len, n, end, key, RowKey(row.cols)) ==
                  Sweep(old(back[..]), end, 0, end, key, RowKey(row.cols))
      {
        SweepStep(back[..], len, n, end, key, RowKey(row.cols));
        SameRowIsKey(row.cols, back[n].cols);
        hide SameRow, RowKey;
        if row.IsEqual(back[n]) {
          if n + 1 > len {
            return true;
          }
          RemoveAt(n);
        }
        n := n + 1;
      }
      SweepEnd(back[..], len, end, key, RowKey(row.cols));
      return false;
    }

    /** The outer loop of `Table.Delete`, for rows of its own or for the table's own slice. */
    method RemoveEach(sel: Selection, ghost key: Row? -> Option<Content>) returns (panicked: bool)
      requires len <= back.Length && Filled(len) && Keyed(key)
      requires sel.Shared? ==> sel.back == back && sel.len == len
      requires sel.Own? ==> forall i :: 0 <= i < |sel.rows| ==> key(sel.rows[i]) == RowKey(sel.rows[i].cols)
      modifies this`len, back
      ensures (if sel.Own? then DeleteListed(old(back[..]), old(len), sel.rows, key)
               else DeleteShared(old(back[..]), old(len), 0, old(len), key)) ==
              if panicked then Panic else SliceShift.Slice(back[..], len)
    {
      hide Sweep, RowKey;
      ghost var end := len;
      var n := if sel.Own? then |sel.rows| else sel.len;
      for i := 0 to n
        invariant len <= end <= back.Length && Keyed(key) && Filled(end)
        invariant sel.Own? ==>
                    DeleteListed(back[..], len, sel.rows[i..], key) == DeleteListed(old(back[..]), end, sel.rows, key)
        invariant sel.Shared? ==>
                    DeleteShared(back[..], len, i, end, key) == DeleteShared(old(back[..]), end, 0, end, key)
      {
        var row := if sel.Own? then sel.rows[i] else sel.back[i];
        panicked := RemoveEqual(row, end, key);
        if panicked {
          return;
        }
      }
      panicked := false;
    }

    /** `Table.Delete`: select, then remove. */
    method RemoveMatching(cond: Condition) returns (n: nat, panicked: bool)
      requires Valid()
      modifies this`len, back
      ensures n == old(|Matching(cond)|)
      ensures old(Outcome(back[..], len, cond)) == if panicked then Panic else SliceShift.Slice(back[..], len)
    {
      hide *;
      var sel := Select(cond);
      n := if sel.Own? then |sel.rows| else sel.len;
      RemovalPlan(cond);
      ghost var key, out := KeyIn(ContentsOf(back[..])), Outcome(back[..], len, cond);
      panicked := RemoveEach(sel, key);
    }

    /** What a DELETE with this clause removes and when it panics, by the rows' own columns. */
    lemma RemovalMeans(cond: Condition)
      requires Valid()
      ensures cond.Comparison? && cond.op.EQ? ==>
                && (LastRowRepeats(Rows(), cond) <==>
                      LastHasTwin(Rows()) && var last := Rows()[len - 1];
                      cond.column in last.cols && cond.same(last.cols[cond.column]))
                && LosesHolders(Unmatched(Rows(), cond), Rows(), cond.column, cond.same)
      ensures cond.Comparison? && cond.op.NEQ? ==>
                && (LastRowRepeats(Rows(), cond) <==>
                      LastHasTwin(Rows()) && var last := Rows()[len - 1];
                      !(cond.column in last.cols && cond.same(last.cols[cond.column])))
                && KeepsHolders(Unmatched(Rows(), cond), Rows(), cond.column, cond.same)
      ensures cond.Comparison? && cond.op.OtherOperator? ==>
                !LastRowRepeats(Rows(), cond) && Unmatched(Rows(), cond) == Rows()
      ensures !cond.Comparison? ==>
                (LastRowRepeats(Rows(), cond) <==> LastHasTwin(Rows())) && KeepsUnequal(Unmatched(Rows(), cond), Rows())
    {
      LastRowRepeatsMeans(Rows(), cond);
      UnmatchedMembers(Rows(), cond);
      forall r | r in Rows()
        ensures cond.Comparison? && cond.op.EQ? ==>
                  (Matched(r.cols, cond) <==> cond.column in r.cols && cond.same(r.cols[cond.column]))
        ensures cond.Comparison? && cond.op.NEQ? ==>
                  (Matched(r.cols, cond) <==> !(cond.column in r.cols && cond.same(r.cols[cond.column])))
        ensures cond.Comparison? && cond.op.OtherOperator? ==> !Matched(r.cols, cond)
        ensures !cond.Comparison? ==> Matched(r.cols, cond)
      {
        MatchedMeans(r.cols, cond);
      }
      hide Matched, LastRowRepeats, LastHasTwin, Whole, InOrder;
      if cond.Comparison? && cond.op.OtherOperator? {
        AllUnmatched(Rows(), cond);
      }
      assert Rows() != [] ==> Rows()[|Rows()| - 1] in Rows();
    }

    /** DELETE panics exactly when the last row is chosen and a row before equals it. Otherwise, with a condition, it
        removes the rows chosen and no others, except those that do not even equal themselves, and keeps the order;
        without one, of rows that are pairwise unequal, every second one stays. */
    method Delete(cond: Condition) returns (n: nat, panicked: bool)
      requires Valid()
      modifies this`len, back
      ensures n == old(|Matching(cond)|)
      ensures !panicked ==> Valid()
      ensures cond.Comparison? && cond.op.EQ? ==>
                && (panicked <==>
                      old(LastHasTwin(Rows()) && var last := Rows()[len - 1];
                          cond.column in last.cols && cond.same(last.cols[cond.column])))
                && (!panicked ==> LosesHolders(Rows(), old(Rows()), cond.column, cond.same))
      ensures cond.Comparison? && cond.op.NEQ? ==>
                && (panicked <==>
                      old(LastHasTwin(Rows()) && var last := Rows()[len - 1];
                          !(cond.column in last.cols && cond.same(last.cols[cond.column]))))
                && (!panicked ==> KeepsHolders(Rows(), old(Rows()), cond.column, cond.same))
      ensures cond.Comparison? && cond.op.OtherOperator? ==> n == 0 && !panicked && Rows() == old(Rows())
      ensures !cond.Comparison? ==> (panicked <==> old(LastHasTwin(Rows())))
      ensures cond.OtherExpression? && !panicked ==> KeepsUnequal(Rows(), old(Rows()))
      ensures cond.NoCondition? && old(NoTwoEqual(Rows())) ==> !panicked && Rows() == old(PassedOver(Rows(), len))
      ensures old(Outcome(back[..], len, cond)) == if panicked then Panic else SliceShift.Slice(back[..], len)
    {
      hide Matched, LastRowRepeats, LastHasTwin, Whole, Unmatched, InOrder, NoTwoEqual, PassedOver, Outcome;
      hide LosesHolders, KeepsHolders, KeepsUnequal;
      ChosenMean(cond);
      RemovalMeans(cond);
      n, panicked := DeleteMatching(cond);
    }

    method DeleteMatching(cond: Condition) returns (n: nat, panicked: bool)
      requires Valid()
      modifies this`len, back
      ensures n == old(|Matching(cond)|)
      ensures panicked == old(LastRowRepeats(Rows(), cond))
      ensures !panicked ==> Valid()
      ensures !cond.NoCondition? && !panicked ==> Rows() == old(Unmatched(Rows(), cond))
      ensures cond.NoCondition? && old(NoTwoEqual(Rows())) ==> !panicked && Rows() == old(PassedOver(Rows(), len))
      ensures old(Outcome(back[..], len, cond)) == if panicked then Panic else SliceShift.Slice(back[..], len)
    {
      OutcomeLaw(back[..], len, cond);
      OutcomeKeepsDistinct(back[..], len, cond);
      n, panicked := RemoveMatching(cond);
    }
  }
}
