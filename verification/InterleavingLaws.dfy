/** What every interleaving of INSERT, UPDATE and DELETE on one table keeps. */
module InterleavingLaws {
  import opened Values
  import opened SliceShift
  import opened DeleteLaws
  import DeleteAll
  import opened StoreRow
  import opened Interleaving

  // Rows stay distinct, in the order they were inserted.

  predicate Increasing(s: seq<Id>) {
    forall i, j :: 0 <= i < j < |s| ==> s[i] < s[j]
  }

  lemma RowsExist(t: Table)
    requires Sound(t)
    ensures forall id :: id in Rows(t) ==> id < |t.content|
  {
    forall id | id in Rows(t)
      ensures id < |t.content|
    {
      var i :| 0 <= i < |Rows(t)| && Rows(t)[i] == id;
      assert t.arrays[|t.arrays| - 1][i] == id;
    }
  }

  lemma {:induction false} AppendAllKeepsOrder(t: Table, rows: seq<NewRow>)
    requires Sound(t) && Increasing(Rows(t))
    ensures Increasing(Rows(AppendAll(t, rows)))
    decreases |rows|
  {
    if rows != [] {
      RowsExist(t);
      var u := Append(t, rows[0]);
      assert Increasing(Rows(u)) by {
        assert forall i :: 0 <= i < t.len ==> Rows(t)[i] in Rows(t);
      }
      hide Append;
      AppendAllKeepsOrder(u, rows[1..]);
    }
  }

  lemma DeleteKeepsOrder(t: Table, op: nat)
    requires Sound(t) && Increasing(Rows(t))
    ensures var r := DeleteRows(t, op); r.Running? ==> Increasing(Rows(r.t))
  {
    if op in t.ops {
      var s, key := t.ops[op], KeyAt(t.content);
      var before := (x: Id, y: Id) => x < y;
      DeleteSharedShortens(Current(t), t.len, 0, if s.Shared? && s.len <= |Current(t)| then s.len else 0, key, before);
      DeleteListedShortens(Current(t), t.len, Ranged(t, s), key, before);
      assert Pairwise(Rows(t), before);
      hide DeleteListed, DeleteShared;
    }
  }

  lemma StepKeepsOrder(t: Table, step: Step)
    requires Sound(t) && Increasing(Rows(t))
    ensures var r := Next(t, step); r.Running? ==> Increasing(Rows(r.t))
  {
    hide AppendAll, DeleteRows, Increasing;
    match step
    case Insert(rows) => AppendAllKeepsOrder(t, rows);
    case Delete(op) => DeleteKeepsOrder(t, op);
    case _ =>
  }

  /** Over every interleaving the table's slots hold distinct row objects, in the order they were inserted. */
  lemma {:induction false} RowsStayInInsertionOrder(t: Table, steps: seq<Step>)
    requires Sound(t) && Increasing(Rows(t))
    ensures var r := Run(t, steps); r.Running? ==> Increasing(Rows(r.t))
    decreases |steps|
  {
    hide Next, Increasing;
    if steps != [] {
      StepKeepsOrder(t, steps[0]);
      var r := Next(t, steps[0]);
      if r.Running? {
        RowsStayInInsertionOrder(r.t, steps[1..]);
      }
    }
  }

  // A missing row was removed by a DELETE, for a row it had selected or as one that clears the table.

  /** The selection is the slice of the array the table still has. */
  predicate Live(t: Table, s: Choice) {
    s.Shared? && s.arr + 1 == |t.arrays|
  }

  /** The step is a DELETE that takes row `id` out: it had selected a row of equal content, or it ranges over the
      table's own array and removes what comes by there (`LatePasses`). */
  predicate Removes(t: Table, step: Step, id: Id)
    requires Sound(t) && id < |t.content|
  {
    && step.Delete? && step.op in t.ops && id in Rows(t)
    && Next(t, step).Running? && id !in Rows(Next(t, step).t)
    && (Live(t, t.ops[step.op])
        || exists other :: other in Ranged(t, t.ops[step.op]) && other < |t.content|
            && SameRow(t.content[other], t.content[id]))
  }

  /** Some step of the run removes row `id`. */
  predicate RemovedBy(t: Table, steps: seq<Step>, id: Id)
    requires Sound(t)
    decreases |steps|
  {
    && steps != []
    && ((id < |t.content| && Removes(t, steps[0], id)) ||
        (Next(t, steps[0]).Running? && RemovedBy(Next(t, steps[0]).t, steps[1..], id)))
  }

  lemma {:induction false} AppendAllAdds(t: Table, rows: seq<NewRow>, id: Id)
    requires Sound(t)
    ensures var u := AppendAll(t, rows);
      && |u.content| == |t.content| + |rows|
      && (id in Rows(u) <==> id in Rows(t) || |t.content| <= id < |u.content|)
    decreases |rows|
  {
    if rows != [] {
      var u := Append(t, rows[0]);
      hide Append;
      AppendAllAdds(u, rows[1..], id);
      assert id in Rows(u) <==> id in Rows(t) || id == |t.content|;
    }
  }

  /** A row taken out for rows selected earlier equals one of them. */
  lemma RemovalReason(t: Table, s: Choice, id: Id) returns (other: Id)
    requires Sound(t) && SoundOp(t, s) && !Live(t, s) && id in Rows(t) && Removed(t, s).Slice?
    requires id !in Removed(t, s).back[..Removed(t, s).len]
    ensures other in Ranged(t, s) && Hits(KeyAt(t.content), KeyAt(t.content)(other), id)
  {
    hide DeleteListed, Hits, KeyAt;
    var key := KeyAt(t.content);
    ListedRemoves(Current(t), t.len, Ranged(t, s), key, id);
    other :| other in Ranged(t, s) && Hits(key, key(other), id);
  }

  lemma HitIsSameRow(content: seq<Content>, other: Id, id: Id)
    requires Hits(KeyAt(content), KeyAt(content)(other), id)
    ensures other < |content| && id < |content| && SameRow(content[other], content[id])
  {
    hide SameRow, RowKey;
    if other < |content| && id < |content| {
      SameRowIsKey(content[other], content[id]);
    }
  }

  lemma DeleteRemoves(t: Table, op: nat, id: Id)
    requires Sound(t) && op in t.ops && id in Rows(t) && DeleteRows(t, op).Running? && id !in Rows(DeleteRows(t, op).t)
    ensures id < |t.content| && Removes(t, Delete(op), id)
  {
    hide Removed, Hits, SameRow, KeyAt;
    assert id < |t.content| by {
      RowsExist(t);
    }
    if !Live(t, t.ops[op]) {
      var other := RemovalReason(t, t.ops[op], id);
      HitIsSameRow(t.content, other, id);
    }
  }

  /** One step: a row in the table goes only by a DELETE, a new one is in it, and one that is gone stays away. */
  lemma StepRows(t: Table, step: Step, id: Id)
    requires Sound(t) && Next(t, step).Running?
    ensures var u := Next(t, step).t;
      && |t.content| <= |u.content|
      && (id in Rows(t) && id !in Rows(u) ==> id < |t.content| && Removes(t, step, id))
      && (|t.content| <= id < |u.content| ==> id in Rows(u))
      && (id < |t.content| && id !in Rows(t) ==> id !in Rows(u))
  {
    hide AppendAll, DeleteRows, Removes, Rows;
    match step
    case Insert(rows) => AppendAllAdds(t, rows, id);
    case Delete(op) => DeleteRowsOnly(t, op, id);
    case Select(op, cond) => SameRows(t, SelectRows(t, op, cond));
    case Update(op, columns) => SameRows(t, UpdateRows(t, op, columns));
  }

  lemma SameRows(t: Table, u: Table)
    requires Sound(t) && Sound(u) && t.arrays == u.arrays && t.len == u.len
    ensures Rows(t) == Rows(u)
  {}

  lemma DeleteRowsOnly(t: Table, op: nat, id: Id)
    requires Sound(t) && DeleteRows(t, op).Running?
    ensures var u := DeleteRows(t, op).t;
      && u.content == t.content
      && (id in Rows(t) && id !in Rows(u) ==> id < |t.content| && Removes(t, Delete(op), id))
      && (id in Rows(u) ==> id in Rows(t))
  {
    if op in t.ops {
      var s, key := t.ops[op], KeyAt(t.content);
      var any := (x: Id, y: Id) => true;
      DeleteSharedShortens(Current(t), t.len, 0, if s.Shared? && s.len <= |Current(t)| then s.len else 0, key, any);
      DeleteListedShortens(Current(t), t.len, Ranged(t, s), key, any);
      hide DeleteListed, DeleteShared;
      if id in Rows(t) && id !in Rows(DeleteRows(t, op).t) {
        DeleteRemoves(t, op, id);
      }
    }
  }

  /** Over every interleaving: a row that was in the table, or was inserted, and is missing at the end was removed by a
      DELETE that had selected a row of equal content, or that was clearing the table's own array. */
  lemma {:induction false} MissingRowsWereRemoved(t: Table, steps: seq<Step>, id: Id)
    requires Sound(t) && Run(t, steps).Running?
    requires id in Rows(t) || |t.content| <= id < |Run(t, steps).t.content|
    ensures id in Rows(Run(t, steps).t) || RemovedBy(t, steps, id)
    decreases |steps|
  {
    hide Next, Rows, Removes;
    if steps != [] {
      StepRows(t, steps[0], id);
      var u := Next(t, steps[0]).t;
      if id in Rows(u) || |u.content| <= id {
        MissingRowsWereRemoved(u, steps[1..], id);
      }
    }
  }

  /** A removed row never comes back, so each row is removed at most once. */
  lemma {:induction false} RemovedRowsStayAway(t: Table, steps: seq<Step>, id: Id)
    requires Sound(t) && Run(t, steps).Running? && id < |t.content| && id !in Rows(t)
    ensures id !in Rows(Run(t, steps).t) && !RemovedBy(t, steps, id)
    decreases |steps|
  {
    hide Next, Rows;
    if steps != [] {
      StepRows(t, steps[0], id);
      RemovedRowsStayAway(Next(t, steps[0]).t, steps[1..], id);
    }
  }

  /** From the empty table: every row ever inserted is in the table at the end exactly when no DELETE removed it. */
  lemma EveryRowIsAccountedFor(steps: seq<Step>, id: Id)
    requires Run(EMPTY, steps).Running? && id < |Run(EMPTY, steps).t.content|
    ensures id in Rows(Run(EMPTY, steps).t) <==> !RemovedBy(EMPTY, steps, id)
  {
    MissingRowsWereRemoved(EMPTY, steps, id);
    if RemovedBy(EMPTY, steps, id) {
      RemovedIsMissing(EMPTY, steps, id);
    }
  }

  lemma {:induction false} RemovedIsMissing(t: Table, steps: seq<Step>, id: Id)
    requires Sound(t) && Run(t, steps).Running? && RemovedBy(t, steps, id)
    ensures id !in Rows(Run(t, steps).t)
    decreases |steps|
  {
    hide Next, Rows;
    var u := Next(t, steps[0]).t;
    if id < |t.content| && Removes(t, steps[0], id) {
      StepRows(t, steps[0], id);
      RemovedRowsStayAway(u, steps[1..], id);
    } else {
      RemovedIsMissing(u, steps[1..], id);
    }
  }

  // Panics.

  /** At every DELETE step the rows of the table are pairwise unequal. */
  predicate UnequalAtDeletes(t: Table, steps: seq<Step>)
    requires Sound(t)
    decreases |steps|
  {
    steps == [] ||
    (&& (steps[0].Delete? ==> Unequal(Rows(t), KeyAt(t.content)))
     && (Next(t, steps[0]).Running? ==> UnequalAtDeletes(Next(t, steps[0]).t, steps[1..])))
  }

  /** Then no step panics, however late the DELETEs come and whatever was updated in between. */
  lemma {:induction false} UnequalRunsNeverPanic(t: Table, steps: seq<Step>)
    requires Sound(t) && UnequalAtDeletes(t, steps)
    ensures Run(t, steps).Running?
    decreases |steps|
  {
    hide Removed, Rows, AppendAll, UpdateRows, SelectRows;
    if steps != [] {
      if steps[0].Delete? && steps[0].op in t.ops {
        UnequalRemoves(t, t.ops[steps[0].op]);
      }
      var r := Next(t, steps[0]);
      assert r.Running?;
      hide Next;
      UnequalRunsNeverPanic(r.t, steps[1..]);
    }
  }

  lemma UnequalRemoves(t: Table, s: Choice)
    requires Sound(t) && SoundOp(t, s) && Unequal(Rows(t), KeyAt(t.content))
    ensures Removed(t, s).Slice?
    ensures s.Own? ==>
              var r := Removed(t, s); r.Slice? && r.back[..r.len] == Without(Rows(t), s.rows, KeyAt(t.content))
  {
    var key := KeyAt(t.content);
    if s.Shared? && s.arr == |t.arrays| - 1 {
      UnequalShared(Current(t), t.len, 0, s.len, key);
    } else {
      UnequalDelete(Current(t), t.len, Ranged(t, s), key);
    }
  }

  /** A conditional DELETE that finds pairwise unequal rows leaves exactly those that equal none of the rows it had
      selected, as both stand when it applies. */
  lemma LateDelete(t: Table, op: nat)
    requires Sound(t) && op in t.ops && t.ops[op].Own? && Unequal(Rows(t), KeyAt(t.content))
    ensures var r := DeleteRows(t, op);
      && r.Running? && r.t.content == t.content && r.t.ops == t.ops - {op}
      && Rows(r.t) == Without(Rows(t), t.ops[op].rows, KeyAt(t.content))
  {
    UnequalRemoves(t, t.ops[op]);
    hide Removed, Without;
  }

  /** A DELETE without a condition that still holds the table's array, whatever rows it finds and however many it had
      selected: it makes one pass for each slot it had selected, for the row that is there by then. */
  lemma LatePasses(t: Table, op: nat)
    requires Sound(t) && op in t.ops && Live(t, t.ops[op])
    ensures var n, key := t.ops[op].len, KeyAt(t.content);
      match DeleteAll.Passes(Rows(t), DeleteAll.Behind(Current(t), t.len, n), 0, key)
      case None => DeleteRows(t, op) == Crashed
      case Some(left) => DeleteRows(t, op).Running? && Rows(DeleteRows(t, op).t) == left
  {
    DeleteAll.DeleteSharedIsPasses(Current(t), t.len, t.ops[op].len, KeyAt(t.content));
    hide DeleteShared, DeleteAll.Passes, KeyAt;
  }

  /** A DELETE without a condition that still holds the table's array, and finds pairwise unequal rows and no fewer
      than it had selected, leaves every second one of the first rows and the rows behind, whichever of them were
      there when it selected. */
  lemma LateDeleteAll(t: Table, op: nat)
    requires Sound(t) && op in t.ops && Live(t, t.ops[op]) && t.ops[op].len <= t.len
             && Unequal(Rows(t), KeyAt(t.content))
    ensures var r := DeleteRows(t, op);
      && r.Running? && r.t.content == t.content && r.t.ops == t.ops - {op}
      && Rows(r.t) == DeleteAll.Survivors(Rows(t), t.ops[op].len, KeyAt(t.content))
  {
    DeleteAll.UnequalDeleteAll(Current(t), t.len, t.ops[op].len, KeyAt(t.content));
    hide DeleteShared, DeleteAll.Survivors, Unequal;
  }

  /** So it may remove a row inserted after it selected, and keep one it selected. */
  lemma LaterRowIsRemoved(a: Content, b: Content, c: Content, op: nat)
    requires RowKey(a).Some? && RowKey(b).Some? && RowKey(c).Some?
    requires RowKey(a) != RowKey(b) && RowKey(a) != RowKey(c) && RowKey(b) != RowKey(c)
    ensures var r := Run(EMPTY, [Insert([NewRow(a, false), NewRow(b, false)]), Select(op, NoCondition),
                                 Insert([NewRow(c, false)]), Delete(op)]);
      r.Running? && r.t.content == [a, b, c] && Rows(r.t) == [1]
  {
    var t1 := Append(Append(EMPTY, NewRow(a, false)), NewRow(b, false));
    var t2 := SelectRows(t1, op, NoCondition);
    var t3 := Append(t2, NewRow(c, false));
    AppendTwo(EMPTY, NewRow(a, false), NewRow(b, false));
    AppendOne(t2, NewRow(c, false));
    ThreeRows(a, b, c, op);
    hide *;
    AllButOneCleared(t3, op, a, b, c);
    RunFour(Insert([NewRow(a, false), NewRow(b, false)]), Select(op, NoCondition), Insert([NewRow(c, false)]),
            Delete(op), t1, t2, t3);
  }

  /** An append to a full array that grows where it is. */
  lemma AppendInPlace(t: Table, c: Content)
    requires Sound(t) && |t.arrays| == 1 && t.len == |t.arrays[0]|
    ensures Append(t, NewRow(c, false)) == Table(t.content + [c], [t.arrays[0] + [|t.content|]], t.len + 1, t.ops)
  {
    assert t.arrays[0 := Current(t) + [|t.content|]] == [t.arrays[0] + [|t.content|]];
  }

  lemma ThreeRows(a: Content, b: Content, c: Content, op: nat)
    ensures var two := Append(Append(EMPTY, NewRow(a, false)), NewRow(b, false));
      var t := Append(SelectRows(two, op, NoCondition), NewRow(c, false));
      t.content == [a, b, c] && t.ops == map[op := Shared(0, 2)] && t.arrays == [[0, 1, 2]] && t.len == 3
  {
    hide Append;
    AppendInPlace(EMPTY, a);
    var t1 := Append(EMPTY, NewRow(a, false));
    assert [] + [a] == [a] && [] + [0] == [0];
    AppendInPlace(t1, b);
    var t2 := SelectRows(Append(t1, NewRow(b, false)), op, NoCondition);
    assert [a] + [b] == [a, b] && [0] + [1] == [0, 1] && t2.ops == map[op := Shared(0, 2)];
    AppendInPlace(t2, c);
    assert [a, b] + [c] == [a, b, c] && [0, 1] + [2] == [0, 1, 2];
  }

  lemma AllButOneCleared(t: Table, op: nat, a: Content, b: Content, c: Content)
    requires RowKey(a).Some? && RowKey(b).Some? && RowKey(c).Some?
    requires RowKey(a) != RowKey(b) && RowKey(a) != RowKey(c) && RowKey(b) != RowKey(c)
    requires t.content == [a, b, c] && op in t.ops && t.ops == map[op := Shared(0, 2)] && t.arrays == [[0, 1, 2]]
             && t.len == 3
    ensures Sound(t)
    ensures var r := DeleteRows(t, op); r.Running? && r.t.content == [a, b, c] && Rows(r.t) == [1]
  {
    hide RowKey, KeyAt, DeleteRows, DeleteAll.Survivors;
    var key, rows := KeyAt([a, b, c]), Rows(t);
    assert rows == [0, 1, 2];
    KeysOfThree(a, b, c);
    assert Unequal(rows, key);
    LateDeleteAll(t, op);
    DeleteAll.SurvivorsAt(rows, 2, key);
  }

  lemma KeysOfThree(a: Content, b: Content, c: Content)
    ensures var key := KeyAt([a, b, c]); key(0) == RowKey(a) && key(1) == RowKey(b) && key(2) == RowKey(c)
  {
    hide RowKey;
  }

  lemma AppendTwo(t: Table, a: NewRow, b: NewRow)
    requires Sound(t)
    ensures AppendAll(t, [a, b]) == Append(Append(t, a), b)
  {
    assert [a, b][1..] == [b];
    AppendOne(Append(t, a), b);
  }

  /** Rows that are not pairwise unequal are another matter: a twin of a selected row, inserted between the two steps
      of a DELETE, makes the DELETE panic. */
  lemma LateTwinPanics(c: Content, cond: Condition, op: nat)
    requires !cond.NoCondition? && Matched(c, cond) && RowKey(c).Some?
    ensures var twin := Insert([NewRow(c, false)]);
      Run(EMPTY, [twin, Select(op, cond), twin, Delete(op)]) == Crashed
  {
    var row := NewRow(c, false);
    var t1 := Append(EMPTY, row);
    var t2 := SelectRows(t1, op, cond);
    var t3 := Append(t2, row);
    OneSelected(c, cond, op);
    AppendOne(EMPTY, row);
    AppendOne(t2, row);
    hide Matched, RowKey, SelectRows, Append, AppendAll, DeleteRows;
    TwinRemoved(t3, op);
    RunFour(Insert([row]), Select(op, cond), Insert([row]), Delete(op), t1, t2, t3);
  }

  lemma AppendOne(t: Table, row: NewRow)
    requires Sound(t)
    ensures AppendAll(t, [row]) == Append(t, row)
  {
    assert [row][1..] == [];
  }

  lemma OneSelected(c: Content, cond: Condition, op: nat)
    requires !cond.NoCondition? && Matched(c, cond)
    ensures var t := SelectRows(Append(EMPTY, NewRow(c, false)), op, cond);
      t.content == [c] && Rows(t) == [0] && op in t.ops && t.ops[op] == Own([0])
  {
    hide Matched;
    var t1 := Append(EMPTY, NewRow(c, false));
    var rows: seq<Id> := [0];
    assert Rows(t1) == rows && t1.content == [c];
    assert Selected(rows[1..], MatchesAt([c], cond)) == [];
    assert Selected(rows, MatchesAt([c], cond)) == rows;
  }

  lemma TwinRemoved(t: Table, op: nat)
    requires Sound(t) && op in t.ops && t.ops[op] == Own([0]) && Rows(t) == [0, 1]
    requires |t.content| == 2 && t.content[0] == t.content[1] && RowKey(t.content[0]).Some?
    ensures DeleteRows(t, op) == Crashed
  {
    hide RowKey;
    var key := KeyAt(t.content);
    assert Hits(key, key(0), Rows(t)[0]) && LastRepeats(Rows(t), key, key(0));
    SweepLaw(Current(t), 2, key, key(0));
    hide Sweep, LastRepeats;
    assert Removed(t, t.ops[op]) == Panic;
  }

  lemma RunFour(a: Step, b: Step, c: Step, d: Step, t1: Table, t2: Table, t3: Table)
    requires Next(EMPTY, a) == Running(t1) && Sound(t1) && Next(t1, b) == Running(t2)
    requires Sound(t2) && Next(t2, c) == Running(t3) && Sound(t3)
    ensures Run(EMPTY, [a, b, c, d]) == Next(t3, d)
  {
    hide Next;
    assert [a, b, c, d][1..] == [b, c, d] && [b, c, d][1..] == [c, d] && [c, d][1..] == [d];
    assert [d][1..] == [];
    assert Run(t3, [d]) == Next(t3, d);
    assert Run(t2, [c, d]) == Next(t3, d);
    assert Run(t1, [b, c, d]) == Next(t3, d);
  }

  // Updates.

  /** UPDATE touches only row objects its selection names, wherever they are by then. */
  lemma {:induction false} UpdateTouchesOnlySelected(content: seq<Content>, ids: seq<Id>, columns: seq<Column>, id: Id)
    requires (forall i :: i in ids ==> i < |content|) && id < |content|
    ensures id !in ids ==> UpdateEach(content, ids, columns)[id] == content[id]
    ensures id in ids && Distinct(ids) ==> UpdateEach(content, ids, columns)[id] == Updated(content[id], columns)
    decreases |ids|
  {
    hide Updated;
    if ids != [] {
      assert ids[0] in ids && ids == [ids[0]] + ids[1..] && forall i :: i in ids[1..] ==> i in ids;
      var next := content[ids[0] := Updated(content[ids[0]], columns)];
      UpdateTouchesOnlySelected(next, ids[1..], columns, id);
    }
  }
}
