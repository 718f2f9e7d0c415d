/**
 Statements interleaving on one table (examples/go-postgresqld/server/store/table.go, store.go).

 UPDATE and DELETE select under the table's lock, release it, and take it again to apply; INSERT holds it once. Each
 locked region is one step. Row objects are numbered in the order they are made, arrays likewise; the table's slice is
 the first `len` slots of the newest array, and a slice handed out without a condition keeps naming its array.
 */
module Interleaving {
  import opened BigEndian
  import opened Values
  import opened SliceShift
  import opened DeleteLaws
  import opened StoreRow

  type Id = nat

  /** What an UPDATE or DELETE holds between its two steps. */
  datatype Choice = Own(rows: seq<Id>) | Shared(arr: nat, len: nat)

  datatype Table = Table(content: seq<Content>, arrays: seq<seq<Id>>, len: nat, ops: map<nat, Choice>)

  datatype State = Crashed | Running(t: Table)

  /** An inserted row; `moves` says whether an append to a full array gets a new one. */
  datatype NewRow = NewRow(content: Content, moves: bool)

  datatype Step =
    | Insert(rows: seq<NewRow>)
    | Select(op: nat, cond: Condition)
    | Update(op: nat, columns: seq<Column>)
    | Delete(op: nat)

  predicate SoundArrays(t: Table) {
    && t.arrays != [] && t.len <= |t.arrays[|t.arrays| - 1]|
    && forall a, i :: 0 <= a < |t.arrays| && 0 <= i < |t.arrays[a]| ==> t.arrays[a][i] < |t.content|
  }

  predicate SoundOp(t: Table, s: Choice) {
    match s
    case Own(rows) => forall id :: id in rows ==> id < |t.content|
    case Shared(a, n) => a < |t.arrays| && n <= |t.arrays[a]|
  }

  /** Every number names something. */
  predicate Sound(t: Table) {
    SoundArrays(t) && forall op :: op in t.ops ==> SoundOp(t, t.ops[op])
  }

  const EMPTY := Table([], [[]], 0, map[])

  function Current(t: Table): seq<Id>
    requires t.arrays != []
  {
    t.arrays[|t.arrays| - 1]
  }

  /** The table's rows. */
  function Rows(t: Table): seq<Id>
    requires SoundArrays(t)
  {
    Current(t)[..t.len]
  }

  function KeyAt(content: seq<Content>): Id -> Option<Content> {
    (id: nat) => if id < |content| then RowKey(content[id]) else None
  }

  function MatchesAt(content: seq<Content>, cond: Condition): Id -> bool {
    (id: nat) => id < |content| && Matched(content[id], cond)
  }

  /** `append(table.Rows, row)` for a new row object. */
  function Append(t: Table, row: NewRow): (r: Table)
    requires Sound(t)
    ensures Sound(r) && r.ops == t.ops && Rows(r) == Rows(t) + [|t.content|] && r.content == t.content + [row.content]
  {
    var id, cur, last := |t.content|, Current(t), |t.arrays| - 1;
    var u := t.(content := t.content + [row.content], len := t.len + 1);
    if t.len < |cur| then u.(arrays := t.arrays[last := cur[t.len := id]])
    else if row.moves then u.(arrays := t.arrays + [cur + [id]])
    else u.(arrays := t.arrays[last := cur + [id]])
  }

  function AppendAll(t: Table, rows: seq<NewRow>): (r: Table)
    requires Sound(t)
    ensures Sound(r)
    decreases |rows|
  {
    if rows == [] then t else AppendAll(Append(t, rows[0]), rows[1..])
  }

  /** The row objects a snapshot ranges over, as its array stands now. */
  function Ranged(t: Table, s: Choice): (ids: seq<Id>)
    requires Sound(t) && SoundOp(t, s)
  {
    match s
    case Own(rows) => rows
    case Shared(a, n) => t.arrays[a][..n]
  }

  function UpdateEach(content: seq<Content>, ids: seq<Id>, columns: seq<Column>): (c: seq<Content>)
    requires forall id :: id in ids ==> id < |content|
    ensures |c| == |content|
    decreases |ids|
  {
    if ids == [] then content
    else
      assert ids[0] in ids && forall id :: id in ids[1..] ==> id in ids;
      UpdateEach(content[ids[0] := Updated(content[ids[0]], columns)], ids[1..], columns)
  }

  /** The passes of a DELETE: over a list of its own, over an array the table has left, or over the table's own
      array. */
  function Removed(t: Table, s: Choice): (r: Slice<Id>)
    requires Sound(t) && SoundOp(t, s)
    ensures r.Slice? ==> r.len <= t.len && |r.back| == |Current(t)|
  {
    var key := KeyAt(t.content);
    if s.Shared? && s.arr == |t.arrays| - 1 then DeleteShared(Current(t), t.len, 0, s.len, key)
    else DeleteListed(Current(t), t.len, Ranged(t, s), key)
  }

  lemma RemovedIsSound(t: Table, s: Choice, arrays: seq<seq<Id>>)
    requires Sound(t) && SoundOp(t, s) && Removed(t, s).Slice?
    requires arrays == t.arrays[|t.arrays| - 1 := Removed(t, s).back]
    ensures Sound(t.(arrays := arrays, len := Removed(t, s).len))
  {
    var key, r := KeyAt(t.content), Removed(t, s);
    if s.Shared? && s.arr == |t.arrays| - 1 {
      SharedKeepsElements(Current(t), t.len, 0, s.len, key);
    } else {
      ListedKeepsElements(Current(t), t.len, Ranged(t, s), key);
    }
    hide Removed;
    var cur := Current(t);
    forall i | 0 <= i < |r.back|
      ensures r.back[i] < |t.content|
    {
      assert r.back[i] in cur;
      var j :| 0 <= j < |cur| && cur[j] == r.back[i];
    }
  }

  function SelectRows(t: Table, op: nat, cond: Condition): (r: Table)
    requires Sound(t)
    ensures Sound(r)
  {
    if cond.NoCondition? then t.(ops := t.ops[op := Shared(|t.arrays| - 1, t.len)])
    else
      SelectedMatch(Rows(t), MatchesAt(t.content, cond));
      t.(ops := t.ops[op := Own(Selected(Rows(t), MatchesAt(t.content, cond)))])
  }

  function UpdateRows(t: Table, op: nat, columns: seq<Column>): (r: Table)
    requires Sound(t)
    ensures Sound(r)
  {
    if op !in t.ops then t
    else t.(content := UpdateEach(t.content, Ranged(t, t.ops[op]), columns), ops := t.ops - {op})
  }

  function DeleteRows(t: Table, op: nat): (r: State)
    requires Sound(t)
    ensures r.Running? ==> Sound(r.t)
  {
    if op !in t.ops then Running(t)
    else
      match Removed(t, t.ops[op])
      case Panic => Crashed
      case Slice(back, len) =>
        var arrays := t.arrays[|t.arrays| - 1 := back];
        RemovedIsSound(t, t.ops[op], arrays);
        Running(t.(arrays := arrays, len := len, ops := t.ops - {op}))
  }

  /** One locked region. */
  function Next(t: Table, step: Step): (r: State)
    requires Sound(t)
    ensures r.Running? ==> Sound(r.t)
  {
    match step
    case Insert(rows) => Running(AppendAll(t, rows))
    case Select(op, cond) => Running(SelectRows(t, op, cond))
    case Update(op, columns) => Running(UpdateRows(t, op, columns))
    case Delete(op) => DeleteRows(t, op)
  }

  /** Any interleaving of steps, up to a panic. */
  function Run(t: Table, steps: seq<Step>): (r: State)
    requires Sound(t)
    ensures r.Running? ==> Sound(r.t)
    decreases |steps|
  {
    if steps == [] then Running(t)
    else
      match Next(t, steps[0])
      case Crashed => Crashed
      case Running(u) => Run(u, steps[1..])
  }
}
