/** The table's own UPDATE and DELETE are the two steps of the interleaving model with nothing between them, row
    object by row object. */
module StoreSteps {
  import opened BigEndian
  import opened SliceShift
  import opened DeleteLaws
  import opened StoreRow
  import Store
  import Interleaving
  import InterleavingLaws

  // The passes of a DELETE see only the keys of the first m slots.

  /** Slot by slot, b names what a holds, and the keys are the same. */
  predicate Image<T, U(==), K(==)>(a: seq<T>, b: seq<U>, m: nat, num: T -> U, keyA: T -> Option<K>,
      keyB: U -> Option<K>) {
    && m <= |a| && m <= |b|
    && forall i :: 0 <= i < m ==> b[i] == num(a[i]) && keyB(b[i]) == keyA(a[i])
  }

  predicate SameSlice<T, U(==), K(==)>(
    r: Slice<T>, s: Slice<U>, m: nat, num: T -> U, keyA: T -> Option<K>, keyB: U -> Option<K>)
  {
    && (r.Panic? <==> s.Panic?)
    && (r.Slice? ==> r.len == s.len <= m && Image(r.back, s.back, m, num, keyA, keyB))
  }

  lemma GapImage<T, U, K>(a: seq<T>, b: seq<U>, len: nat, n: nat, m: nat, num: T -> U, keyA: T -> Option<K>,
      keyB: U -> Option<K>)
    requires n < len <= m && Image(a, b, m, num, keyA, keyB)
    ensures Image(CloseGap(a, len, n), CloseGap(b, len, n), m, num, keyA, keyB)
  {
    GapFacts(a, len, n, m);
    GapFacts(b, len, n, m);
    hide CloseGap;
  }

  lemma {:induction false} SweepImage<T, U, K>(
    a: seq<T>, b: seq<U>, len: nat, n: nat, m: nat, upto: nat, num: T -> U, keyA: T -> Option<K>, keyB: U -> Option<K>,
    k: Option<K>)
    requires len <= m <= upto && Image(a, b, upto, num, keyA, keyB)
    ensures SameSlice(Sweep(a, len, n, m, keyA, k), Sweep(b, len, n, m, keyB, k), upto, num, keyA, keyB)
    decreases m - n
  {
    hide CloseGap;
    if n < m {
      SweepStep(a, len, n, m, keyA, k);
      SweepStep(b, len, n, m, keyB, k);
      hide Sweep;
      if !Hits(keyA, k, a[n]) {
        SweepImage(a, b, len, n + 1, m, upto, num, keyA, keyB, k);
      } else if n + 1 <= len {
        GapImage(a, b, len, n, upto, num, keyA, keyB);
        SweepImage(CloseGap(a, len, n), CloseGap(b, len, n), len - 1, n + 1, m, upto, num, keyA, keyB, k);
      }
    }
  }

  lemma {:induction false} SharedImage<T, U, K>(
    a: seq<T>, b: seq<U>, len: nat, i: nat, m: nat, num: T -> U, keyA: T -> Option<K>, keyB: U -> Option<K>)
    requires len <= m && Image(a, b, m, num, keyA, keyB)
    ensures SameSlice(DeleteShared(a, len, i, m, keyA), DeleteShared(b, len, i, m, keyB), m, num, keyA, keyB)
    decreases m - i
  {
    hide Sweep;
    if i < m {
      SweepImage(a, b, len, 0, len, m, num, keyA, keyB, keyA(a[i]));
      var r, s := Sweep(a, len, 0, len, keyA, keyA(a[i])), Sweep(b, len, 0, len, keyB, keyA(a[i]));
      if r.Slice? {
        SharedImage(r.back, s.back, r.len, i + 1, m, num, keyA, keyB);
      }
    }
  }

  lemma {:induction false} ListedImage<T, U, K>(
    a: seq<T>, b: seq<U>, len: nat, m: nat, rows: seq<T>, ids: seq<U>, num: T -> U, keyA: T -> Option<K>,
    keyB: U -> Option<K>)
    requires len <= m && Image(a, b, m, num, keyA, keyB)
    requires |rows| == |ids| && Image(rows, ids, |ids|, num, keyA, keyB)
    ensures SameSlice(DeleteListed(a, len, rows, keyA), DeleteListed(b, len, ids, keyB), m, num, keyA, keyB)
    decreases |rows|
  {
    hide Sweep;
    if rows != [] {
      var k := keyA(rows[0]);
      SweepImage(a, b, len, 0, len, m, num, keyA, keyB, k);
      var r, s := Sweep(a, len, 0, len, keyA, k), Sweep(b, len, 0, len, keyB, k);
      if r.Slice? {
        ListedImage(r.back, s.back, r.len, m, rows[1..], ids[1..], num, keyA, keyB);
      }
    }
  }

  lemma {:induction false} SelectedImage<T, U, K>(
    a: seq<T>, b: seq<U>, matchesA: T -> bool, matchesB: U -> bool, num: T -> U, keyA: T -> Option<K>,
    keyB: U -> Option<K>)
    requires |a| == |b| && Image(a, b, |b|, num, keyA, keyB) && forall i :: 0 <= i < |a| ==>
             matchesB(b[i]) == matchesA(a[i])
    ensures var rows, ids := Selected(a, matchesA), Selected(b, matchesB);
      |rows| == |ids| && Image(rows, ids, |ids|, num, keyA, keyB)
    decreases |a|
  {
    if a != [] {
      SelectedImage(a[1..], b[1..], matchesA, matchesB, num, keyA, keyB);
    }
  }

  // The table of the interleaving model that numbers the rows of a slice.

  ghost predicate Numbers(back: seq<Row?>, len: nat, t: Interleaving.Table, num: Row? -> Interleaving.Id)
    reads back
  {
    && len <= |back| && null !in back[..len]
    && Interleaving.Sound(t) && t.len == len
    && forall i :: 0 <= i < len ==>
         && Interleaving.Rows(t)[i] == num(back[i]) < |t.content|
         && t.content[num(back[i])] == back[..len][i].cols
  }

  ghost function Places(rows: seq<Row?>): map<Row?, Interleaving.Id>
    requires Distinct(rows)
  {
    map i | 0 <= i < |rows| :: rows[i] := i
  }

  /** Every table has such a numbering, in the order of its rows. */
  lemma NumberingExists(back: seq<Row?>, len: nat) returns (t: Interleaving.Table, num: Row? -> Interleaving.Id)
    requires len <= |back| && null !in back[..len] && Distinct(back[..len])
    ensures Numbers(back, len, t, num) && InterleavingLaws.Increasing(Interleaving.Rows(t))
  {
    var rows := back[..len];
    var place := Places(rows);
    num := r => if r in place then place[r] else 0;
    var ids: seq<Interleaving.Id> := seq(len, i => i);
    t := Interleaving.Table(Store.Held(rows), [ids], len, map[]);
    HeldAt(rows);
    PlacesAt(rows);
    hide Places, Store.Held;
    assert Interleaving.Rows(t) == ids;
    assert forall i :: 0 <= i < len ==> num(back[i]) == i by {
      assert forall i :: 0 <= i < len ==> rows[i] == back[i];
    }
  }

  lemma PlacesAt(rows: seq<Row?>)
    requires Distinct(rows)
    ensures forall i :: 0 <= i < |rows| ==> rows[i] in Places(rows) && Places(rows)[rows[i]] == i
  {}

  lemma {:induction false} HeldAt(rows: seq<Row?>)
    requires null !in rows
    ensures forall i :: 0 <= i < |rows| ==> Store.Held(rows)[i] == rows[i].cols
    decreases |rows|
  {
    if rows != [] {
      HeldAt(rows[..|rows| - 1]);
    }
  }

  /** A row inserted in both is numbered in both. */
  lemma InsertNumbers(
    back: seq<Row?>, len: nat, t: Interleaving.Table, num: Row? -> Interleaving.Id, after: seq<Row?>, row: Row,
    moves: bool)
    requires Numbers(back, len, t, num) && row !in back[..len]
    requires len < |after| && after[..len + 1] == back[..len] + [row]
    ensures Numbers(after, len + 1, Interleaving.Append(t, Interleaving.NewRow(row.cols, moves)),
                    r => if r == row then |t.content| else num(r))
  {
    var u := Interleaving.Append(t, Interleaving.NewRow(row.cols, moves));
    hide Interleaving.Sound, Interleaving.Append;
    forall i | 0 <= i < len
      ensures after[i] == back[i] && after[i] != row && Interleaving.Rows(u)[i] == Interleaving.Rows(t)[i]
    {
      assert after[..len + 1][i] == (back[..len] + [row])[i] == back[..len][i] && back[..len][i] in back[..len];
    }
    assert after[len] == after[..len + 1][len] == row;
    assert null !in after[..len + 1];
  }

  /** Keys and conditions see the same of a row and of its number. */
  lemma NumberedAlike(back: seq<Row?>, len: nat, t: Interleaving.Table, num: Row? -> Interleaving.Id, cond: Condition)
    requires Numbers(back, len, t, num)
    ensures var m, ids := Store.ContentsOf(back), Interleaving.Rows(t);
      && Image(back[..len], ids, len, num, Store.KeyIn(m), Interleaving.KeyAt(t.content))
      && forall i :: 0 <= i < len ==>
           Interleaving.MatchesAt(t.content, cond)(ids[i]) == Store.MatchesIn(m, cond)(back[..len][i])
  {
    var m := Store.ContentsOf(back);
    hide RowKey, Matched;
    forall i | 0 <= i < len
      ensures back[..len][i] in m && m[back[..len][i]] == t.content[Interleaving.Rows(t)[i]]
    {
      assert back[..len][i] == back[i] && back[i] in back;
    }
  }

  lemma SlotsImage(back: seq<Row?>, len: nat, cond: Condition, t: Interleaving.Table, num: Row? -> Interleaving.Id)
    requires Numbers(back, len, t, num)
    ensures Image(back, Interleaving.Current(t), len, num, Store.KeyIn(Store.ContentsOf(back)),
            Interleaving.KeyAt(t.content))
  {
    NumberedAlike(back, len, t, num, cond);
    hide Interleaving.KeyAt, Store.KeyIn, Interleaving.Sound;
    assert forall i :: 0 <= i < len ==>
           back[..len][i] == back[i] && Interleaving.Rows(t)[i] == Interleaving.Current(t)[i];
  }

  lemma ChosenImage(back: seq<Row?>, len: nat, cond: Condition, t: Interleaving.Table, num: Row? -> Interleaving.Id)
    requires Numbers(back, len, t, num)
    ensures var m := Store.ContentsOf(back);
      var rows := Selected(back[..len], Store.MatchesIn(m, cond));
      var ids := Selected(Interleaving.Rows(t), Interleaving.MatchesAt(t.content, cond));
      |rows| == |ids| && Image(rows, ids, |ids|, num, Store.KeyIn(m), Interleaving.KeyAt(t.content))
  {
    NumberedAlike(back, len, t, num, cond);
    hide Interleaving.KeyAt, Store.KeyIn, Interleaving.Sound, Interleaving.MatchesAt, Store.MatchesIn, Image;
    var m := Store.ContentsOf(back);
    SelectedImage(back[..len], Interleaving.Rows(t), Store.MatchesIn(m, cond), Interleaving.MatchesAt(t.content, cond),
                  num, Store.KeyIn(m), Interleaving.KeyAt(t.content));
  }

  lemma RemovedImage(back: seq<Row?>, len: nat, cond: Condition, t: Interleaving.Table, num: Row? -> Interleaving.Id,
      op: nat)
    requires Numbers(back, len, t, num)
    ensures var v := Interleaving.SelectRows(t, op, cond);
      SameSlice(Store.Outcome(back, len, cond), Interleaving.Removed(v, v.ops[op]), len, num,
                Store.KeyIn(Store.ContentsOf(back)), Interleaving.KeyAt(t.content))
  {
    var m, ids, cur := Store.ContentsOf(back), Interleaving.Rows(t), Interleaving.Current(t);
    var keyA, keyB := Store.KeyIn(m), Interleaving.KeyAt(t.content);
    SlotsImage(back, len, cond, t, num);
    ChosenImage(back, len, cond, t, num);
    hide DeleteListed, DeleteShared, Selected, Image, SameSlice, Store.KeyIn, Interleaving.KeyAt, Store.MatchesIn,
      Interleaving.MatchesAt;
    if cond.NoCondition? {
      SharedImage(back, cur, len, 0, len, num, keyA, keyB);
    } else {
      ListedImage(back, cur, len, len, Selected(back[..len], Store.MatchesIn(m, cond)),
                  Selected(ids, Interleaving.MatchesAt(t.content, cond)), num, keyA, keyB);
    }
  }

  /** Selecting and then deleting, with nothing between, is what DELETE does to the slice: the same panic, and the
      same rows left. */
  lemma DeleteIsTwoSteps(back: seq<Row?>, len: nat, cond: Condition, t: Interleaving.Table,
      num: Row? -> Interleaving.Id, op: nat)
    requires Numbers(back, len, t, num)
    ensures var r := Store.Outcome(back, len, cond);
      match Interleaving.DeleteRows(Interleaving.SelectRows(t, op, cond), op)
      case Crashed => r.Panic?
      case Running(u) =>
        && r.Slice? && u.content == t.content && u.ops == t.ops - {op}
        && |Interleaving.Rows(u)| == r.len <= |r.back|
        && forall i :: 0 <= i < r.len ==> Interleaving.Rows(u)[i] == num(r.back[i])
  {
    RemovedImage(back, len, cond, t, num, op);
    var v := Interleaving.SelectRows(t, op, cond);
    assert v.ops - {op} == t.ops - {op};
    hide Numbers, Store.Outcome, Interleaving.Removed;
  }

  /** What an UPDATE selects. */
  lemma ChosenRows(t: Interleaving.Table, op: nat, cond: Condition)
    requires Interleaving.Sound(t) && InterleavingLaws.Increasing(Interleaving.Rows(t))
    ensures var v, ids := Interleaving.SelectRows(t, op, cond), Interleaving.Rows(t);
      var chosen := Interleaving.Ranged(v, v.ops[op]);
      && Distinct(chosen) && (forall id :: id in ids ==>
          (id in chosen <==> id < |t.content| && Matched(t.content[id], cond)))
      && forall id :: id in chosen ==> id < |t.content|
  {
    var ids, matches := Interleaving.Rows(t), Interleaving.MatchesAt(t.content, cond);
    InterleavingLaws.RowsExist(t);
    SelectedMatch(ids, matches);
    Store.SelectedDistinct(ids, matches);
  }

  /** Selecting and then updating, with nothing between, is what UPDATE does to each row of the table. */
  lemma UpdateIsTwoSteps(
    back: seq<Row?>, len: nat, cond: Condition, columns: seq<Column>, t: Interleaving.Table,
    num: Row? -> Interleaving.Id, op: nat, i: nat)
    requires Numbers(back, len, t, num) && InterleavingLaws.Increasing(Interleaving.Rows(t)) && i < len
    ensures var u, cols := Interleaving.UpdateRows(Interleaving.SelectRows(t, op, cond), op, columns),
            back[..len][i].cols;
      && Interleaving.SoundArrays(u) && Interleaving.Rows(u) == Interleaving.Rows(t) && |u.content| == |t.content|
      && u.ops == t.ops - {op}
      && u.content[num(back[i])] == if Matched(cols, cond) then Updated(cols, columns) else cols
  {
    hide Matched, Updated;
    var id, v := Interleaving.Rows(t)[i], Interleaving.SelectRows(t, op, cond);
    assert id in Interleaving.Rows(t) && id == num(back[i]) && t.content[id] == back[..len][i].cols;
    assert v.ops - {op} == t.ops - {op};
    ChosenRows(t, op, cond);
    InterleavingLaws.UpdateTouchesOnlySelected(t.content, Interleaving.Ranged(v, v.ops[op]), columns, id);
  }
}
