/** DELETE without a condition: it ranges over the array it is shifting, under the length the table had at the start. */
module DeleteAll {
  import opened BigEndian
  import opened SliceShift
  import opened DeleteLaws

  predicate Absent<T, K(==)>(s: seq<T>, key: T -> Option<K>, k: Option<K>) {
    forall j :: 0 <= j < |s| ==> !Hits(key, k, s[j])
  }

  /** The slots behind the end hold what was the last row. */
  predicate Trailing<T(==)>(back: seq<T>, len: nat, m: nat, last: T)
    requires len <= m <= |back|
  {
    forall j :: len <= j < m ==> back[j] == last
  }

  /** A pass that does not hit the last row leaves it last, with as many equal to it as before. */
  lemma PassKeepsLast<T, K>(back: seq<T>, len: nat, m: nat, key: T -> Option<K>, k: Option<K>, last: T)
    requires 0 < len <= m <= |back| && back[len - 1] == last && Trailing(back, len, m, last) && !Hits(key, k, last)
    ensures var s := Sweep(back, len, 0, len, key, k);
      && s.Slice? && 0 < s.len && s.back[s.len - 1] == last && Trailing(s.back, s.len, m, last)
          && s.back[len..] == back[len..]
      && (LastRepeats(s.back[..s.len], key, key(last)) <==> LastRepeats(back[..len], key, key(last)))
  {
    var list := back[..len];
    SweepLaw(back, len, key, k);
    var s := Sweep(back, len, 0, len, key, k);
    var t := Thin(list, key, k);
    ThinKeepsLast(list, key, k);
    PassKeepsTrailing(back, len, m, key, k, last);
    hide Thin, Sweep, Trailing;
    assert s.back[..s.len] == t && t[|t| - 1] == s.back[s.len - 1];
    LastRepeatsIff(list, key, key(last));
    LastRepeatsIff(t, key, key(last));
    if key(last).Some? {
      ThinCount(list, key, k, key(last));
    }
  }

  /** If the last row has an equal before it, the pass for the last row comes while both are there. */
  lemma {:induction false} RepeatedLastPanics<T, K>(back: seq<T>, len: nat, i: nat, m: nat, key: T -> Option<K>,
      last: T)
    requires 0 < len <= m <= |back| && i < m && back[len - 1] == last && back[m - 1] == last
             && Trailing(back, len, m, last)
    requires LastRepeats(back[..len], key, key(last))
    ensures DeleteShared(back, len, i, m, key).Panic?
    decreases m - i
  {
    hide Sweep, LastRepeats;
    var k := key(back[i]);
    HasKey(back[..len], key, key(last));
    if Hits(key, k, last) {
      SweepLaw(back, len, key, k);
    } else {
      PassKeepsLast(back, len, m, key, k, last);
      var s := Sweep(back, len, 0, len, key, k);
      assert s.back[m - 1] == last by {
        assert m > len ==> s.back[m - 1] == s.back[len..][m - 1 - len] == back[len..][m - 1 - len];
      }
      RepeatedLastPanics(s.back, s.len, i + 1, m, key, last);
    }
  }

  lemma HasKey<T, K>(s: seq<T>, key: T -> Option<K>, k: Option<K>)
    requires LastRepeats(s, key, k)
    ensures k.Some?
  {}

  /** Passes for a row that equals nothing left change nothing. */
  lemma {:induction false} NothingToRemove<T, K>(back: seq<T>, len: nat, i: nat, m: nat, key: T -> Option<K>,
      k: Option<K>)
    requires len <= |back| && m <= |back| && Absent(back[..len], key, k) && forall j :: i <= j < m ==> key(back[j]) == k
    ensures DeleteShared(back, len, i, m, key) == Slice(back, len)
    decreases m - i
  {
    hide Sweep, Hits;
    if i < m {
      SweepLaw(back, len, key, k);
      NothingThinned(back[..len], key, k);
      hide Thin;
      var s := Sweep(back, len, 0, len, key, k);
      assert !LastRepeats(back[..len], key, k);
      assert s.back == s.back[..len] + s.back[len..] && back == back[..len] + back[len..];
      NothingToRemove(back, len, i + 1, m, key, k);
    }
  }

  lemma LastAlone<T, K>(back: seq<T>, len: nat, i: nat, m: nat, key: T -> Option<K>, last: T)
    requires 0 < len <= m <= |back| && i < m && back[len - 1] == last && Trailing(back, len, m, last)
    requires !LastRepeats(back[..len], key, key(last)) && Hits(key, key(last), back[i])
    ensures len - 1 <= i && Absent(back[..len - 1], key, key(last)) && key(back[i]) == key(last)
    ensures forall j :: i < j < m ==> back[j] == last
  {
    var k, list := key(last), back[..len];
    assert list[|list| - 1] == last;
    if i < len - 1 {
      RepeatsAt(list, i, key, k);
    }
    var before := back[..len - 1];
    assert forall j :: 0 <= j < |before| ==> before[j] == list[j];
  }

  lemma LastPass<T, K>(back: seq<T>, len: nat, m: nat, key: T -> Option<K>, last: T)
    requires 0 < len <= m <= |back| && back[len - 1] == last && Trailing(back, len, m, last)
    requires Absent(back[..len - 1], key, key(last)) && key(last).Some?
    ensures var s := Sweep(back, len, 0, len, key, key(last));
      && s.Slice? && s.len == len - 1 && s.back[..s.len] == back[..len - 1]
      && forall j :: len - 1 <= j < m ==> s.back[j] == last
  {
    var k, list := key(last), back[..len];
    assert forall j :: 0 <= j < len - 1 ==> list[j] == back[..len - 1][j];
    SweepLast(back, len, key, k);
    assert !LastRepeats(list, key, k);
  }

  /** A pass for the last row, which is alone of its kind, takes it alone; the passes to come are for it too. */
  lemma LastGoes<T, K>(back: seq<T>, len: nat, i: nat, m: nat, key: T -> Option<K>, last: T)
    requires 0 < len <= m <= |back| && i < m && back[len - 1] == last && Trailing(back, len, m, last)
    requires !LastRepeats(back[..len], key, key(last)) && Hits(key, key(last), back[i])
    ensures var r := DeleteShared(back, len, i, m, key);
            r.Slice? && r.len == len - 1 && r.back[..r.len] == back[..len - 1]
  {
    LastAlone(back, len, i, m, key, last);
    LastPass(back, len, m, key, last);
    hide *;
    SharedStep(back, len, i, m, key);
    var s := Sweep(back, len, 0, len, key, key(last));
    NothingToRemove(s.back, s.len, i + 1, m, key, key(last));
  }

  lemma {:induction false} SingleLastRuns<T, K>(back: seq<T>, len: nat, i: nat, m: nat, key: T -> Option<K>, last: T)
    requires 0 < len <= m <= |back| && back[len - 1] == last && Trailing(back, len, m, last)
    requires !LastRepeats(back[..len], key, key(last))
    ensures DeleteShared(back, len, i, m, key).Slice?
    decreases m - i
  {
    hide Sweep, LastRepeats;
    if i < m {
      var k := key(back[i]);
      if Hits(key, k, last) {
        LastGoes(back, len, i, m, key, last);
      } else {
        PassKeepsLast(back, len, m, key, k, last);
        var s := Sweep(back, len, 0, len, key, k);
        SingleLastRuns(s.back, s.len, i + 1, m, key, last);
      }
    }
  }

  /** For every table: DELETE without a condition panics exactly when a row before the last one equals it. */
  lemma DeleteAllPanicsIff<T, K>(back: seq<T>, len: nat, key: T -> Option<K>)
    requires len <= |back|
    ensures DeleteShared(back, len, 0, len, key).Panic? <==>
            0 < len && LastRepeats(back[..len], key, key(back[len - 1]))
  {
    hide DeleteShared, LastRepeats;
    if 0 < len {
      var last := back[len - 1];
      if LastRepeats(back[..len], key, key(last)) {
        RepeatedLastPanics(back, len, 0, len, key, last);
      } else {
        SingleLastRuns(back, len, 0, len, key, last);
      }
    } else {
      SharedEnd(back, 0, 0, key);
    }
  }

  /** What n passes leave of pairwise unequal rows: a row that equals itself goes and the one behind it is passed over,
      unless that is the last and there is one more pass; a row that does not equal itself stays. */
  function {:tailrecursion false} Survivors<T, K>(s: seq<T>, n: nat, key: T -> Option<K>): seq<T>
    decreases |s|
  {
    if s == [] || n == 0 then s
    else if key(s[0]).None? then [s[0]] + Survivors(s[1..], n - 1, key)
    else if |s| == 1 || (|s| == 2 && n > 1 && key(s[1]).Some?) then []
    else [s[1]] + Survivors(s[2..], n - 1, key)
  }

  /** Of rows that all equal themselves n passes leave those at odd positions and those behind the first 2n; passes
      enough for the whole list take its last row too. */
  lemma {:induction false} SurvivorsAt<T, K>(s: seq<T>, n: nat, key: T -> Option<K>)
    requires forall j :: 0 <= j < |s| ==> key(s[j]).Some?
    ensures |Survivors(s, n, key)| == if 2 * n <= |s| then |s| - n else if s == [] then 0 else (|s| - 1) / 2
    ensures forall j :: 0 <= j < |Survivors(s, n, key)| ==>
            Survivors(s, n, key)[j] == s[if j < n then 2 * j + 1 else j + n]
    decreases |s|
  {
    if |s| >= 2 && n > 0 {
      var rest := s[2..];
      assert forall j :: 0 <= j < |rest| ==> rest[j] == s[j + 2];
      SurvivorsAt(rest, n - 1, key);
      var t := Survivors(s, n, key);
      if t != [] {
        forall j | 0 <= j < |t|
          ensures t[j] == s[if j < n then 2 * j + 1 else j + n]
        {
          assert j > 0 ==> t[j] == Survivors(rest, n - 1, key)[j - 1];
        }
      }
    }
  }

  lemma {:induction false} DropOne<T, K>(s: seq<T>, i: nat, key: T -> Option<K>, k: Option<K>)
    requires Unequal(s, key) && i < |s| && Hits(key, k, s[i])
    ensures Drop(s, key, k) == s[..i] + s[i + 1..]
    decreases |s|
  {
    DropStep(s, key, k);
    NothingRepeats(s, key, k);
    if i == 0 {
      DropNothing(s[1..], key, k);
    } else {
      assert !Hits(key, k, s[0]) by {
        assert !Hits(key, key(s[i]), s[0]);
      }
      UnequalBehind(s, key);
      hide Unequal, Drop, Hits;
      DropOne(s[1..], i - 1, key, k);
      assert s[1..][..i - 1] == s[1..i] && s[1..][i..] == s[i + 1..] && s[..i] == [s[0]] + s[1..i];
    }
  }

  /** One pass over pairwise unequal rows, for one of them. */
  lemma UnequalPass<T, K>(back: seq<T>, len: nat, i: nat, m: nat, key: T -> Option<K>, last: T)
    requires i < len <= m <= |back| && Unequal(back[..len], key) && back[len - 1] == last
             && Trailing(back, len, m, last)
    ensures var k := key(back[i]);
      var s := Sweep(back, len, 0, len, key, k);
      && s.Slice? && Unequal(s.back[..s.len], key) && Trailing(s.back, s.len, m, last)
      && s.back[..s.len] == back[..i] + back[if k.Some? then i + 1 else i..len]
  {
    hide Sweep, Unequal, Trailing;
    var k := key(back[i]);
    PassKeepsUnequal(back, len, key, k);
    PassKeepsTrailing(back, len, m, key, k, last);
    DropAt(back, len, i, key);
  }

  lemma DropAt<T, K>(back: seq<T>, len: nat, i: nat, key: T -> Option<K>)
    requires i < len <= |back| && Unequal(back[..len], key)
    ensures Drop(back[..len], key, key(back[i])) == back[..i] + back[if key(back[i]).Some? then i + 1 else i..len]
  {
    hide Unequal, Drop;
    var list := back[..len];
    if key(back[i]).Some? {
      DropOne(list, i, key, key(back[i]));
      assert list[..i] == back[..i] && list[i + 1..] == back[i + 1..len];
    } else {
      DropNothing(list, key, None);
      assert list == back[..i] + back[i..len];
    }
  }

  lemma PassKeepsTrailing<T, K>(back: seq<T>, len: nat, m: nat, key: T -> Option<K>, k: Option<K>, last: T)
    requires 0 < len <= m <= |back| && back[len - 1] == last && Trailing(back, len, m, last)
    ensures var s := Sweep(back, len, 0, len, key, k); s.Slice? ==> Trailing(s.back, s.len, m, last)
  {
    SweepLaw(back, len, key, k);
    hide Sweep, Thin;
    var s := Sweep(back, len, 0, len, key, k);
    if s.Slice? {
      forall j | s.len <= j < m
        ensures s.back[j] == last
      {
        assert j >= len ==> s.back[j] == s.back[len..][j - len] == back[len..][j - len] == back[j];
      }
    }
  }

  lemma SurvivorsFirst<T, K>(back: seq<T>, i: nat, len: nat, n: nat, key: T -> Option<K>)
    requires i < len <= |back| && n > 0
    ensures var rest := Survivors(back[i..len], n, key);
      && (key(back[i]).None? ==> rest == [back[i]] + Survivors(back[i + 1..len], n - 1, key))
      && (key(back[i]).Some? && i + 1 == len ==> rest == [])
      && (key(back[i]).Some? && i + 2 == len && n > 1 && key(back[i + 1]).Some? ==> rest == [])
      && (key(back[i]).Some? && i + 1 < len && !(i + 2 == len && n > 1 && key(back[i + 1]).Some?) ==>
            rest == [back[i + 1]] + Survivors(back[i + 2..len], n - 1, key))
  {
    var u := back[i..len];
    assert u[1..] == back[i + 1..len];
    assert i + 1 < len ==> u[2..] == back[i + 2..len];
  }

  lemma SurvivorsNone<T, K>(s: seq<T>, n: nat, key: T -> Option<K>)
    requires s == [] || n == 0
    ensures Survivors(s, n, key) == s
  {}

  /** From the pass for slot i on, those before it stay and those from it on are thinned out. */
  predicate Leaves<T(==), K(==)>(back: seq<T>, len: nat, i: nat, m: nat, key: T -> Option<K>)
    requires i <= len <= |back| && i <= m <= |back|
  {
    var r := DeleteShared(back, len, i, m, key);
    r.Slice? && r.back[..r.len] == back[..i] + Survivors(back[i..len], m - i, key)
  }

  lemma {:induction false} SurvivorsStay<T, K>(back: seq<T>, len: nat, i: nat, m: nat, upto: nat, key: T -> Option<K>,
      last: T)
    requires i < len <= upto <= |back| && i <= m <= upto
    requires Unequal(back[..len], key) && back[len - 1] == last && Trailing(back, len, upto, last)
    ensures Leaves(back, len, i, m, key)
    decreases m - i
  {
    hide Sweep, Survivors, Unequal, DeleteShared, Hits, Trailing, Leaves;
    if i == m {
      NothingToDo(back, len, m, key);
    } else {
      UnequalPass(back, len, i, upto, key, last);
      var s := Sweep(back, len, 0, len, key, key(back[i]));
      PassLeaves(back, len, i, key(back[i]), s);
      if i + 1 == len {
        PassForLast(back, len, i, m, upto, key, last);
      } else if key(back[i]).None? {
        SurvivorsStay(s.back, len, i + 1, m, upto, key, last);
        KeylessIsPassed(back, s.back, len, i, m, key);
      } else if i + 2 < len {
        SurvivorsStay(s.back, len - 1, i + 1, m, upto, key, last);
        NextMovesUp(back, s.back, len, i, m, key);
      } else {
        LastPassedOver(back, s.back, i, m, upto, key, last);
      }
    }
  }

  lemma NothingToDo<T, K>(back: seq<T>, len: nat, m: nat, key: T -> Option<K>)
    requires m <= len <= |back|
    ensures Leaves(back, len, m, m, key)
  {
    assert back[..m] + back[m..len] == back[..len];
  }

  /** The list behind one pass, slot by slot. */
  lemma PassLeaves<T, K>(back: seq<T>, len: nat, i: nat, k: Option<K>, s: Slice<T>)
    requires i < len <= |back| && s.Slice? && s.len <= |s.back|
    requires s.back[..s.len] == back[..i] + back[if k.Some? then i + 1 else i..len]
    ensures s.len == if k.Some? then len - 1 else len
    ensures s.back[..i] == back[..i]
    ensures k.None? ==> s.back[..len] == back[..len]
    ensures k.Some? && i + 1 < len ==>
              s.back[i] == back[i + 1] && s.back[i + 1..len - 1] == back[i + 2..len] && s.back[len - 2] == back[len - 1]
  {
    var t := back[..i] + back[if k.Some? then i + 1 else i..len];
    assert |t| == s.len && forall j :: 0 <= j < s.len ==> s.back[j] == t[j];
  }

  lemma SameList<T>(back: seq<T>, b: seq<T>, i: nat, len: nat)
    requires i < len <= |back| == |b| && b[..len] == back[..len]
    ensures b[..i + 1] == back[..i] + [back[i]] && b[i + 1..len] == back[i + 1..len]
  {
    assert b[..i + 1] == b[..len][..i + 1] && back[..i + 1] == back[..len][..i + 1];
    assert b[i + 1..len] == b[..len][i + 1..] && back[i + 1..len] == back[..len][i + 1..];
  }

  /** If one pass leaves b, and b keeps x behind the first i, then so does what was there before the pass. */
  lemma OneMoreLeaves<T, K>(back: seq<T>, b: seq<T>, len: nat, l: nat, i: nat, m: nat, key: T -> Option<K>, x: T)
    requires i < len <= |back| == |b| && i < l <= |b| && i < m <= |back|
    requires Sweep(back, len, 0, len, key, key(back[i])) == Slice(b, l) && Leaves(b, l, i + 1, m, key)
    requires b[..i + 1] == back[..i] + [x]
    requires Survivors(back[i..len], m - i, key) == [x] + Survivors(b[i + 1..l], m - i - 1, key)
    ensures Leaves(back, len, i, m, key)
  {
    SharedStep(back, len, i, m, key);
    hide Sweep, Survivors, DeleteShared;
    var rest := Survivors(b[i + 1..l], m - (i + 1), key);
    assert (back[..i] + [x]) + rest == back[..i] + ([x] + rest);
  }

  lemma KeylessIsPassed<T, K>(back: seq<T>, b: seq<T>, len: nat, i: nat, m: nat, key: T -> Option<K>)
    requires i + 1 < len <= |back| == |b| && i < m <= |back| && key(back[i]).None? && b[..len] == back[..len]
    requires Sweep(back, len, 0, len, key, key(back[i])) == Slice(b, len) && Leaves(b, len, i + 1, m, key)
    ensures Leaves(back, len, i, m, key)
  {
    hide *;
    SurvivorsFirst(back, i, len, m - i, key);
    SameList(back, b, i, len);
    OneMoreLeaves(back, b, len, len, i, m, key, back[i]);
  }

  lemma NextMovesUp<T, K>(back: seq<T>, b: seq<T>, len: nat, i: nat, m: nat, key: T -> Option<K>)
    requires i + 2 < len <= |back| == |b| && i < m <= |back| && key(back[i]).Some?
    requires b[..i] == back[..i] && b[i] == back[i + 1] && b[i + 1..len - 1] == back[i + 2..len]
    requires Sweep(back, len, 0, len, key, key(back[i])) == Slice(b, len - 1) && Leaves(b, len - 1, i + 1, m, key)
    ensures Leaves(back, len, i, m, key)
  {
    hide *;
    SurvivorsFirst(back, i, len, m - i, key);
    assert b[..i + 1] == b[..i] + [b[i]];
    OneMoreLeaves(back, b, len, len - 1, i, m, key, back[i + 1]);
  }

  /** The pass for the last slot of the list. */
  lemma PassForLast<T, K>(back: seq<T>, len: nat, i: nat, m: nat, upto: nat, key: T -> Option<K>, last: T)
    requires i + 1 == len <= upto <= |back| && i < m <= upto
    requires Unequal(back[..len], key) && back[len - 1] == last
    requires var s := Sweep(back, len, 0, len, key, key(last));
      && s.Slice? && s.len == (if key(last).Some? then len - 1 else len) && s.back[..s.len] == back[..s.len]
      && Trailing(s.back, s.len, upto, last)
    ensures Leaves(back, len, i, m, key)
  {
    hide Sweep, Survivors, Unequal, DeleteShared, Trailing;
    var s := Sweep(back, len, 0, len, key, key(last));
    SharedStep(back, len, i, m, key);
    SurvivorsFirst(back, i, len, m - i, key);
    SurvivorsNone(back[len..len], m - i - 1, key);
    OnlyLastLeft(back, len, s.back, s.len, i + 1, m, upto, key, last);
    assert back[..i] + [last] == back[..len];
  }

  /** The last row has been passed over: another pass would be for it. */
  lemma LastPassedOver<T, K>(back: seq<T>, b: seq<T>, i: nat, m: nat, upto: nat, key: T -> Option<K>, last: T)
    requires i + 2 <= upto <= |back| == |b| && i < m <= upto && key(back[i]).Some? && back[i + 1] == last
    requires b[..i] == back[..i] && b[i] == last && Unequal(b[..i + 1], key) && Trailing(b, i + 1, upto, last)
    requires Sweep(back, i + 2, 0, i + 2, key, key(back[i])) == Slice(b, i + 1)
    ensures Leaves(back, i + 2, i, m, key)
  {
    SharedStep(back, i + 2, i, m, key);
    SurvivorsFirst(back, i, i + 2, m - i, key);
    SurvivorsNone(back[i + 2..i + 2], m - i - 1, key);
    hide Sweep, Unequal, DeleteShared, Hits, Survivors;
    assert b[..i + 1] == b[..i] + [last];
    if m == i + 1 {
      SharedEnd(b, i + 1, m, key);
    } else if key(last).Some? {
      OneRepeats(b[..i + 1], key, key(last));
      SelfHits(key, last);
      LastGoes(b, i + 1, i + 1, m, key, last);
    } else {
      NothingHits(b[..i + 1], key);
      NothingToRemove(b, i + 1, i + 1, m, key, None);
    }
  }

  lemma SharedEnd<T, K>(back: seq<T>, len: nat, m: nat, key: T -> Option<K>)
    requires len <= |back| && m <= |back|
    ensures DeleteShared(back, len, m, m, key) == Slice(back, len)
  {}

  /** The last row has had its pass: the slots to come hold it, and it equals nothing left. */
  lemma OnlyLastLeft<T, K>(back: seq<T>, len: nat, b: seq<T>, l: nat, i: nat, m: nat, upto: nat,
    key: T -> Option<K>, last: T)
    requires 0 < len <= upto <= |back| && m <= upto && |b| == |back| && Unequal(back[..len], key)
             && back[len - 1] == last
    requires i == len && l == (if key(last).Some? then len - 1 else len) && b[..l] == back[..l]
             && Trailing(b, l, upto, last)
    ensures DeleteShared(b, l, i, m, key) == Slice(b, l)
  {
    assert Absent(b[..l], key, key(last)) by {
      if key(last).Some? {
        forall j | 0 <= j < l
          ensures !Hits(key, key(last), b[..l][j])
        {
          assert back[..len][j] == back[..l][j] && back[..len][len - 1] == last;
        }
      }
    }
    NothingToRemove(b, l, i, m, key, key(last));
  }

  lemma SharedStep<T, K>(back: seq<T>, len: nat, i: nat, m: nat, key: T -> Option<K>)
    requires len <= |back| && i < m <= |back|
    ensures DeleteShared(back, len, i, m, key) ==
            match Sweep(back, len, 0, len, key, key(back[i]))
            case Panic => Panic
            case Slice(b, l) => DeleteShared(b, l, i + 1, m, key)
  {}

  lemma OneRepeats<T, K>(s: seq<T>, key: T -> Option<K>, k: Option<K>)
    requires Unequal(s, key)
    ensures !LastRepeats(s, key, k)
  {
    NothingRepeats(s, key, k);
  }

  lemma SelfHits<T, K>(key: T -> Option<K>, x: T)
    requires key(x).Some?
    ensures Hits(key, key(x), x)
  {}

  lemma NothingHits<T, K>(s: seq<T>, key: T -> Option<K>)
    ensures Absent(s, key, None)
  {}

  /** DELETE without a condition on a table without equal rows, whose selection was made when it had m rows. */
  lemma UnequalDeleteAll<T, K>(back: seq<T>, len: nat, m: nat, key: T -> Option<K>)
    requires m <= len <= |back| && Unequal(back[..len], key)
    ensures var r := DeleteShared(back, len, 0, m, key);
      r.Slice? && r.back[..r.len] == Survivors(back[..len], m, key)
  {
    hide Unequal, DeleteShared, Survivors;
    if len == 0 {
      SharedEnd(back, 0, 0, key);
      SurvivorsNone(back[..0], 0, key);
    } else {
      SurvivorsStay(back, len, 0, m, len, key, back[len - 1]);
      assert back[..0] == [] && back[0..len] == back[..len];
    }
  }

  // Any table, and a selection of any length.

  /** What the passes do to the list of rows, one for each slot the selection names: for the row that is then in the
      slot, or for what is left behind the end of the list. */
  function Passes<T, K(==)>(s: seq<T>, behind: seq<T>, i: nat, key: T -> Option<K>): Option<seq<T>>
    decreases |behind| - i
  {
    if i >= |behind| then Some(s)
    else
      var k := key(if i < |s| then s[i] else behind[i]);
      if LastRepeats(s, key, k) then None else Passes(Thin(s, key, k), behind, i + 1, key)
  }

  /** Behind the end of the list: its last row, as far as the list went, and then what the array holds there. */
  function Behind<T>(back: seq<T>, len: nat, m: nat): (b: seq<T>)
    requires len <= |back| && m <= |back|
    ensures |b| == m && forall j :: 0 <= j < m ==> b[j] == if j < len then back[len - 1] else back[j]
  {
    seq(m, j requires 0 <= j < m => if j < len then back[len - 1] else back[j])
  }

  /** The slots to come hold what `behind` says, and will do so while the list shrinks. */
  predicate Foreseen<T(==)>(back: seq<T>, len: nat, i: nat, behind: seq<T>)
    requires len <= |back| && |behind| <= |back|
  {
    && (forall j :: i <= j < |behind| && len <= j ==> back[j] == behind[j])
    && (len <= i || forall j :: i <= j < |behind| && j < len ==> behind[j] == back[len - 1])
  }

  lemma PassForeseen<T, K>(back: seq<T>, len: nat, i: nat, behind: seq<T>, key: T -> Option<K>)
    requires len <= |back| && i < |behind| <= |back| && Foreseen(back, len, i, behind)
    ensures var s := Sweep(back, len, 0, len, key, key(back[i]));
      s.Slice? ==> Foreseen(s.back, s.len, i + 1, behind)
  {
    var k, list := key(back[i]), back[..len];
    SweepLaw(back, len, key, k);
    var s := Sweep(back, len, 0, len, key, k);
    if s.Slice? {
      if i < len {
        LastStaysOrIsHere(back, len, i, key);
      }
      hide Sweep, Thin, LastRepeats, Hits;
      forall j | i + 1 <= j < |behind| && s.len <= j
        ensures s.back[j] == behind[j]
      {
        if j >= len {
          assert s.back[j] == s.back[len..][j - len] == back[len..][j - len] == back[j];
        } else {
          assert s.back[j] == back[len - 1];
        }
      }
    }
  }

  /** The pass for a row of the list keeps the last one in its place, unless it is the pass for the last slot. */
  lemma LastStaysOrIsHere<T, K>(back: seq<T>, len: nat, i: nat, key: T -> Option<K>)
    requires i < len <= |back|
    ensures var s := Sweep(back, len, 0, len, key, key(back[i]));
      s.Slice? ==> i == len - 1 || (0 < s.len && s.back[s.len - 1] == back[len - 1])
  {
    var k, list := key(back[i]), back[..len];
    if i < len - 1 {
      SweepLaw(back, len, key, k);
      if Hits(key, k, list[len - 1]) {
        RepeatsAt(list, i, key, k);
      } else {
        ThinKeepsLast(list, key, k);
        var s := Sweep(back, len, 0, len, key, k);
        assert s.back[..s.len][s.len - 1] == s.back[s.len - 1];
      }
    }
  }

  lemma {:induction false} PassesFrom<T, K>(back: seq<T>, len: nat, i: nat, behind: seq<T>, key: T -> Option<K>)
    requires len <= |back| && |behind| <= |back| && Foreseen(back, len, i, behind)
    ensures var r, p := DeleteShared(back, len, i, |behind|, key), Passes(back[..len], behind, i, key);
      (r.Panic? <==> p.None?) && (r.Slice? ==> p == Some(r.back[..r.len]))
    decreases |behind| - i
  {
    hide Sweep, Thin, LastRepeats;
    if i < |behind| {
      var k := key(back[i]);
      assert back[i] == if i < len then back[..len][i] else behind[i];
      SweepLaw(back, len, key, k);
      PassForeseen(back, len, i, behind, key);
      hide Foreseen;
      var s := Sweep(back, len, 0, len, key, k);
      if s.Slice? {
        PassesFrom(s.back, s.len, i + 1, behind, key);
      }
    }
  }

  /** DELETE without a condition, for every table and a selection of any m slots of its array: it panics exactly when
      one of the passes over the list does, and otherwise leaves what they leave. */
  lemma DeleteSharedIsPasses<T, K>(back: seq<T>, len: nat, m: nat, key: T -> Option<K>)
    requires len <= |back| && m <= |back|
    ensures var r, p := DeleteShared(back, len, 0, m, key), Passes(back[..len], Behind(back, len, m), 0, key);
      (r.Panic? <==> p.None?) && (r.Slice? ==> p == Some(r.back[..r.len]))
  {
    PassesFrom(back, len, 0, Behind(back, len, m), key);
  }

  /** Of equal rows in front a twin stays, though it was selected. */
  lemma TwinStays<T, K>(a: T, b: T, c: T, key: T -> Option<K>)
    requires key(a).Some? && key(b).Some? && key(c).Some?
    requires key(a) != key(b) && key(a) != key(c) && key(b) != key(c)
    ensures var r := DeleteShared([a, a, b, c], 4, 0, 4, key); r.Slice? && r.back[..r.len] == [a]
  {
    var behind := Behind([a, a, b, c], 4, 4);
    DeleteSharedIsPasses([a, a, b, c], 4, 4, key);
    assert [a, a, b, c][..4] == [a, a, b, c];
    hide Passes, Thin, DeleteShared;
    PassFirst([a, a, b, c], behind, 0, key);
    ThinHit([a, a, b, c], key, key(a));
    NothingThinned([b, c], key, key(a));
    assert [a, a, b, c][2..] == [b, c] && [a] + [b, c] == [a, b, c];
    PassFirst([a, b, c], behind, 1, key);
    DropMiddle(a, b, c, key);
    PassFirst([a, c], behind, 2, key);
    DropLast(a, c, key);
    PassFirst([a], behind, 3, key);
    NothingThinned([a], key, key(c));
    PassesEnd([a], behind, key);
  }

  lemma PassFirst<T, K>(s: seq<T>, behind: seq<T>, i: nat, key: T -> Option<K>)
    requires i < |behind|
    ensures var k := key(if i < |s| then s[i] else behind[i]);
      Passes(s, behind, i, key) == if LastRepeats(s, key, k) then None else Passes(Thin(s, key, k), behind, i + 1, key)
  {}

  lemma PassesEnd<T, K>(s: seq<T>, behind: seq<T>, key: T -> Option<K>)
    ensures Passes(s, behind, |behind|, key) == Some(s)
  {}

  lemma DropMiddle<T, K>(a: T, b: T, c: T, key: T -> Option<K>)
    requires key(b).Some? && key(a) != key(b) && key(c) != key(b)
    ensures Thin([a, b, c], key, key(b)) == [a, c]
  {
    ThinMiss([a, b, c], key, key(b));
    assert [a, b, c][1..] == [b, c] && [b, c][2..] == [];
    ThinHit([b, c], key, key(b));
  }

  lemma DropLast<T, K>(a: T, c: T, key: T -> Option<K>)
    requires key(c).Some? && key(a) != key(c)
    ensures Thin([a, c], key, key(c)) == [a]
  {
    ThinMiss([a, c], key, key(c));
    assert [a, c][1..] == [c];
  }

  // When the table ends up empty.

  /** A stale slot holds a former last row: no row equals it any more, or the present last row does. */
  predicate FormerLasts<T, K(==)>(back: seq<T>, len: nat, m: nat, key: T -> Option<K>)
    requires len <= m <= |back|
  {
    forall j :: len <= j < m ==>
      Absent(back[..len], key, key(back[j])) || (0 < len && Hits(key, key(back[j]), back[len - 1]))
  }

  lemma PassKeepsFormerLasts<T, K>(back: seq<T>, len: nat, m: nat, key: T -> Option<K>, k: Option<K>)
    requires 0 < len <= m <= |back| && FormerLasts(back, len, m, key)
    ensures var s := Sweep(back, len, 0, len, key, k);
      s.Slice? ==> FormerLasts(s.back, s.len, m, key)
  {
    var list := back[..len];
    SweepLaw(back, len, key, k);
    var s := Sweep(back, len, 0, len, key, k);
    if s.Slice? {
      var t := Thin(list, key, k);
      var last := back[len - 1];
      assert list[|list| - 1] == last;
      hide Thin, Sweep;
      forall j | s.len <= j < m
        ensures Absent(t, key, key(s.back[j])) || (0 < s.len && Hits(key, key(s.back[j]), s.back[s.len - 1]))
      {
        if j < len {
          assert s.back[j] == last;
        } else {
          assert s.back[j] == s.back[len..][j - len] == back[len..][j - len] == back[j];
        }
        PassKeepsOne(list, key, k, s.back[j]);
      }
    }
  }

  /** A pass that does not panic keeps what a former last row stands for. */
  lemma PassKeepsOne<T, K>(list: seq<T>, key: T -> Option<K>, k: Option<K>, w: T)
    requires list != [] && !LastRepeats(list, key, k)
    requires Absent(list, key, key(w)) || Hits(key, key(w), list[|list| - 1]) || w == list[|list| - 1]
    ensures var t := Thin(list, key, k); Absent(t, key, key(w)) || (t != [] && Hits(key, key(w), t[|t| - 1]))
  {
    var last := list[|list| - 1];
    var t := Thin(list, key, k);
    ThinSelects(list, key, k);
    assert forall j :: 0 <= j < |t| ==> t[j] in t && t[j] in list;
    if Hits(key, k, last) {
      LastRepeatsIff(list, key, k);
      ThinCount(list, key, k, k);
      CountPositive(list, key, k);
      CountPositive(t, key, k);
    } else {
      ThinKeepsLast(list, key, k);
    }
  }

  /** A pass over two or more rows that leaves one row leaves the first, having removed the last of two; so no stale
      slot equals the row that is left. */
  lemma PassToOne<T, K>(back: seq<T>, len: nat, i: nat, m: nat, key: T -> Option<K>)
    requires 2 <= len <= m <= |back| && i < m && 3 <= m && FormerLasts(back, len, m, key) && (i == 0 ==> len == m)
    ensures var s := Sweep(back, len, 0, len, key, key(back[i]));
      && (s.Slice? ==> 1 <= s.len)
      && (s.Slice? && s.len == 1 ==> forall j :: 1 <= j < m ==> !Hits(key, key(s.back[j]), s.back[0]))
  {
    var k := key(back[i]);
    var list := back[..len];
    SweepLaw(back, len, key, k);
    var s := Sweep(back, len, 0, len, key, k);
    if s.Slice? {
      var t := Thin(list, key, k);
      assert s.back[..s.len] == t;
      if !Hits(key, k, list[0]) {
        ThinMiss(list, key, k);
      } else {
        ThinHit(list, key, k);
      }
      if s.len == 1 {
        OneLeft(back, len, i, m, key);
        forall j | 1 <= j < m
          ensures !Hits(key, key(s.back[j]), s.back[0])
        {
          assert s.back[0] == t[0] == list[0];
          if j < len {
            assert s.back[j] == back[len - 1];
          } else {
            assert s.back[j] == s.back[len..][j - len] == back[len..][j - len] == back[j];
            assert list[0] == back[..len][0];
          }
        }
      }
    }
  }

  lemma OneLeft<T, K>(back: seq<T>, len: nat, i: nat, m: nat, key: T -> Option<K>)
    requires 2 <= len <= m <= |back| && i < m && 3 <= m && FormerLasts(back, len, m, key) && (i == 0 ==> len == m)
    requires !LastRepeats(back[..len], key, key(back[i])) && |Thin(back[..len], key, key(back[i]))| == 1
    ensures len == 2 && !Hits(key, key(back[i]), back[0]) && Hits(key, key(back[i]), back[1])
    ensures Thin(back[..len], key, key(back[i])) == [back[0]]
  {
    var k := key(back[i]);
    var list := back[..len];
    var last := list[len - 1];
    if !Hits(key, k, last) {
      ThinKeepsLast(list, key, k);
      ThinShape(list, key, k);
    } else {
      assert forall j :: 0 <= j < len - 1 ==> !Hits(key, k, list[j]);
      ThinLastOnly(list, key, k);
    }
  }

  lemma ThinShape<T, K>(s: seq<T>, key: T -> Option<K>, k: Option<K>)
    requires |s| >= 2 && |Thin(s, key, k)| == 1 && !Hits(key, k, s[|s| - 1])
    ensures |s| == 2 && Hits(key, k, s[0])
  {
    if !Hits(key, k, s[0]) {
      ThinMiss(s, key, k);
      ThinKeepsLast(s[1..], key, k);
    } else {
      ThinHit(s, key, k);
      if |s| > 2 {
        ThinKeepsLast(s[2..], key, k);
      }
    }
  }

  lemma {:induction false} ThinLastOnly<T, K>(s: seq<T>, key: T -> Option<K>, k: Option<K>)
    requires s != [] && Hits(key, k, s[|s| - 1]) && forall j :: 0 <= j < |s| - 1 ==> !Hits(key, k, s[j])
    ensures Thin(s, key, k) == s[..|s| - 1]
    decreases |s|
  {
    if |s| > 1 {
      ThinLastOnly(s[1..], key, k);
      assert s[..|s| - 1] == [s[0]] + s[1..][..|s| - 2];
    }
  }

  /** With three or more rows the table is never emptied. */
  lemma {:induction false} SharedNeverEmpties<T, K>(back: seq<T>, len: nat, i: nat, m: nat, key: T -> Option<K>)
    requires 1 <= len <= m <= |back| && 3 <= m && i <= m && FormerLasts(back, len, m, key) && (i == 0 ==> len == m)
    requires len == 1 ==> forall j :: 1 <= j < m ==> !Hits(key, key(back[j]), back[0])
    ensures var r := DeleteShared(back, len, i, m, key); r.Slice? ==> 1 <= r.len
    decreases m - i
  {
    if i < m {
      var s := Sweep(back, len, 0, len, key, key(back[i]));
      if len == 1 {
        assert s == Slice(back, 1);
        SharedNeverEmpties(back, 1, i + 1, m, key);
      } else {
        PassToOne(back, len, i, m, key);
        PassKeepsFormerLasts(back, len, m, key, key(back[i]));
        if s.Slice? {
          SharedNeverEmpties(s.back, s.len, i + 1, m, key);
        }
      }
    }
  }

  /** DELETE without a condition ranges over the array it is shifting. It empties the table exactly when there are at
      most two rows, each equal to itself, and not both equal to each other. */
  lemma UnconditionalDeleteEmptiesIff<T, K>(back: seq<T>, len: nat, key: T -> Option<K>)
    requires len <= |back|
    ensures var r := DeleteShared(back, len, 0, len, key);
      r.Slice? && r.len == 0 <==>
      && len <= 2
      && (forall j :: 0 <= j < len ==> key(back[j]).Some?)
      && (len == 2 ==> key(back[0]) != key(back[1]))
  {
    if len >= 3 {
      hide Sweep, DeleteShared;
      SharedNeverEmpties(back, len, 0, len, key);
    } else if len == 2 {
      hide Sweep, DeleteShared;
      TwoRows(back, key);
    } else if len == 1 {
      hide Sweep, DeleteShared;
      OneRow(back, 0, 1, key);
    }
  }

  /** A table of one row, seen from the last pass. */
  lemma OneRow<T, K>(back: seq<T>, i: nat, m: nat, key: T -> Option<K>)
    requires 1 <= m <= |back| && m == i + 1 && key(back[i]) == key(back[0])
    ensures DeleteShared(back, 1, i, m, key) == if key(back[0]).Some? then Slice(back, 0) else Slice(back, 1)
  {
    var k := key(back[i]);
    assert CloseGap(back, 1, 0) == back;
    SweepStep(back, 1, 0, 1, key, k);
    SweepEnd(back, 1, 1, key, k);
    SweepEnd(back, 0, 1, key, k);
    hide Sweep;
    var s := Sweep(back, 1, 0, 1, key, k);
    assert DeleteShared(s.back, s.len, m, m, key) == s;
  }

  lemma TwoRows<T, K>(back: seq<T>, key: T -> Option<K>)
    requires 2 <= |back|
    ensures var r := DeleteShared(back, 2, 0, 2, key);
      r.Slice? && r.len == 0 <==> key(back[0]).Some? && key(back[1]).Some? && key(back[0]) != key(back[1])
  {
    var list := back[..2];
    var k := key(back[0]);
    SweepLaw(back, 2, key, k);
    var s := Sweep(back, 2, 0, 2, key, k);
    assert list == [back[0], back[1]] && [back[0], back[1]][1..] == [back[1]] && [back[0], back[1]][2..] == [];
    if k.None? {
      assert s == Slice(back, 2);
      KeylessStays(back, 2, 1, 2, key);
    } else if key(back[1]) == k {
      assert Hits(key, k, list[0]) && s.Panic?;
    } else {
      assert Thin(list, key, k) == [back[1]];
      assert s.Slice? && s.len == 1 && s.back[..1] == [back[1]] && s.back[1] == back[1];
      assert s.back[0] == back[1];
      OneRow(s.back, 1, 2, key);
    }
  }

  /** A first row that equals nothing is never removed. */
  lemma {:induction false} KeylessStays<T, K>(back: seq<T>, len: nat, i: nat, m: nat, key: T -> Option<K>)
    requires 1 <= len <= m <= |back| && key(back[0]).None?
    ensures var r := DeleteShared(back, len, i, m, key); r.Slice? ==> 1 <= r.len
    decreases m - i
  {
    if i < m {
      var k := key(back[i]);
      SweepLaw(back, len, key, k);
      var s := Sweep(back, len, 0, len, key, k);
      if s.Slice? {
        ThinMiss(back[..len], key, k);
        assert s.back[..s.len][0] == back[0];
        KeylessStays(s.back, s.len, i + 1, m, key);
      }
    }
  }

  /** Three different rows: the middle one survives an unconditional DELETE that reports three. */
  lemma ThreeRowsLeaveOne()
    ensures DeleteShared([1, 2, 3], 3, 0, 3, (x: int) => Some(x)) == Slice([2, 3, 3], 1)
  {
    var key := (x: int) => Some(x);
    assert CloseGap([1, 2, 3], 3, 0) == [2, 3, 3] && CloseGap([2, 3, 3], 2, 1) == [2, 3, 3];
    assert Sweep([1, 2, 3], 3, 0, 3, key, Some(1)) == Sweep([2, 3, 3], 2, 1, 3, key, Some(1)) == Slice([2, 3, 3], 2);
    assert Sweep([2, 3, 3], 2, 0, 2, key, Some(3)) == Slice([2, 3, 3], 1);
    assert Sweep([2, 3, 3], 1, 0, 1, key, Some(3)) == Slice([2, 3, 3], 1);
  }
}
