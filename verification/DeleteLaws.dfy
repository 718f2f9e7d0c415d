/** What DELETE leaves in a table, for every table and every condition. */
module DeleteLaws {
  import opened BigEndian
  import opened SliceShift

  function Count<T, K(==)>(s: seq<T>, key: T -> Option<K>, k: Option<K>): nat {
    if s == [] then 0 else (if Hits(key, k, s[0]) then 1 else 0) + Count(s[1..], key, k)
  }

  /** The elements DELETE cannot or must not remove: unmatched ones, and matched ones that equal nothing. */
  function {:tailrecursion false} Keep<T, K>(s: seq<T>, matches: T -> bool, key: T -> Option<K>): seq<T> {
    if s == [] then []
    else (if matches(s[0]) && key(s[0]).Some? then [] else [s[0]]) + Keep(s[1..], matches, key)
  }

  /** `Table.Select`. */
  function {:tailrecursion false} Selected<T>(s: seq<T>, matches: T -> bool): seq<T> {
    if s == [] then [] else (if matches(s[0]) then [s[0]] else []) + Selected(s[1..], matches)
  }

  /** Equal rows match alike. */
  predicate Uniform<T, K(==)>(s: seq<T>, matches: T -> bool, key: T -> Option<K>) {
    forall i, j :: 0 <= i < |s| && 0 <= j < |s| && key(s[i]).Some? && key(s[i]) == key(s[j]) ==>
        matches(s[i]) == matches(s[j])
  }

  /** The outer loop over a list of its own: one pass for each row. */
  function DeleteListed<T, K(==)>(back: seq<T>, len: nat, rows: seq<T>, key: T -> Option<K>): (r: Slice<T>)
    requires len <= |back|
    ensures r.Slice? ==> r.len <= len && |r.back| == |back|
    decreases |rows|
  {
    if rows == [] then Slice(back, len)
    else
      match Sweep(back, len, 0, len, key, key(rows[0]))
      case Panic => Panic
      case Slice(b, l) => DeleteListed(b, l, rows[1..], key)
  }

  /** The same, seen as what happens to the list. */
  function ThinAll<T, K(==)>(s: seq<T>, rows: seq<T>, key: T -> Option<K>): Option<seq<T>>
    decreases |rows|
  {
    if rows == [] then Some(s)
    else if LastRepeats(s, key, key(rows[0])) then None
    else ThinAll(Thin(s, key, key(rows[0])), rows[1..], key)
  }

  lemma {:induction false} DeleteListedIsThinAll<T, K>(back: seq<T>, len: nat, rows: seq<T>, key: T -> Option<K>)
    requires len <= |back|
    ensures var r, t := DeleteListed(back, len, rows, key), ThinAll(back[..len], rows, key);
      (r.Panic? <==> t.None?) && (r.Slice? ==> t == Some(r.back[..r.len]))
    decreases |rows|
  {
    hide Sweep, Thin, LastRepeats;
    if rows != [] {
      SweepLaw(back, len, key, key(rows[0]));
      var s := Sweep(back, len, 0, len, key, key(rows[0]));
      if s.Slice? {
        DeleteListedIsThinAll(s.back, s.len, rows[1..], key);
      }
    }
  }

  // What one pass does to counts, to the kept elements and to the last element.

  lemma CountAppend<T, K>(a: seq<T>, b: seq<T>, key: T -> Option<K>, k: Option<K>)
    ensures Count(a + b, key, k) == Count(a, key, k) + Count(b, key, k)
    decreases |a|
  {
    if a == [] {
      assert a + b == b;
    } else {
      CountAppend(a[1..], b, key, k);
      assert (a + b)[1..] == a[1..] + b;
    }
  }

  lemma {:induction false} ThinCount<T, K>(s: seq<T>, key: T -> Option<K>, k: Option<K>, other: Option<K>)
    ensures other != k ==> Count(Thin(s, key, k), key, other) == Count(s, key, other)
    ensures Count(Thin(s, key, k), key, k) <= Count(s, key, k)
    ensures Count(s, key, k) > 0 ==> Count(Thin(s, key, k), key, k) < Count(s, key, k)
    decreases |s|
  {
    if s != [] {
      if !Hits(key, k, s[0]) {
        ThinCount(s[1..], key, k, other);
        assert ([s[0]] + Thin(s[1..], key, k))[1..] == Thin(s[1..], key, k);
      } else if |s| > 1 {
        ThinCount(s[2..], key, k, other);
        assert ([s[1]] + Thin(s[2..], key, k))[1..] == Thin(s[2..], key, k);
        assert s[1..][1..] == s[2..];
      }
    }
  }

  lemma KeepAppend<T, K>(x: T, s: seq<T>, matches: T -> bool, key: T -> Option<K>)
    ensures Keep([x] + s, matches, key) == (if matches(x) && key(x).Some? then [] else [x]) + Keep(s, matches, key)
  {
    assert ([x] + s)[1..] == s;
  }

  lemma {:induction false} ThinKeeps<T, K>(s: seq<T>, matches: T -> bool, key: T -> Option<K>, k: Option<K>)
    requires forall j :: 0 <= j < |s| && Hits(key, k, s[j]) ==> matches(s[j])
    ensures Keep(Thin(s, key, k), matches, key) == Keep(s, matches, key)
    decreases |s|
  {
    if s != [] {
      if !Hits(key, k, s[0]) {
        ThinKeeps(s[1..], matches, key, k);
        KeepAppend(s[0], Thin(s[1..], key, k), matches, key);
      } else if |s| > 1 {
        ThinKeeps(s[2..], matches, key, k);
        KeepAppend(s[1], Thin(s[2..], key, k), matches, key);
        assert s[1..][1..] == s[2..];
        assert Keep(s, matches, key) == [] + Keep(s[1..], matches, key);
      } else {
        assert Keep(s, matches, key) == [] + Keep(s[1..], matches, key);
        assert s[1..] == [];
      }
    }
  }

  lemma {:induction false} ThinKeepsLast<T, K>(s: seq<T>, key: T -> Option<K>, k: Option<K>)
    requires s != [] && !Hits(key, k, s[|s| - 1])
    ensures var t := Thin(s, key, k); t != [] && t[|t| - 1] == s[|s| - 1]
    decreases |s|
  {
    hide Thin, Hits;
    ThinNothing(key, k);
    if !Hits(key, k, s[0]) {
      ThinMiss(s, key, k);
      if |s| > 1 {
        ThinKeepsLast(s[1..], key, k);
      }
    } else {
      ThinHit(s, key, k);
      if |s| > 2 {
        ThinKeepsLast(s[2..], key, k);
      }
    }
  }

  /** Everything left was there before, and what is gone hit. */
  lemma {:induction false} ThinSelects<T, K>(s: seq<T>, key: T -> Option<K>, k: Option<K>)
    ensures forall x :: x in Thin(s, key, k) ==> x in s
    ensures forall x :: x in s && x !in Thin(s, key, k) ==> Hits(key, k, x)
    decreases |s|
  {
    if s != [] {
      if !Hits(key, k, s[0]) {
        ThinSelects(s[1..], key, k);
      } else if |s| > 1 {
        ThinSelects(s[2..], key, k);
        assert s == [s[0], s[1]] + s[2..];
      }
    }
  }

  lemma {:induction false} CountPositive<T, K>(s: seq<T>, key: T -> Option<K>, k: Option<K>)
    ensures Count(s, key, k) > 0 <==> exists j :: 0 <= j < |s| && Hits(key, k, s[j])
    decreases |s|
  {
    if s != [] {
      CountPositive(s[1..], key, k);
      if j :| 0 <= j < |s| && Hits(key, k, s[j]) && j > 0 {
        assert Hits(key, k, s[1..][j - 1]);
      }
      if j :| 0 <= j < |s[1..]| && Hits(key, k, s[1..][j]) {
        assert Hits(key, k, s[j + 1]);
      }
    }
  }

  lemma HitCounts<T, K>(s: seq<T>, j: nat, key: T -> Option<K>, k: Option<K>)
    requires j < |s| && Hits(key, k, s[j])
    ensures Count(s, key, k) > 0
  {
    CountPositive(s, key, k);
  }

  /** The last element is one of several that hit exactly when it hits and the count exceeds one. */
  lemma LastRepeatsIff<T, K>(s: seq<T>, key: T -> Option<K>, k: Option<K>)
    ensures LastRepeats(s, key, k) <==> s != [] && Hits(key, k, s[|s| - 1]) && Count(s, key, k) > 1
  {
    if s != [] {
      var n := |s| - 1;
      assert s == s[..n] + [s[n]];
      CountAppend(s[..n], [s[n]], key, k);
      CountPositive(s[..n], key, k);
      assert forall j :: 0 <= j < n ==> s[..n][j] == s[j];
      assert [s[n]][1..] == [];
    }
  }

  lemma RepeatsAt<T, K>(s: seq<T>, j: nat, key: T -> Option<K>, k: Option<K>)
    requires j < |s| - 1 && Hits(key, k, s[j]) && Hits(key, k, s[|s| - 1])
    ensures LastRepeats(s, key, k)
  {}

  lemma {:induction false} KeepAll<T, K>(s: seq<T>, matches: T -> bool, key: T -> Option<K>)
    requires forall j :: 0 <= j < |s| ==> !(matches(s[j]) && key(s[j]).Some?)
    ensures Keep(s, matches, key) == s
    decreases |s|
  {
    if s != [] {
      KeepAll(s[1..], matches, key);
    }
  }

  // What any DELETE keeps, whatever rows it ranges over.

  predicate Distinct<T(==)>(s: seq<T>) {
    forall i, j :: 0 <= i < j < |s| ==> s[i] != s[j]
  }

  /** Every earlier element stands in the relation to every later one. */
  predicate Pairwise<T>(s: seq<T>, rel: (T, T) -> bool) {
    forall i, j :: 0 <= i < j < |s| ==> rel(s[i], s[j])
  }

  lemma PairwisePrepend<T>(x: T, s: seq<T>, rel: (T, T) -> bool)
    requires Pairwise(s, rel) && forall y :: y in s ==> rel(x, y)
    ensures Pairwise([x] + s, rel)
  {
    forall i, j | 0 <= i < j < |s| + 1
      ensures rel(([x] + s)[i], ([x] + s)[j])
    {
      assert ([x] + s)[j] == s[j - 1] && s[j - 1] in s;
    }
  }

  lemma {:induction false} ThinPairwise<T, K>(s: seq<T>, key: T -> Option<K>, k: Option<K>, rel: (T, T) -> bool)
    requires Pairwise(s, rel)
    ensures Pairwise(Thin(s, key, k), rel)
    decreases |s|
  {
    hide Thin, Hits;
    if s == [] {
      ThinNothing(key, k);
    } else if !Hits(key, k, s[0]) {
      ThinMiss(s, key, k);
      ThinPairwise(s[1..], key, k, rel);
      ThinSelects(s[1..], key, k);
      PairwisePrepend(s[0], Thin(s[1..], key, k), rel);
    } else {
      if |s| > 1 {
        ThinHit(s, key, k);
        ThinPairwise(s[2..], key, k, rel);
        ThinSelects(s[2..], key, k);
        PairwisePrepend(s[1], Thin(s[2..], key, k), rel);
      } else {
        ThinOne(s, key, k);
      }
    }
  }

  /** What one list is to another it was shortened from: in the same order, with nothing new. */
  predicate Shortened<T(==)>(t: seq<T>, s: seq<T>, rel: (T, T) -> bool) {
    (forall x :: x in t ==> x in s) && (Pairwise(s, rel) ==> Pairwise(t, rel))
  }

  lemma {:induction false} DeleteListedShortens<T, K>(
    back: seq<T>, len: nat, rows: seq<T>, key: T -> Option<K>, rel: (T, T) -> bool)
    requires len <= |back|
    ensures var r := DeleteListed(back, len, rows, key);
      r.Slice? ==> Shortened(r.back[..r.len], back[..len], rel)
    decreases |rows|
  {
    hide Sweep;
    if rows != [] {
      PassShortens(back, len, key, key(rows[0]), rel);
      var s := Sweep(back, len, 0, len, key, key(rows[0]));
      if s.Slice? {
        DeleteListedShortens(s.back, s.len, rows[1..], key, rel);
      }
    }
  }

  lemma PassShortens<T, K>(back: seq<T>, len: nat, key: T -> Option<K>, k: Option<K>, rel: (T, T) -> bool)
    requires len <= |back|
    ensures var s := Sweep(back, len, 0, len, key, k);
      s.Slice? ==> Shortened(s.back[..s.len], back[..len], rel)
  {
    SweepLaw(back, len, key, k);
    ThinSelects(back[..len], key, k);
    if Pairwise(back[..len], rel) {
      ThinPairwise(back[..len], key, k, rel);
    }
  }

  // Conditional DELETE.

  /** There are still enough passes to come for every matched element left. */
  predicate Covered<T, K(==)>(s: seq<T>, rows: seq<T>, matches: T -> bool, key: T -> Option<K>) {
    forall j :: 0 <= j < |s| && matches(s[j]) ==> Count(s, key, key(s[j])) <= Count(rows, key, key(s[j]))
  }

  /** The last element is safe: unmatched, equal to nothing, or alone of its kind with its own pass as the last one. */
  predicate LastSafe<T, K(==)>(s: seq<T>, rows: seq<T>, matches: T -> bool, key: T -> Option<K>) {
    s == [] ||
    (var last := s[|s| - 1];
     || !matches(last) || key(last).None?
     || (Count(s, key, key(last)) == 1 && forall i :: 0 <= i < |rows| - 1 ==> key(rows[i]) != key(last)))
  }

  lemma {:induction false} ThinAllDeletes<T, K>(s: seq<T>, rows: seq<T>, matches: T -> bool, key: T -> Option<K>)
    requires Uniform(s + rows, matches, key) && forall i :: 0 <= i < |rows| ==> matches(rows[i])
    requires Covered(s, rows, matches, key) && LastSafe(s, rows, matches, key)
    ensures ThinAll(s, rows, key) == Some(Keep(s, matches, key))
    decreases |rows|
  {
    if rows == [] {
      forall j | 0 <= j < |s|
        ensures !(matches(s[j]) && key(s[j]).Some?)
      {
        if matches(s[j]) && key(s[j]).Some? {
          HitCounts(s, j, key, key(s[j]));
        }
      }
      KeepAll(s, matches, key);
    } else {
      var k := key(rows[0]);
      LastRepeatsIff(s, key, k);
      HitsMatch(s, rows, matches, key);
      if s != [] && Hits(key, k, s[|s| - 1]) {
        assert (s + rows)[|s| - 1] == s[|s| - 1];
      }
      var t := Thin(s, key, k);
      ThinKeeps(s, matches, key, k);
      StepKeepsPlan(s, rows, matches, key);
      ThinAllDeletes(t, rows[1..], matches, key);
    }
  }

  lemma HitsMatch<T, K>(s: seq<T>, rows: seq<T>, matches: T -> bool, key: T -> Option<K>)
    requires rows != [] && Uniform(s + rows, matches, key) && matches(rows[0])
    ensures forall j :: 0 <= j < |s| && Hits(key, key(rows[0]), s[j]) ==> matches(s[j])
  {
    assert (s + rows)[|s|] == rows[0];
    forall j | 0 <= j < |s| && Hits(key, key(rows[0]), s[j])
      ensures matches(s[j])
    {
      assert (s + rows)[j] == s[j];
    }
  }

  /** A pass for the first row leaves a list for which the remaining rows still suffice. */
  lemma StepKeepsPlan<T, K>(s: seq<T>, rows: seq<T>, matches: T -> bool, key: T -> Option<K>)
    requires rows != [] && Uniform(s + rows, matches, key) && forall i :: 0 <= i < |rows| ==> matches(rows[i])
    requires Covered(s, rows, matches, key) && LastSafe(s, rows, matches, key)
    ensures var t := Thin(s, key, key(rows[0]));
      Uniform(t + rows[1..], matches, key) && Covered(t, rows[1..], matches, key)
          && LastSafe(t, rows[1..], matches, key)
  {
    var k := key(rows[0]);
    var t := Thin(s, key, k);
    var rest := rows[1..];
    ThinSelects(s, key, k);
    hide Thin;
    assert Uniform(t + rest, matches, key) by {
      UniformSubset(s + rows, t + rest, matches, key);
    }
    forall j | 0 <= j < |t| && matches(t[j])
      ensures Count(t, key, key(t[j])) <= Count(rest, key, key(t[j]))
    {
      assert t[j] in t && t[j] in s;
      var i :| 0 <= i < |s| && s[i] == t[j];
      ThinCount(s, key, k, key(t[j]));
      CountPositive(t, key, k);
      assert Count(rows, key, key(t[j]))
             == (if Hits(key, key(t[j]), rows[0]) then 1 else 0) + Count(rest, key, key(t[j]));
    }
    if s != [] {
      var last := s[|s| - 1];
      if Hits(key, k, last) {
        LastHitGone(s, rows, matches, key);
      } else {
        ThinKeepsLast(s, key, k);
        ThinCount(s, key, k, key(last));
      }
    }
  }

  lemma UniformSubset<T, K>(s: seq<T>, t: seq<T>, matches: T -> bool, key: T -> Option<K>)
    requires Uniform(s, matches, key) && forall x :: x in t ==> x in s
    ensures Uniform(t, matches, key)
  {
    forall i, j | 0 <= i < |t| && 0 <= j < |t| && key(t[i]).Some? && key(t[i]) == key(t[j])
      ensures matches(t[i]) == matches(t[j])
    {
      assert t[i] in s && t[j] in s;
    }
  }

  /** If the pass is for the last element, it is the final pass, and nothing matched is left behind it. */
  lemma LastHitGone<T, K>(s: seq<T>, rows: seq<T>, matches: T -> bool, key: T -> Option<K>)
    requires rows != [] && s != [] && Hits(key, key(rows[0]), s[|s| - 1])
    requires Uniform(s + rows, matches, key) && forall i :: 0 <= i < |rows| ==> matches(rows[i])
    requires Covered(s, rows, matches, key) && LastSafe(s, rows, matches, key)
    ensures LastSafe(Thin(s, key, key(rows[0])), rows[1..], matches, key)
  {
    var k := key(rows[0]);
    var t := Thin(s, key, k);
    HitsMatch(s, rows, matches, key);
    hide Thin, Uniform, Hits;
    assert |rows| == 1 && Count(s, key, k) == 1 by {
      assert Hits(key, k, s[|s| - 1]);
      HitKey(key, k, s[|s| - 1]);
    }
    ThinCount(s, key, k, k);
    if t != [] {
      var x := t[|t| - 1];
      ThinSelects(s, key, k);
      assert x in s;
      if matches(x) && key(x).Some? {
        OnlyPass(s, rows, matches, key, x);
        HitCounts(t, |t| - 1, key, k);
      }
    }
  }

  lemma HitKey<T, K>(key: T -> Option<K>, k: Option<K>, x: T)
    ensures Hits(key, k, x) <==> k.Some? && key(x) == k
  {}

  /** With one pass to come, any matched element with a key is hit by it. */
  lemma OnlyPass<T, K>(s: seq<T>, rows: seq<T>, matches: T -> bool, key: T -> Option<K>, x: T)
    requires |rows| == 1 && Covered(s, rows, matches, key) && x in s && matches(x) && key(x).Some?
    ensures Hits(key, key(rows[0]), x)
  {
    var i :| 0 <= i < |s| && s[i] == x;
    CountPositive(s, key, key(x));
    assert Hits(key, key(x), s[i]);
    CountPositive(rows, key, key(x));
  }

  lemma {:induction false} ThinAllPanics<T, K>(s: seq<T>, rows: seq<T>, key: T -> Option<K>, k: Option<K>)
    requires LastRepeats(s, key, k) && exists i :: 0 <= i < |rows| && key(rows[i]) == k
    ensures ThinAll(s, rows, key) == None
    decreases |rows|
  {
    var first := key(rows[0]);
    if first != k && !LastRepeats(s, key, first) {
      LastRepeatsIff(s, key, k);
      ThinKeepsLast(s, key, first);
      ThinCount(s, key, first, k);
      LastRepeatsIff(Thin(s, key, first), key, k);
      var i :| 0 <= i < |rows| && key(rows[i]) == k;
      assert rows[1..][i - 1] == rows[i];
      ThinAllPanics(Thin(s, key, first), rows[1..], key, k);
    }
  }

  lemma {:induction false} SelectedMatch<T>(s: seq<T>, matches: T -> bool)
    ensures forall x :: x in Selected(s, matches) ==> x in s && matches(x)
    ensures forall x :: x in s && matches(x) ==> x in Selected(s, matches)
    ensures s != [] && matches(s[|s| - 1]) ==>
              var rows := Selected(s, matches); rows != [] && rows[|rows| - 1] == s[|s| - 1]
    decreases |s|
  {
    if s != [] {
      SelectedMatch(s[1..], matches);
      assert s == [s[0]] + s[1..];
    }
  }

  lemma {:induction false} SelectedAppend<T>(s: seq<T>, x: T, matches: T -> bool)
    ensures Selected(s + [x], matches) == Selected(s, matches) + (if matches(x) then [x] else [])
    decreases |s|
  {
    if s != [] {
      assert (s + [x])[1..] == s[1..] + [x];
      SelectedAppend(s[1..], x, matches);
    } else {
      assert (s + [x])[1..] == [];
    }
  }

  lemma {:induction false} SelectedCount<T, K>(s: seq<T>, matches: T -> bool, key: T -> Option<K>, k: Option<K>)
    requires forall j :: 0 <= j < |s| && Hits(key, k, s[j]) ==> matches(s[j])
    ensures Count(Selected(s, matches), key, k) == Count(s, key, k)
    decreases |s|
  {
    if s != [] {
      SelectedCount(s[1..], matches, key, k);
      var rest := Selected(s[1..], matches);
      assert ([s[0]] + rest)[1..] == rest && [] + rest == rest;
    }
  }

  lemma Within<T>(s: seq<T>, rows: seq<T>)
    requires forall x :: x in rows ==> x in s
    ensures forall x :: x in s + rows ==> x in s
  {
    forall x | x in s + rows
      ensures x in s
    {
      assert x in s || x in rows;
    }
  }

  /** The plan of a DELETE whose rows were selected from the very list they are deleted from. */
  lemma FreshPlan<T, K>(s: seq<T>, matches: T -> bool, key: T -> Option<K>)
    requires Uniform(s, matches, key)
    requires s != [] && matches(s[|s| - 1]) ==> !LastRepeats(s, key, key(s[|s| - 1]))
    ensures var rows := Selected(s, matches);
      && Uniform(s + rows, matches, key) && (forall i :: 0 <= i < |rows| ==> matches(rows[i]))
      && Covered(s, rows, matches, key) && LastSafe(s, rows, matches, key)
  {
    var rows := Selected(s, matches);
    SelectedMatch(s, matches);
    Within(s, rows);
    UniformSubset(s, s + rows, matches, key);
    assert forall i :: 0 <= i < |rows| ==> rows[i] in rows;
    forall j | 0 <= j < |s| && matches(s[j])
      ensures Count(s, key, key(s[j])) == Count(rows, key, key(s[j]))
    {
      SelectedCount(s, matches, key, key(s[j]));
    }
    if s != [] && matches(s[|s| - 1]) && key(s[|s| - 1]).Some? {
      var last := s[|s| - 1];
      LastRepeatsIff(s, key, key(last));
      LastRepeatsIff(rows, key, key(last));
      CountPositive(s, key, key(last));
      assert Hits(key, key(last), s[|s| - 1]);
      forall i | 0 <= i < |rows| - 1
        ensures key(rows[i]) != key(last)
      {
        if key(rows[i]) == key(last) {
          RepeatsAt(rows, i, key, key(last));
        }
      }
    }
  }

  /** DELETE with a condition, for every table: it panics exactly when the last row matches and another row equals it;
      otherwise it ends with exactly the rows it had to keep, in their old order, shifted to the front of the same
      array. */
  lemma ConditionalDelete<T, K>(back: seq<T>, len: nat, matches: T -> bool, key: T -> Option<K>)
    requires len <= |back| && Uniform(back[..len], matches, key)
    ensures var s := back[..len];
      var r := DeleteListed(back, len, Selected(s, matches), key);
      && (r.Panic? <==> s != [] && matches(s[len - 1]) && LastRepeats(s, key, key(s[len - 1])))
      && (r.Slice? ==> r.back[..r.len] == Keep(s, matches, key))
  {
    var s := back[..len];
    var rows := Selected(s, matches);
    DeleteListedIsThinAll(back, len, rows, key);
    if s != [] && matches(s[len - 1]) && LastRepeats(s, key, key(s[len - 1])) {
      SelectedMatch(s, matches);
      ThinAllPanics(s, rows, key, key(s[len - 1]));
    } else {
      FreshPlan(s, matches, key);
      ThinAllDeletes(s, rows, matches, key);
    }
  }

  /** The reported count is the number of rows removed exactly when every matched row equals itself. */
  lemma {:induction false} CountIsRemovedIff<T, K>(s: seq<T>, matches: T -> bool, key: T -> Option<K>)
    ensures |Keep(s, matches, key)| + |Selected(s, matches)| >= |s|
    ensures |Selected(s, matches)| == |s| - |Keep(s, matches, key)| <==>
            forall j :: 0 <= j < |s| && matches(s[j]) ==> key(s[j]).Some?
    decreases |s|
  {
    if s != [] {
      CountIsRemovedIff(s[1..], matches, key);
      assert forall j :: 0 <= j < |s| - 1 ==> s[1..][j] == s[j + 1];
    }
  }

  // DELETE of rows selected earlier.

  /** What is gone after the passes equals one of the rows ranged over. */
  lemma {:induction false} ListedRemoves<T, K>(back: seq<T>, len: nat, rows: seq<T>, key: T -> Option<K>, x: T)
    requires len <= |back| && x in back[..len]
    ensures var r := DeleteListed(back, len, rows, key);
      r.Slice? && x !in r.back[..r.len] ==> exists y :: y in rows && Hits(key, key(y), x)
    decreases |rows|
  {
    hide Sweep, Hits;
    if rows != [] {
      var k := key(rows[0]);
      SweepLaw(back, len, key, k);
      ThinSelects(back[..len], key, k);
      var s := Sweep(back, len, 0, len, key, k);
      if s.Slice? {
        if x in s.back[..s.len] {
          ListedRemoves(s.back, s.len, rows[1..], key, x);
        } else {
          assert rows[0] in rows && Hits(key, key(rows[0]), x);
        }
      }
    }
  }

  /** No two elements are equal. */
  predicate Unequal<T, K(==)>(s: seq<T>, key: T -> Option<K>) {
    forall i, j :: 0 <= i < j < |s| ==> !Hits(key, key(s[j]), s[i])
  }

  function {:tailrecursion false} Drop<T, K(==)>(s: seq<T>, key: T -> Option<K>, k: Option<K>): seq<T> {
    if s == [] then [] else (if Hits(key, k, s[0]) then [] else [s[0]]) + Drop(s[1..], key, k)
  }

  /** The elements that equal none of the rows. */
  function {:tailrecursion false} Without<T(==), K(==)>(s: seq<T>, rows: seq<T>, key: T -> Option<K>): seq<T> {
    if s == [] then []
    else (if exists y :: y in rows && Hits(key, key(y), s[0]) then [] else [s[0]]) + Without(s[1..], rows, key)
  }

  lemma {:induction false} DropNothing<T, K>(s: seq<T>, key: T -> Option<K>, k: Option<K>)
    requires forall j :: 0 <= j < |s| ==> !Hits(key, k, s[j])
    ensures Drop(s, key, k) == s
    decreases |s|
  {
    if s != [] {
      DropNothing(s[1..], key, k);
    }
  }

  lemma NothingRepeats<T, K>(s: seq<T>, key: T -> Option<K>, k: Option<K>)
    requires Unequal(s, key)
    ensures !LastRepeats(s, key, k)
    ensures s != [] && Hits(key, k, s[0]) ==> forall j :: 0 < j < |s| ==> !Hits(key, k, s[j])
  {
    forall i, j | 0 <= i < j < |s|
      ensures !(Hits(key, k, s[i]) && Hits(key, k, s[j]))
    {
      assert !Hits(key, key(s[j]), s[i]);
    }
  }

  /** On a list without equal elements a pass skips nothing it should remove. */
  lemma {:induction false} ThinIsDrop<T, K>(s: seq<T>, key: T -> Option<K>, k: Option<K>)
    requires Unequal(s, key)
    ensures Thin(s, key, k) == Drop(s, key, k)
    decreases |s|
  {
    DropStep(s, key, k);
    hide Thin, Drop;
    if s == [] {
      ThinNothing(key, k);
    } else if Hits(key, k, s[0]) {
      NothingRepeats(s, key, k);
      hide Hits, Unequal;
      FirstGoes(s, key, k);
    } else {
      ThinMiss(s, key, k);
      UnequalBehind(s, key);
      hide Hits, Unequal;
      ThinIsDrop(s[1..], key, k);
    }
  }

  lemma UnequalBehind<T, K>(s: seq<T>, key: T -> Option<K>)
    requires s != [] && Unequal(s, key)
    ensures Unequal(s[1..], key)
  {
    hide Hits;
  }

  lemma {:induction false} NothingThinned<T, K>(s: seq<T>, key: T -> Option<K>, k: Option<K>)
    requires forall j :: 0 <= j < |s| ==> !Hits(key, k, s[j])
    ensures Thin(s, key, k) == s
    decreases |s|
  {
    hide Hits;
    if s != [] {
      NothingThinned(s[1..], key, k);
    }
  }

  lemma FirstGoes<T, K>(s: seq<T>, key: T -> Option<K>, k: Option<K>)
    requires s != [] && Hits(key, k, s[0]) && forall j :: 0 < j < |s| ==> !Hits(key, k, s[j])
    ensures Thin(s, key, k) == s[1..] && Drop(s, key, k) == s[1..]
  {
    DropStep(s, key, k);
    hide Hits, Thin, Drop;
    DropNothing(s[1..], key, k);
    if |s| > 1 {
      ThinHit(s, key, k);
      NothingThinned(s[2..], key, k);
      assert [s[1]] + s[2..] == s[1..];
    } else {
      ThinOne(s, key, k);
    }
  }

  lemma DropStep<T, K>(s: seq<T>, key: T -> Option<K>, k: Option<K>)
    ensures Drop(s, key, k) ==
            if s == [] then [] else if Hits(key, k, s[0]) then Drop(s[1..], key, k) else [s[0]] + Drop(s[1..], key, k)
  {}

  lemma {:induction false} WithoutFirst<T, K>(s: seq<T>, rows: seq<T>, key: T -> Option<K>)
    requires rows != []
    ensures Without(s, rows, key) == Without(Drop(s, key, key(rows[0])), rows[1..], key)
    decreases |s|
  {
    if s != [] {
      WithoutFirst(s[1..], rows, key);
      var d := Drop(s[1..], key, key(rows[0]));
      assert rows == [rows[0]] + rows[1..];
      if Hits(key, key(rows[0]), s[0]) {
        assert rows[0] in rows;
        assert [] + d == d && [] + Without(s[1..], rows, key) == Without(s[1..], rows, key);
      } else {
        assert ([s[0]] + d)[1..] == d;
        assert (exists y :: y in rows && Hits(key, key(y), s[0])) <==>
               (exists y :: y in rows[1..] && Hits(key, key(y), s[0]));
      }
    }
  }

  lemma {:induction false} WithoutNone<T, K>(s: seq<T>, key: T -> Option<K>)
    ensures Without(s, [], key) == s
    decreases |s|
  {
    if s != [] {
      WithoutNone(s[1..], key);
    }
  }

  lemma PassKeepsUnequal<T, K>(back: seq<T>, len: nat, key: T -> Option<K>, k: Option<K>)
    requires len <= |back| && Unequal(back[..len], key)
    ensures var s := Sweep(back, len, 0, len, key, k);
      s.Slice? && s.back[..s.len] == Drop(back[..len], key, k) && Unequal(s.back[..s.len], key)
  {
    var rel := (x: T, y: T) => !Hits(key, key(y), x);
    SweepLaw(back, len, key, k);
    ThinIsDrop(back[..len], key, k);
    NothingRepeats(back[..len], key, k);
    ThinPairwise(back[..len], key, k, rel);
    hide Sweep, Thin, Hits;
  }

  /** While no two rows of the table are equal, the passes never panic and leave exactly the rows that equal none of the
      rows ranged over, whenever those were selected. */
  lemma {:induction false} UnequalDelete<T, K>(back: seq<T>, len: nat, rows: seq<T>, key: T -> Option<K>)
    requires len <= |back| && Unequal(back[..len], key)
    ensures var r := DeleteListed(back, len, rows, key);
      r.Slice? && r.back[..r.len] == Without(back[..len], rows, key)
    decreases |rows|
  {
    hide Sweep, Unequal, Without;
    if rows == [] {
      WithoutNone(back[..len], key);
    } else {
      PassKeepsUnequal(back, len, key, key(rows[0]));
      WithoutFirst(back[..len], rows, key);
      var s := Sweep(back, len, 0, len, key, key(rows[0]));
      UnequalDelete(s.back, s.len, rows[1..], key);
    }
  }

  // Unconditional DELETE.

  /** The outer loop over the table's own slice: its length is fixed, its elements are read from the array being
      shifted. */
  function DeleteShared<T, K(==)>(back: seq<T>, len: nat, i: nat, m: nat, key: T -> Option<K>): (r: Slice<T>)
    requires len <= |back| && m <= |back|
    ensures r.Slice? ==> r.len <= len && |r.back| == |back|
    decreases m - i
  {
    if i >= m then Slice(back, len)
    else
      match Sweep(back, len, 0, len, key, key(back[i]))
      case Panic => Panic
      case Slice(b, l) => DeleteShared(b, l, i + 1, m, key)
  }

  lemma {:induction false} DeleteSharedShortens<T, K>(
    back: seq<T>, len: nat, i: nat, m: nat, key: T -> Option<K>, rel: (T, T) -> bool)
    requires len <= |back| && m <= |back|
    ensures var r := DeleteShared(back, len, i, m, key);
      r.Slice? ==> Shortened(r.back[..r.len], back[..len], rel)
    decreases m - i
  {
    hide Sweep;
    if i < m {
      PassShortens(back, len, key, key(back[i]), rel);
      var s := Sweep(back, len, 0, len, key, key(back[i]));
      if s.Slice? {
        DeleteSharedShortens(s.back, s.len, i + 1, m, key, rel);
      }
    }
  }

  lemma {:induction false} SweepKeepsElements<T, K>(
    back: seq<T>, len: nat, n: nat, m: nat, key: T -> Option<K>, k: Option<K>)
    requires len <= m <= |back|
    ensures var s := Sweep(back, len, n, m, key, k); s.Slice? ==> forall x :: x in s.back ==> x in back
    decreases m - n
  {
    if n < m {
      SweepStep(back, len, n, m, key, k);
      hide Sweep;
      if !Hits(key, k, back[n]) {
        SweepKeepsElements(back, len, n + 1, m, key, k);
      } else if n + 1 <= len {
        SweepKeepsElements(CloseGap(back, len, n), len - 1, n + 1, m, key, k);
      }
    }
  }

  lemma {:induction false} ListedKeepsElements<T, K>(back: seq<T>, len: nat, rows: seq<T>, key: T -> Option<K>)
    requires len <= |back|
    ensures var r := DeleteListed(back, len, rows, key); r.Slice? ==> forall x :: x in r.back ==> x in back
    decreases |rows|
  {
    hide Sweep;
    if rows != [] {
      SweepKeepsElements(back, len, 0, len, key, key(rows[0]));
      var s := Sweep(back, len, 0, len, key, key(rows[0]));
      if s.Slice? {
        ListedKeepsElements(s.back, s.len, rows[1..], key);
      }
    }
  }

  lemma {:induction false} SharedKeepsElements<T, K>(back: seq<T>, len: nat, i: nat, m: nat, key: T -> Option<K>)
    requires len <= |back| && m <= |back|
    ensures var r := DeleteShared(back, len, i, m, key); r.Slice? ==> forall x :: x in r.back ==> x in back
    decreases m - i
  {
    hide Sweep;
    if i < m {
      SweepKeepsElements(back, len, 0, len, key, key(back[i]));
      var s := Sweep(back, len, 0, len, key, key(back[i]));
      if s.Slice? {
        SharedKeepsElements(s.back, s.len, i + 1, m, key);
      }
    }
  }

  lemma {:induction false} UnequalShared<T, K>(back: seq<T>, len: nat, i: nat, m: nat, key: T -> Option<K>)
    requires len <= |back| && m <= |back| && Unequal(back[..len], key)
    ensures DeleteShared(back, len, i, m, key).Slice?
    decreases m - i
  {
    hide Sweep, Unequal;
    if i < m {
      PassKeepsUnequal(back, len, key, key(back[i]));
      var s := Sweep(back, len, 0, len, key, key(back[i]));
      UnequalShared(s.back, s.len, i + 1, m, key);
    }
  }
}
