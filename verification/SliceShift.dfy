/**
 Deleting from a Go slice while ranging over it (examples/go-postgresqld/server/store/table.go).

 A slice is a backing sequence and a length. `append(rows[:n], rows[n+1:]...)` shifts the tail down in the same backing
 array, `range` fixes the length once and reads elements live, and `rows[n+1:]` panics when n+1 exceeds the current
 length. Elements are compared through a key; an element without a key equals nothing, not even itself.
 */
module SliceShift {
  import opened BigEndian

  /** What a pass over the slice leaves: the backing array and the slice's new length, or a panic. */
  datatype Slice<T> = Panic | Slice(back: seq<T>, len: nat)

  /** Element x equals the row whose key is `k`. */
  predicate Hits<T, K(==)>(key: T -> Option<K>, k: Option<K>, x: T) {
    k.Some? && key(x) == k
  }

  /** `append(rows[:n], rows[n+1:]...)` on a slice of length `len`: the last slot keeps its old element. */
  function CloseGap<T>(back: seq<T>, len: nat, n: nat): (b: seq<T>)
    requires n < len <= |back|
    ensures |b| == |back|
  {
    back[..n] + back[n + 1..len] + back[len - 1..]
  }

  /** The inner loop from index n on; `m` is the length the range fixed. */
  function Sweep<T, K(==)>(back: seq<T>, len: nat, n: nat, m: nat, key: T -> Option<K>, k: Option<K>): (s: Slice<T>)
    requires len <= m <= |back|
    ensures s.Slice? ==> s.len <= len && |s.back| == |back|
    decreases m - n
  {
    if n >= m then Slice(back, len)
    else if !Hits(key, k, back[n]) then Sweep(back, len, n + 1, m, key, k)
    else if n + 1 > len then Panic
    else Sweep(CloseGap(back, len, n), len - 1, n + 1, m, key, k)
  }

  /** What the inner loop does to the list: it drops an element that hits and never looks at the one behind it. */
  function {:tailrecursion false} Thin<T, K(==)>(s: seq<T>, key: T -> Option<K>, k: Option<K>): (t: seq<T>)
    ensures |t| <= |s|
    decreases |s|
  {
    if s == [] then []
    else if !Hits(key, k, s[0]) then [s[0]] + Thin(s[1..], key, k)
    else if |s| == 1 then []
    else [s[1]] + Thin(s[2..], key, k)
  }

  /** Slots behind the slice's end, up to m, all hold the last element the slice once had. */
  predicate Stale<T(==)>(back: seq<T>, len: nat, m: nat)
    requires len <= m <= |back|
  {
    m > 0 ==> forall j :: len <= j < m ==> back[j] == back[m - 1]
  }

  lemma SweepStep<T, K>(back: seq<T>, len: nat, n: nat, m: nat, key: T -> Option<K>, k: Option<K>)
    requires n < m && len <= m <= |back|
    ensures Sweep(back, len, n, m, key, k) ==
            if !Hits(key, k, back[n]) then Sweep(back, len, n + 1, m, key, k)
            else if n + 1 > len then Panic
            else Sweep(CloseGap(back, len, n), len - 1, n + 1, m, key, k)
  {}

  lemma SweepEnd<T, K>(back: seq<T>, len: nat, m: nat, key: T -> Option<K>, k: Option<K>)
    requires len <= m <= |back|
    ensures Sweep(back, len, m, m, key, k) == Slice(back, len)
  {}

  lemma GapFacts<T>(back: seq<T>, len: nat, n: nat, m: nat)
    requires n < len <= m <= |back|
    ensures var b := CloseGap(back, len, n);
      && (forall j :: 0 <= j < n ==> b[j] == back[j])
      && (forall j :: n <= j < len - 1 ==> b[j] == back[j + 1])
      && (forall j :: len - 1 <= j < |back| ==> b[j] == back[j])
      && b[m..] == back[m..]
      && (n + 1 < len ==> b[..n + 1] == back[..n] + [back[n + 1]] && b[n + 1..len - 1] == back[n + 2..len])
  {}

  lemma ThinHit<T, K>(s: seq<T>, key: T -> Option<K>, k: Option<K>)
    requires |s| > 1 && Hits(key, k, s[0])
    ensures Thin(s, key, k) == [s[1]] + Thin(s[2..], key, k)
  {}

  lemma ThinMiss<T, K>(s: seq<T>, key: T -> Option<K>, k: Option<K>)
    requires s != [] && !Hits(key, k, s[0])
    ensures Thin(s, key, k) == [s[0]] + Thin(s[1..], key, k)
  {}

  /** What a pass that keeps the last element leaves behind. */
  predicate Kept<T(==), K(==)>(back: seq<T>, len: nat, n: nat, m: nat, key: T -> Option<K>, k: Option<K>, s: Slice<T>)
    requires 0 < m && n <= len <= m <= |back|
  {
    && s.Slice? && 0 < s.len <= m && |s.back| == |back|
    && s.back[..s.len] == back[..n] + Thin(back[n..len], key, k)
    && s.back[s.len - 1] == back[m - 1] && s.back[m - 1] == back[m - 1]
    && s.back[m..] == back[m..] && Stale(s.back, s.len, m)
  }

  lemma KeptMiss<T, K>(back: seq<T>, len: nat, n: nat, m: nat, key: T -> Option<K>, k: Option<K>, s: Slice<T>)
    requires n < len <= m <= |back| && !Hits(key, k, back[n]) && Kept(back, len, n + 1, m, key, k, s)
    ensures Kept(back, len, n, m, key, k, s)
  {
    hide Thin;
    var t := back[n..len];
    assert t[0] == back[n] && t[1..] == back[n + 1..len];
    ThinMiss(t, key, k);
    assert back[..n + 1] == back[..n] + [back[n]];
    assert back[..n] + ([back[n]] + Thin(t[1..], key, k)) == back[..n + 1] + Thin(t[1..], key, k);
  }

  lemma KeptHit<T, K>(back: seq<T>, len: nat, n: nat, m: nat, key: T -> Option<K>, k: Option<K>, s: Slice<T>)
    requires n + 1 < len <= m <= |back| && Hits(key, k, back[n])
    requires Kept(CloseGap(back, len, n), len - 1, n + 1, m, key, k, s)
    ensures Kept(back, len, n, m, key, k, s)
  {
    hide Thin, CloseGap;
    GapFacts(back, len, n, m);
    var t := back[n..len];
    assert t[0] == back[n] && t[1] == back[n + 1] && t[2..] == back[n + 2..len];
    ThinHit(t, key, k);
    assert back[..n] + ([back[n + 1]] + Thin(t[2..], key, k)) == (back[..n] + [back[n + 1]]) + Thin(t[2..], key, k);
  }

  /** While the last element does not hit, the pass only thins the list out. */
  lemma {:induction false} SweepKeepsLast<T, K>(back: seq<T>, len: nat, n: nat, m: nat, key: T -> Option<K>,
      k: Option<K>)
    requires 0 < len && n <= len <= m <= |back|
    requires back[len - 1] == back[m - 1] && Stale(back, len, m) && !Hits(key, k, back[m - 1])
    ensures Kept(back, len, n, m, key, k, Sweep(back, len, n, m, key, k))
    decreases m - n
  {
    hide Thin, CloseGap;
    if n == len {
      // Only stale slots are left to visit.
      SweepStale(back, len, n, m, key, k);
      ThinNothing(key, k);
      assert back[n..len] == [] && back[..n] + [] == back[..len];
    } else if !Hits(key, k, back[n]) {
      SweepKeepsLast(back, len, n + 1, m, key, k);
      KeptMiss(back, len, n, m, key, k, Sweep(back, len, n + 1, m, key, k));
    } else {
      var b := CloseGap(back, len, n);
      GapFacts(back, len, n, m);
      SweepKeepsLast(b, len - 1, n + 1, m, key, k);
      KeptHit(back, len, n, m, key, k, Sweep(b, len - 1, n + 1, m, key, k));
    }
  }

  lemma ThinOne<T, K>(s: seq<T>, key: T -> Option<K>, k: Option<K>)
    requires |s| == 1 && Hits(key, k, s[0])
    ensures Thin(s, key, k) == []
  {}

  lemma ThinNothing<T, K>(key: T -> Option<K>, k: Option<K>)
    ensures Thin([], key, k) == []
  {}

  lemma {:induction false} SweepStale<T, K>(back: seq<T>, len: nat, n: nat, m: nat, key: T -> Option<K>, k: Option<K>)
    requires len <= n <= m <= |back| && m > 0 && Stale(back, len, m) && !Hits(key, k, back[m - 1])
    ensures Sweep(back, len, n, m, key, k) == Slice(back, len)
    decreases m - n
  {
    if n < m {
      SweepStale(back, len, n + 1, m, key, k);
    }
  }

  /** Once something has been removed and the last element hits too, the pass runs into a stale slot and panics. */
  lemma {:induction false} SweepPanics<T, K>(back: seq<T>, len: nat, n: nat, m: nat, key: T -> Option<K>, k: Option<K>)
    requires len < m <= |back| && n <= len + 1 && n < m && Stale(back, len, m) && Hits(key, k, back[m - 1])
    requires 0 < len && n <= len ==> back[len - 1] == back[m - 1]
    ensures Sweep(back, len, n, m, key, k) == Panic
    decreases m - n
  {
    if n < len {
      if !Hits(key, k, back[n]) {
        SweepPanics(back, len, n + 1, m, key, k);
      } else {
        var b := CloseGap(back, len, n);
        assert b[m - 1] == back[m - 1];
        SweepPanics(b, len - 1, n + 1, m, key, k);
      }
    }
  }

  /** The list's last element hits: the pass panics if anything before it hits too, and otherwise removes just it. */
  lemma {:induction false} SweepHitsLast<T, K>(back: seq<T>, n: nat, m: nat, key: T -> Option<K>, k: Option<K>)
    requires n < m <= |back| && Hits(key, k, back[m - 1])
    ensures (exists j :: n <= j < m - 1 && Hits(key, k, back[j])) ==> Sweep(back, m, n, m, key, k) == Panic
    ensures !(exists j :: n <= j < m - 1 && Hits(key, k, back[j])) ==>
              Sweep(back, m, n, m, key, k) == Slice(back, m - 1) && Thin(back[n..m], key, k) == back[n..m - 1]
    decreases m - n
  {
    assert back[n..m][1..] == back[n + 1..m];
    if n == m - 1 {
      assert CloseGap(back, m, n) == back;
    } else if !Hits(key, k, back[n]) {
      SweepHitsLast(back, n + 1, m, key, k);
      assert back[n..m - 1] == [back[n]] + back[n + 1..m - 1];
    } else {
      var b := CloseGap(back, m, n);
      assert b[m - 1] == back[m - 1] && Stale(b, m - 1, m);
      SweepPanics(b, m - 1, n + 1, m, key, k);
    }
  }

  /** The last element hits and so does an earlier one. */
  predicate LastRepeats<T, K(==)>(s: seq<T>, key: T -> Option<K>, k: Option<K>) {
    s != [] && Hits(key, k, s[|s| - 1]) && exists j :: 0 <= j < |s| - 1 && Hits(key, k, s[j])
  }

  /** One pass over a whole slice: it panics exactly when the last element is one of several that hit; otherwise it
      thins the list out in place. */
  lemma SweepLaw<T, K>(back: seq<T>, len: nat, key: T -> Option<K>, k: Option<K>)
    requires len <= |back|
    ensures var s := Sweep(back, len, 0, len, key, k);
      && (s.Panic? <==> LastRepeats(back[..len], key, k))
      && (s.Slice? ==>
            s.back[..s.len] == Thin(back[..len], key, k) && s.back[len..] == back[len..] && Stale(s.back, s.len, len))
      && (s.Slice? && 0 < len ==> s.back[len - 1] == back[len - 1])
  {
    var list := back[..len];
    if len == 0 {
      assert list == [];
    } else {
      assert list[|list| - 1] == back[len - 1] && back[0..len] == list && back[..0] == [];
      if Hits(key, k, back[len - 1]) {
        SweepLast(back, len, key, k);
      } else {
        SweepKeepsLast(back, len, 0, len, key, k);
        hide Thin, Sweep;
        assert [] + Thin(list, key, k) == Thin(list, key, k);
      }
    }
  }

  lemma SweepLast<T, K>(back: seq<T>, len: nat, key: T -> Option<K>, k: Option<K>)
    requires 0 < len <= |back| && Hits(key, k, back[len - 1])
    ensures LastRepeats(back[..len], key, k) ==> Sweep(back, len, 0, len, key, k) == Panic
    ensures !LastRepeats(back[..len], key, k) ==>
              Sweep(back, len, 0, len, key, k) == Slice(back, len - 1) && Thin(back[..len], key, k) == back[..len - 1]
  {
    hide Thin, Sweep;
    var list := back[..len];
    assert back[0..len] == list && back[0..len - 1] == back[..len - 1];
    SweepHitsLast(back, 0, len, key, k);
    if j :| 0 <= j < len - 1 && Hits(key, k, back[j]) {
      assert Hits(key, k, list[j]);
    }
    if j :| 0 <= j < len - 1 && Hits(key, k, list[j]) {
      assert Hits(key, k, back[j]);
    }
  }
}
