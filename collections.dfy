/**
 * The pandas idioms the modeller is built from, on sequences of rows:
 * `drop_duplicates` (keep the first occurrence, in row order) and
 * `dict(zip(keys, values))` (later pairs overwrite earlier ones).
 */
module Collections {

  /** The keys of the rows of `s`. */
  function KeysOf<T, K>(s: seq<T>, key: T -> K): (ks: set<K>)
    ensures forall i :: 0 <= i < |s| ==> key(s[i]) in ks
  {
    if s == [] then {} else KeysOf(s[..|s| - 1], key) + {key(s[|s| - 1])}
  }

  /** Every key of `s` is the key of one of its rows. */
  lemma {:induction false} KeysOfWitness<T, K>(s: seq<T>, key: T -> K, k: K)
    requires k in KeysOf(s, key)
    ensures exists i :: 0 <= i < |s| && key(s[i]) == k
  {
    var init := s[..|s| - 1];
    if k != key(s[|s| - 1]) {
      KeysOfWitness(init, key, k);
      var i :| 0 <= i < |init| && key(init[i]) == k;
      assert s[i] == init[i];
    }
  }

  /** No two rows of `s` share a key. */
  predicate DistinctKeys<T, K(==)>(s: seq<T>, key: T -> K) {
    forall i, j :: 0 <= i < j < |s| ==> key(s[i]) != key(s[j])
  }

  /** Index of the first row of `s` whose key is `k`. */
  function FirstKeyIndex<T, K(==)>(s: seq<T>, key: T -> K, k: K): (i: nat)
    requires k in KeysOf(s, key)
    ensures i < |s| && key(s[i]) == k
    ensures forall m :: 0 <= m < i ==> key(s[m]) != k
  {
    if key(s[0]) == k then 0
    else
      assert k in KeysOf(s[1..], key) by {
        KeysOfWitness(s, key, k);
        var j :| 0 <= j < |s| && key(s[j]) == k;
        assert key(s[1..][j - 1]) == k;
      }
      1 + FirstKeyIndex(s[1..], key, k)
  }

  /**
   * `drop_duplicates(subset=key)`: keeps the first row for each key, in row
   * order. The result has distinct keys and loses no key of the input.
   */
  function DedupBy<T, K(==)>(s: seq<T>, key: T -> K): (r: seq<T>)
    ensures DistinctKeys(r, key)
    ensures forall j :: 0 <= j < |r| ==> r[j] in s
    ensures KeysOf(r, key) == KeysOf(s, key)
    ensures |r| <= |s|
  {
    if s == [] then []
    else
      var p := DedupBy(s[..|s| - 1], key);
      var x := s[|s| - 1];
      if key(x) in KeysOf(p, key) then p else p + [x]
  }

  /** Each row of `r` is the first row of `s` with its key. */
  ghost predicate FirstRowsOf<T, K>(r: seq<T>, s: seq<T>, key: T -> K) {
    forall j :: 0 <= j < |r| ==> key(r[j]) in KeysOf(s, key) && r[j] == s[FirstKeyIndex(s, key, key(r[j]))]
  }

  /** Each kept row is the first row of the input with its key. */
  lemma {:induction false} DedupByKeepsFirst<T, K>(s: seq<T>, key: T -> K)
    ensures forall j :: 0 <= j < |DedupBy(s, key)| ==>
      DedupBy(s, key)[j] == s[FirstKeyIndex(s, key, key(DedupBy(s, key)[j]))]
  {
    DedupByFirstRows(s, key);
  }

  lemma {:induction false} DedupByFirstRows<T, K>(s: seq<T>, key: T -> K)
    ensures FirstRowsOf(DedupBy(s, key), s, key)
  {
    if s != [] {
      var init := s[..|s| - 1];
      DedupByFirstRows(init, key);
      KeptBeforeLastRow(s, key);
      var p := DedupBy(init, key);
      var x := s[|s| - 1];
      assert KeysOf(p, key) == KeysOf(init, key);
      if key(x) !in KeysOf(p, key) {
        NewKeyRowFirst(s, key, p);
      }
    }
  }

  /** A row whose key is new is the first of its key, after those kept before it. */
  lemma NewKeyRowFirst<T, K>(s: seq<T>, key: T -> K, p: seq<T>)
    requires s != [] && key(s[|s| - 1]) !in KeysOf(s[..|s| - 1], key)
    requires FirstRowsOf(p, s, key)
    ensures FirstRowsOf(p + [s[|s| - 1]], s, key)
  {
    var r := p + [s[|s| - 1]];
    FirstKeyIndexOfNewKey(s, key);
    forall j | 0 <= j < |r|
      ensures key(r[j]) in KeysOf(s, key) && r[j] == s[FirstKeyIndex(s, key, key(r[j]))]
    {
      if j < |p| {
        assert r[j] == p[j];
      }
    }
  }

  /** The rows kept from all but the last row are still the first of their keys once the last row is added. */
  lemma KeptBeforeLastRow<T, K>(s: seq<T>, key: T -> K)
    requires s != []
    requires FirstRowsOf(DedupBy(s[..|s| - 1], key), s[..|s| - 1], key)
    ensures FirstRowsOf(DedupBy(s[..|s| - 1], key), s, key)
  {
    var init := s[..|s| - 1];
    var p := DedupBy(init, key);
    forall j | 0 <= j < |p|
      ensures key(p[j]) in KeysOf(s, key) && p[j] == s[FirstKeyIndex(s, key, key(p[j]))]
    {
      FirstKeyIndexPrefix(s, key, key(p[j]));
    }
  }

  /** The first row with a key that occurs before the last row is found in the prefix. */
  lemma FirstKeyIndexPrefix<T, K>(s: seq<T>, key: T -> K, k: K)
    requires s != [] && k in KeysOf(s[..|s| - 1], key)
    ensures k in KeysOf(s, key)
    ensures FirstKeyIndex(s, key, k) == FirstKeyIndex(s[..|s| - 1], key, k)
  {
    var init := s[..|s| - 1];
    var i := FirstKeyIndex(init, key, k);
    assert key(s[i]) == k;
    forall m | 0 <= m < i
      ensures key(s[m]) != k
    {
      assert s[m] == init[m];
    }
  }

  /** A key that the last row introduces is first seen at the last row. */
  lemma FirstKeyIndexOfNewKey<T, K>(s: seq<T>, key: T -> K)
    requires s != [] && key(s[|s| - 1]) !in KeysOf(s[..|s| - 1], key)
    ensures FirstKeyIndex(s, key, key(s[|s| - 1])) == |s| - 1
  {
    var init := s[..|s| - 1];
    forall m | 0 <= m < |s| - 1
      ensures key(s[m]) != key(s[|s| - 1])
    {
      assert s[m] == init[m];
    }
  }

  /** The kept rows appear in the order in which their keys are first seen. */
  lemma {:induction false} DedupByFirstSeenOrder<T, K>(s: seq<T>, key: T -> K)
    ensures forall j1, j2 :: 0 <= j1 < j2 < |DedupBy(s, key)| ==>
      FirstKeyIndex(s, key, key(DedupBy(s, key)[j1])) < FirstKeyIndex(s, key, key(DedupBy(s, key)[j2]))
  {
    if s != [] {
      var init := s[..|s| - 1];
      var p := DedupBy(init, key);
      DedupByFirstSeenOrder(init, key);
      var r := DedupBy(s, key);
      forall j1, j2 | 0 <= j1 < j2 < |r|
        ensures FirstKeyIndex(s, key, key(r[j1])) < FirstKeyIndex(s, key, key(r[j2]))
      {
        assert r[j1] == p[j1];
        assert key(p[j1]) in KeysOf(init, key);
        FirstKeyIndexPrefix(s, key, key(p[j1]));
        if j2 < |p| {
          assert r[j2] == p[j2];
          FirstKeyIndexPrefix(s, key, key(p[j2]));
        } else {
          var x := s[|s| - 1];
          assert r[j2] == x && key(x) !in KeysOf(init, key);
          FirstKeyIndexOfNewKey(s, key);
        }
      }
    }
  }

  /** A sequence with distinct keys has exactly as many rows as keys. */
  lemma {:induction false} DistinctKeysCount<T, K>(s: seq<T>, key: T -> K)
    requires DistinctKeys(s, key)
    ensures |KeysOf(s, key)| == |s|
  {
    if s != [] {
      var init := s[..|s| - 1];
      DistinctKeysCount(init, key);
      if key(s[|s| - 1]) in KeysOf(init, key) {
        KeysOfWitness(init, key, key(s[|s| - 1]));
      }
    }
  }

  /** `drop_duplicates` leaves one row per distinct key: as many rows as distinct keys. */
  lemma DedupByCount<T, K>(s: seq<T>, key: T -> K)
    ensures |DedupBy(s, key)| == |KeysOf(s, key)|
  {
    DistinctKeysCount(DedupBy(s, key), key);
  }

  /** When the input is ordered by `rank`, so is what `drop_duplicates` keeps. */
  lemma {:induction false} DedupByKeepsOrder<T, K>(s: seq<T>, key: T -> K, rank: T -> int)
    requires forall i, j :: 0 <= i < j < |s| ==> rank(s[i]) < rank(s[j])
    ensures forall i, j :: 0 <= i < j < |DedupBy(s, key)| ==> rank(DedupBy(s, key)[i]) < rank(DedupBy(s, key)[j])
  {
    if s != [] {
      var init := s[..|s| - 1];
      DedupByKeepsOrder(init, key, rank);
      var p := DedupBy(init, key);
      var r := DedupBy(s, key);
      forall i, j | 0 <= i < j < |r|
        ensures rank(r[i]) < rank(r[j])
      {
        if j == |p| {
          assert r[i] == p[i] && r[j] == s[|s| - 1];
          assert p[i] in init;
          var m :| 0 <= m < |init| && init[m] == p[i];
          assert s[m] == p[i];
        } else {
          assert r[i] == p[i] && r[j] == p[j];
        }
      }
    }
  }

  /** Identity key: `drop_duplicates()` over whole rows. */
  function Self<T>(x: T): T {
    x
  }

  /** `dict(zip(ks, vs))`: every key bound, a key that repeats takes its last value. */
  function ZipMap<K, V>(ks: seq<K>, vs: seq<V>): (m: map<K, V>)
    requires |ks| == |vs|
    ensures m.Keys == set i | 0 <= i < |ks| :: ks[i]
  {
    if ks == [] then map[]
    else ZipMap(ks[..|ks| - 1], vs[..|vs| - 1])[ks[|ks| - 1] := vs[|vs| - 1]]
  }

  /** A key is bound to the value paired with its last occurrence. */
  lemma {:induction false} ZipMapLastWins<K, V>(ks: seq<K>, vs: seq<V>, i: nat)
    requires |ks| == |vs| && i < |ks|
    requires forall j :: i < j < |ks| ==> ks[j] != ks[i]
    ensures ZipMap(ks, vs)[ks[i]] == vs[i]
  {
    if i < |ks| - 1 {
      ZipMapLastWins(ks[..|ks| - 1], vs[..|vs| - 1], i);
    }
  }

  /** With distinct keys, `dict(zip(ks, vs))` binds each key to its own value. */
  lemma ZipMapDistinct<K, V>(ks: seq<K>, vs: seq<V>)
    requires |ks| == |vs| && DistinctKeys(ks, Self)
    ensures forall i :: 0 <= i < |ks| ==> ZipMap(ks, vs)[ks[i]] == vs[i]
  {
    forall i | 0 <= i < |ks|
      ensures ZipMap(ks, vs)[ks[i]] == vs[i]
    {
      forall j | i < j < |ks|
        ensures ks[j] != ks[i]
      {
        assert Self(ks[i]) != Self(ks[j]);
      }
      ZipMapLastWins(ks, vs, i);
    }
  }

  /** Builds `dict(zip(ks, vs))` pair by pair, as the Python constructor does. */
  method DictZip<K, V>(ks: seq<K>, vs: seq<V>) returns (m: map<K, V>)
    requires |ks| == |vs|
    ensures m == ZipMap(ks, vs)
  {
    m := map[];
    var i := 0;
    while i < |ks|
      invariant 0 <= i <= |ks|
      invariant m == ZipMap(ks[..i], vs[..i])
    {
      assert ks[..i + 1][..i] == ks[..i] && vs[..i + 1][..i] == vs[..i];
      m := m[ks[i] := vs[i]];
      i := i + 1;
    }
    assert ks[..i] == ks && vs[..i] == vs;
  }

  /** `[y for x in s for y in f(x)]`: the outputs of each element, in element order. */
  function FlatMap<T, U>(s: seq<T>, f: T -> seq<U>): seq<U> {
    if s == [] then [] else FlatMap(s[..|s| - 1], f) + f(s[|s| - 1])
  }

  /** Flattening one more element of a prefix appends that element's image. */
  lemma FlatMapPrefixStep<T, U>(s: seq<T>, i: nat, f: T -> seq<U>)
    requires i < |s|
    ensures FlatMap(s[..i + 1], f) == FlatMap(s[..i], f) + f(s[i])
  {
    assert s[..i + 1][..i] == s[..i];
  }

  /** Flattening two blocks is flattening each and concatenating. */
  lemma {:induction false} FlatMapAppend<T, U>(a: seq<T>, b: seq<T>, f: T -> seq<U>)
    ensures FlatMap(a + b, f) == FlatMap(a, f) + FlatMap(b, f)
  {
    if b == [] {
      assert a + b == a;
    } else {
      FlatMapAppend(a, b[..|b| - 1], f);
      assert (a + b)[..|a + b| - 1] == a + b[..|b| - 1];
    }
  }

  /** An output appears exactly when some element produces it. */
  lemma {:induction false} FlatMapMember<T, U>(s: seq<T>, f: T -> seq<U>, y: U)
    ensures y in FlatMap(s, f) <==> exists i :: 0 <= i < |s| && y in f(s[i])
  {
    if s != [] {
      var init := s[..|s| - 1];
      FlatMapMember(init, f, y);
      if y in FlatMap(init, f) {
        var i :| 0 <= i < |init| && y in f(init[i]);
        assert s[i] == init[i];
      }
      if exists i :: 0 <= i < |s| && y in f(s[i]) {
        var i :| 0 <= i < |s| && y in f(s[i]);
        if i < |init| {
          assert init[i] == s[i];
        }
      }
    }
  }

  /** Nothing is produced exactly when no element produces anything. */
  lemma {:induction false} FlatMapEmpty<T, U>(s: seq<T>, f: T -> seq<U>)
    ensures FlatMap(s, f) == [] <==> forall i :: 0 <= i < |s| ==> f(s[i]) == []
  {
    if s != [] {
      var init := s[..|s| - 1];
      FlatMapEmpty(init, f);
      assert |FlatMap(s, f)| == |FlatMap(init, f)| + |f(s[|s| - 1])|;
      if forall i :: 0 <= i < |s| ==> f(s[i]) == [] {
        forall i | 0 <= i < |init|
          ensures f(init[i]) == []
        {
          assert init[i] == s[i];
        }
      }
      if FlatMap(s, f) == [] {
        forall i | 0 <= i < |s|
          ensures f(s[i]) == []
        {
          if i < |init| {
            assert s[i] == init[i];
          }
        }
      }
    }
  }
}
