/** A stable sort of (key, value) pairs by key, the behaviour of Python's
    `list.sort(key=...)`. The sort is stated as an insertion sort; the
    lemmas show that its result is a permutation, ordered by key, keeps the
    relative order of equal keys, and is the only sequence with those three
    properties, so it is what any stable sort returns. */
module Sorting {
  import opened Ordering

  /** The values of a sequence of pairs, in order. */
  function Values<K, V>(s: seq<(K, V)>): (r: seq<V>)
    ensures |r| == |s|
    ensures forall i :: 0 <= i < |s| ==> r[i] == s[i].1
  {
    seq(|s|, i requires 0 <= i < |s| => s[i].1)
  }

  /** The pairs of `s` whose key is `k`, in their order in `s`. */
  function WithKey<K(==), V>(s: seq<(K, V)>, k: K): seq<(K, V)> {
    if s == [] then []
    else (if s[0].0 == k then [s[0]] else []) + WithKey(s[1..], k)
  }

  /** No pair is preceded by a pair with a larger key. */
  ghost predicate SortedBy<K, V>(s: seq<(K, V)>, less: (K, K) -> bool) {
    forall i, j :: 0 <= i < j < |s| ==> !less(s[j].0, s[i].0)
  }

  /** `r` keeps, for every key, the pairs with that key in the order `s`
      has them. */
  ghost predicate SameOrderPerKey<K(!new), V>(r: seq<(K, V)>, s: seq<(K, V)>) {
    forall k :: WithKey(r, k) == WithKey(s, k)
  }

  /** Places `x` before the first pair of `s` whose key is not smaller. */
  function Insert<K, V>(x: (K, V), s: seq<(K, V)>, less: (K, K) -> bool): (r: seq<(K, V)>)
    ensures |r| == |s| + 1
  {
    if s == [] || !less(s[0].0, x.0) then [x] + s
    else [s[0]] + Insert(x, s[1..], less)
  }

  /** Sorts `s` by key, keeping equal keys in their original order. The
      result has as many pairs as the input; `SortByFacts` states the rest. */
  function SortBy<K, V>(s: seq<(K, V)>, less: (K, K) -> bool): (r: seq<(K, V)>)
    ensures |r| == |s|
  {
    if s == [] then []
    else Insert(s[0], SortBy(s[1..], less), less)
  }

  /** Inserting adds `x` and keeps every other pair. */
  lemma {:induction false} InsertPermutes<K, V>(x: (K, V), s: seq<(K, V)>, less: (K, K) -> bool)
    ensures multiset(Insert(x, s, less)) == multiset(s) + multiset{x}
  {
    if s != [] && less(s[0].0, x.0) {
      InsertPermutes(x, s[1..], less);
      assert s == [s[0]] + s[1..];
    }
  }

  /** Sorting only reorders the pairs. */
  lemma {:induction false} SortByPermutes<K, V>(s: seq<(K, V)>, less: (K, K) -> bool)
    ensures multiset(SortBy(s, less)) == multiset(s)
  {
    if s != [] {
      SortByPermutes(s[1..], less);
      InsertPermutes(s[0], SortBy(s[1..], less), less);
      assert s == [s[0]] + s[1..];
    }
  }

  lemma {:induction false} ValuesConcat<K, V>(a: seq<(K, V)>, b: seq<(K, V)>)
    ensures Values(a + b) == Values(a) + Values(b)
  {
  }

  lemma ValuesCons<K, V>(s: seq<(K, V)>)
    requires s != []
    ensures Values(s) == [s[0].1] + Values(s[1..])
  {
  }

  lemma {:induction false} InsertPermutesValues<K, V>(x: (K, V), s: seq<(K, V)>, less: (K, K) -> bool)
    ensures multiset(Values(Insert(x, s, less))) == multiset(Values(s)) + multiset{x.1}
  {
    if s == [] || !less(s[0].0, x.0) {
      ValuesConcat([x], s);
    } else {
      InsertPermutesValues(x, s[1..], less);
      ValuesConcat([s[0]], s[1..]);
      ValuesConcat([s[0]], Insert(x, s[1..], less));
      assert s == [s[0]] + s[1..];
    }
  }

  /** The values of the sorted pairs are a permutation of the input's. */
  lemma {:induction false} SortByPermutesValues<K, V>(s: seq<(K, V)>, less: (K, K) -> bool)
    ensures multiset(Values(SortBy(s, less))) == multiset(Values(s))
  {
    if s != [] {
      SortByPermutesValues(s[1..], less);
      InsertPermutesValues(s[0], SortBy(s[1..], less), less);
      ValuesCons(s);
    }
  }

  lemma SortedCons<K, V>(h: (K, V), t: seq<(K, V)>, less: (K, K) -> bool)
    requires SortedBy(t, less)
    requires forall j :: 0 <= j < |t| ==> !less(t[j].0, h.0)
    ensures SortedBy([h] + t, less)
  {
    var r := [h] + t;
    forall i, j | 0 <= i < j < |r| ensures !less(r[j].0, r[i].0) {
      assert r[j] == t[j - 1];
      if i > 0 { assert r[i] == t[i - 1]; }
    }
  }

  lemma {:induction false} InsertSorted<K(!new), V>(x: (K, V), s: seq<(K, V)>, less: (K, K) -> bool)
    requires StrictTotalOrder(less)
    requires SortedBy(s, less)
    ensures SortedBy(Insert(x, s, less), less)
  {
    if s == [] || !less(s[0].0, x.0) {
      forall j | 0 <= j < |s| ensures !less(s[j].0, x.0) {
        if j > 0 { assert !less(s[j].0, s[0].0); }
      }
      SortedCons(x, s, less);
    } else {
      var t := Insert(x, s[1..], less);
      InsertSorted(x, s[1..], less);
      InsertPermutes(x, s[1..], less);
      forall j | 0 <= j < |t| ensures !less(t[j].0, s[0].0) {
        assert t[j] in multiset(t);
        if t[j] != x {
          assert t[j] in multiset(s[1..]);
          var m :| 0 <= m < |s[1..]| && s[1..][m] == t[j];
          assert s[m + 1] == t[j];
        }
      }
      SortedCons(s[0], t, less);
    }
  }

  /** What the sort promises for a strict total order, in one place: the
      result is ordered by key, keeps every key's pairs in their order, only
      reorders the values, and holds only pairs of the input. */
  lemma SortByFacts<K(!new), V>(s: seq<(K, V)>, less: (K, K) -> bool)
    requires StrictTotalOrder(less)
    ensures SortedBy(SortBy(s, less), less)
    ensures SameOrderPerKey(SortBy(s, less), s)
    ensures multiset(Values(SortBy(s, less))) == multiset(Values(s))
    ensures forall x :: x in SortBy(s, less) ==> x in s
  {
    SortBySorted(s, less);
    SortByStable(s, less);
    SortByPermutesValues(s, less);
    SortByPermutes(s, less);
    forall x | x in SortBy(s, less) ensures x in s {
      assert x in multiset(SortBy(s, less));
    }
  }

  /** The sorted sequence is ordered by key. */
  lemma {:induction false} SortBySorted<K(!new), V>(s: seq<(K, V)>, less: (K, K) -> bool)
    requires StrictTotalOrder(less)
    ensures SortedBy(SortBy(s, less), less)
  {
    if s != [] {
      SortBySorted(s[1..], less);
      InsertSorted(s[0], SortBy(s[1..], less), less);
    }
  }

  lemma {:induction false} WithKeyConcat<K, V>(a: seq<(K, V)>, b: seq<(K, V)>, k: K)
    ensures WithKey(a + b, k) == WithKey(a, k) + WithKey(b, k)
  {
    if a == [] {
      assert a + b == b;
    } else {
      assert (a + b)[0] == a[0] && (a + b)[1..] == a[1..] + b;
      WithKeyConcat(a[1..], b, k);
      var h := if a[0].0 == k then [a[0]] else [];
      assert WithKey(a + b, k) == h + WithKey(a[1..] + b, k);
      assert WithKey(a, k) == h + WithKey(a[1..], k);
    }
  }

  lemma {:induction false} WithKeyInsert<K, V>(x: (K, V), s: seq<(K, V)>, less: (K, K) -> bool, k: K)
    requires forall a :: !less(a, a)
    ensures WithKey(Insert(x, s, less), k) == (if x.0 == k then [x] else []) + WithKey(s, k)
  {
    if s == [] || !less(s[0].0, x.0) {
      assert ([x] + s)[0] == x && ([x] + s)[1..] == s;
    } else {
      var t := Insert(x, s[1..], less);
      WithKeyInsert(x, s[1..], less, k);
      assert ([s[0]] + t)[0] == s[0] && ([s[0]] + t)[1..] == t;
      assert s[0].0 != x.0;
      var hs := if s[0].0 == k then [s[0]] else [];
      var hx := if x.0 == k then [x] else [];
      assert WithKey([s[0]] + t, k) == hs + WithKey(t, k);
      assert WithKey(s, k) == hs + WithKey(s[1..], k);
      assert hs == [] || hx == [];
    }
  }

  /** The sort is stable: for every key, the pairs with that key keep their
      relative order. */
  lemma {:induction false} SortByStable<K(!new), V>(s: seq<(K, V)>, less: (K, K) -> bool)
    requires forall a :: !less(a, a)
    ensures SameOrderPerKey(SortBy(s, less), s)
  {
    if s != [] {
      SortByStable(s[1..], less);
      forall k ensures WithKey(SortBy(s, less), k) == WithKey(s, k) {
        WithKeyInsert(s[0], SortBy(s[1..], less), less, k);
      }
    }
  }

  lemma {:induction false} WithKeyMember<K, V>(s: seq<(K, V)>, k: K, x: (K, V))
    requires x in WithKey(s, k)
    ensures x.0 == k && x in s
  {
    if s != [] {
      if s[0].0 == k && x == s[0] {
      } else {
        WithKeyMember(s[1..], k, x);
      }
    }
  }

  lemma HeadKeyPresent<K, V>(s: seq<(K, V)>)
    ensures s != [] ==> WithKey(s, s[0].0) != []
  {
  }

  /** Two sequences that are both ordered by key and agree on the order of
      the pairs of every key are equal: a stable sort has exactly one
      possible result. */
  lemma {:induction false} StableSortUnique<K(!new), V>(r1: seq<(K, V)>, r2: seq<(K, V)>, less: (K, K) -> bool)
    requires StrictTotalOrder(less)
    requires SortedBy(r1, less) && SortedBy(r2, less)
    requires SameOrderPerKey(r1, r2)
    ensures r1 == r2
  {
    if r1 == [] || r2 == [] {
      HeadKeyPresent(r1);
      HeadKeyPresent(r2);
    } else {
      var m1, m2 := r1[0].0, r2[0].0;
      assert r1[0] in WithKey(r1, m1);
      WithKeyMember(r2, m1, r1[0]);
      var j2 :| 0 <= j2 < |r2| && r2[j2] == r1[0];
      assert !less(m1, m2) by {
        if j2 > 0 { assert !less(r2[j2].0, r2[0].0); }
      }
      assert r2[0] in WithKey(r2, m2);
      WithKeyMember(r1, m2, r2[0]);
      var j1 :| 0 <= j1 < |r1| && r1[j1] == r2[0];
      assert !less(m2, m1) by {
        if j1 > 0 { assert !less(r1[j1].0, r1[0].0); }
      }
      assert m1 == m2;
      assert WithKey(r1, m1)[0] == r1[0] && WithKey(r2, m1)[0] == r2[0];
      forall k ensures WithKey(r1[1..], k) == WithKey(r2[1..], k) {
        var p := if r1[0].0 == k then [r1[0]] else [];
        assert WithKey(r1, k) == p + WithKey(r1[1..], k);
        assert WithKey(r2, k) == p + WithKey(r2[1..], k);
        assert WithKey(r1[1..], k) == (p + WithKey(r1[1..], k))[|p|..];
      }
      StableSortUnique(r1[1..], r2[1..], less);
      assert r1 == [r1[0]] + r1[1..] && r2 == [r2[0]] + r2[1..];
    }
  }

  /** Any sequence ordered by key that keeps every key's pairs in their
      original order is the result of `SortBy`. */
  lemma SortByCharacterised<K(!new), V>(s: seq<(K, V)>, r: seq<(K, V)>, less: (K, K) -> bool)
    requires StrictTotalOrder(less)
    requires SortedBy(r, less) && SameOrderPerKey(r, s)
    ensures r == SortBy(s, less)
  {
    SortBySorted(s, less);
    SortByStable(s, less);
    StableSortUnique(r, SortBy(s, less), less);
  }

  /** Sorting a sequence already ordered by key leaves it as it is. */
  lemma SortByKeepsSorted<K(!new), V>(s: seq<(K, V)>, less: (K, K) -> bool)
    requires StrictTotalOrder(less)
    requires SortedBy(s, less)
    ensures SortBy(s, less) == s
  {
    SortByCharacterised(s, s, less);
  }
}
