/** Orders used as sort keys: the comparison Python applies to the values a
    task list is sorted by (strings, compared code point by code point, and
    integers standing for timestamps). */
module Ordering {

  /** `less` is a strict total order: irreflexive, transitive and total on
      distinct values. Sorting by such an order is what `list.sort` does when
      it compares keys with `<`. */
  ghost predicate StrictTotalOrder<K(!new)>(less: (K, K) -> bool) {
    && (forall a :: !less(a, a))
    && (forall a, b, c :: less(a, b) && less(b, c) ==> less(a, c))
    && (forall a, b :: a != b ==> less(a, b) || less(b, a))
  }

  /** Python's `<` on `str`: lexicographic by code point, a proper prefix
      being smaller than the longer string. */
  function StrLess(a: string, b: string): (r: bool)
    ensures a < b ==> r
    ensures b <= a ==> !r
  {
    if |a| == 0 then |b| > 0
    else if |b| == 0 then false
    else a[0] < b[0] || (a[0] == b[0] && StrLess(a[1..], b[1..]))
  }

  /** Python's `<` on `int` (and on timestamps, modelled as integers). */
  function IntLess(a: int, b: int): (r: bool)
    ensures r <==> a < b
  {
    a < b
  }

  lemma {:induction false} StrLessTransitive(a: string, b: string, c: string)
    requires StrLess(a, b) && StrLess(b, c)
    ensures StrLess(a, c)
  {
    if |a| > 0 && a[0] == b[0] && b[0] == c[0] {
      StrLessTransitive(a[1..], b[1..], c[1..]);
    }
  }

  lemma {:induction false} StrLessTotal(a: string, b: string)
    requires a != b
    ensures StrLess(a, b) || StrLess(b, a)
  {
    if |a| > 0 && |b| > 0 && a[0] == b[0] {
      assert a == [a[0]] + a[1..] && b == [b[0]] + b[1..];
      StrLessTotal(a[1..], b[1..]);
    }
  }

  /** Comparing priorities as strings is a strict total order, so sorting by
      priority has a single stable outcome. */
  lemma StrLessIsStrictTotalOrder()
    ensures StrictTotalOrder(StrLess)
  {
    forall a, b, c | StrLess(a, b) && StrLess(b, c) ensures StrLess(a, c) {
      StrLessTransitive(a, b, c);
    }
    forall a, b | a != b ensures StrLess(a, b) || StrLess(b, a) {
      StrLessTotal(a, b);
    }
  }

  lemma IntLessIsStrictTotalOrder()
    ensures StrictTotalOrder(IntLess)
  {
  }

  /** The three priority labels the form offers come out in alphabetical
      order, not in order of severity. */
  lemma PriorityLabelsAlphabetical()
    ensures StrLess("High", "Low") && StrLess("Low", "Normal") && StrLess("High", "Normal")
  {
    assert "High"[0] == 'H' && "Low"[0] == 'L' && "Normal"[0] == 'N';
  }
}
