/**
 * The two list operations the pages build on: `Array.prototype.filter`
 * and `[...new Set(xs)]`, which keeps each value once, at the place of its
 * first occurrence.
 */
module Lists {

  /** `s.filter(p)`: the elements of `s` that satisfy `p`, in their order. */
  function Filter<T>(s: seq<T>, p: T -> bool): (r: seq<T>)
    ensures |r| <= |s|
    ensures forall x :: x in r ==> x in s && p(x)
  {
    if s == [] then [] else (if p(s[0]) then [s[0]] else []) + Filter(s[1..], p)
  }

  /** Filtering a concatenation filters each side and keeps them in order. */
  lemma {:induction false} FilterConcat<T>(a: seq<T>, b: seq<T>, p: T -> bool)
    ensures Filter(a + b, p) == Filter(a, p) + Filter(b, p)
  {
    if a == [] {
      assert a + b == b;
    } else {
      assert (a + b)[0] == a[0];
      assert (a + b)[1..] == a[1..] + b;
      FilterConcat(a[1..], b, p);
    }
  }

  /** Every element that satisfies `p` is kept, with all its occurrences; the others are all dropped. */
  lemma {:induction false} FilterCounts<T>(s: seq<T>, p: T -> bool, x: T)
    ensures multiset(Filter(s, p))[x] == if p(x) then multiset(s)[x] else 0
  {
    if s != [] {
      FilterCounts(s[1..], p, x);
      assert s == [s[0]] + s[1..];
      assert multiset(s) == multiset([s[0]]) + multiset(s[1..]);
    }
  }

  /** Membership in the result is exactly membership in `s` and `p`. */
  lemma FilterMembers<T>(s: seq<T>, p: T -> bool)
    ensures forall x :: x in Filter(s, p) <==> x in s && p(x)
  {
    forall x | x in s && p(x) ensures x in Filter(s, p) {
      FilterCounts(s, p, x);
      assert multiset(Filter(s, p))[x] > 0;
    }
  }

  /** When every element satisfies `p` nothing is dropped. */
  lemma {:induction false} FilterAll<T>(s: seq<T>, p: T -> bool)
    requires forall x :: x in s ==> p(x)
    ensures Filter(s, p) == s
  {
    if s != [] {
      FilterAll(s[1..], p);
      assert s == [s[0]] + s[1..];
    }
  }

  /** Filters with the same verdict on every element give the same result. */
  lemma {:induction false} FilterSameVerdict<T>(s: seq<T>, p: T -> bool, q: T -> bool)
    requires forall x :: x in s ==> p(x) == q(x)
    ensures Filter(s, p) == Filter(s, q)
  {
    if s != [] {
      FilterSameVerdict(s[1..], p, q);
    }
  }

  // ---------------------------------------------------------------------
  // [...new Set(s)]
  // ---------------------------------------------------------------------

  /** A sequence with no value twice. */
  predicate NoDuplicates<T(==)>(s: seq<T>)
  {
    forall i, j :: 0 <= i < j < |s| ==> s[i] != s[j]
  }

  /** Where `x` first occurs in `s`. */
  function FirstIndex<T(==)>(s: seq<T>, x: T): (i: nat)
    requires x in s
    ensures i < |s| && s[i] == x && x !in s[..i]
  {
    if s[0] == x then 0 else 1 + FirstIndex(s[1..], x)
  }

  /**
   * `[...new Set(s)]`: each value of `s` once, where it first occurs; the
   * set is filled in order, and a value already in it is not added again.
   */
  function Distinct<T(==)>(s: seq<T>): (r: seq<T>)
    decreases |s|
  {
    if s == [] then []
    else
      var before := Distinct(s[..|s| - 1]);
      if s[|s| - 1] in before then before else before + [s[|s| - 1]]
  }

  /** The result holds no value twice and exactly the values of `s`. */
  lemma {:induction false} DistinctValues<T>(s: seq<T>)
    decreases |s|
    ensures NoDuplicates(Distinct(s))
    ensures forall x :: x in Distinct(s) ==> x in s
    ensures forall x :: x in s ==> x in Distinct(s)
  {
    if s != [] {
      var init := s[..|s| - 1];
      DistinctValues(init);
      assert s == init + [s[|s| - 1]];
    }
  }

  /** The values are listed in the order of their first occurrences in `s`. */
  lemma {:induction false} DistinctFirstOccurrenceOrder<T>(s: seq<T>)
    decreases |s|
    ensures forall i :: 0 <= i < |Distinct(s)| ==> Distinct(s)[i] in s
    ensures forall i, j :: 0 <= i < j < |Distinct(s)| ==>
      FirstIndex(s, Distinct(s)[i]) < FirstIndex(s, Distinct(s)[j])
  {
    if s != [] {
      var init, last := s[..|s| - 1], s[|s| - 1];
      var d := Distinct(init);
      DistinctFirstOccurrenceOrder(init);
      DistinctValues(init);
      assert s == init + [last];
      forall x | x in init ensures x in s && FirstIndex(s, x) == FirstIndex(init, x) {
        FirstIndexOfPrefix(init, [last], x);
      }
      forall i | 0 <= i < |d| ensures d[i] in init {
        assert d[i] in Distinct(init);
      }
      if last !in d {
        assert s[..|init|] == init;
        FirstIndexUnique(s, last, |init|);
        var r := Distinct(s);
        assert r == d + [last];
        assert forall i :: 0 <= i < |r| ==> r[i] in s;
        forall i, j | 0 <= i < j < |r|
          ensures FirstIndex(s, r[i]) < FirstIndex(s, r[j])
        {
          assert r[i] == d[i];
          if j < |d| {
            assert r[j] == d[j];
          }
        }
      } else {
        var r := Distinct(s);
        assert r == d;
        assert forall i :: 0 <= i < |r| ==> r[i] in s;
        forall i, j | 0 <= i < j < |r|
          ensures FirstIndex(s, r[i]) < FirstIndex(s, r[j])
        {
          assert r[i] == d[i] && r[j] == d[j];
        }
      }
    }
  }

  /** A value found in a prefix is first found at the same place in the whole. */
  lemma FirstIndexOfPrefix<T>(a: seq<T>, b: seq<T>, x: T)
    requires x in a
    ensures x in a + b && FirstIndex(a + b, x) == FirstIndex(a, x)
  {
    var i := FirstIndex(a, x);
    var s := a + b;
    assert s[i] == x;
    assert s[..i] == a[..i];
    FirstIndexUnique(s, x, i);
  }

  /** The first occurrence is the only position holding `x` with no `x` before it. */
  lemma FirstIndexUnique<T>(s: seq<T>, x: T, i: nat)
    requires i < |s| && s[i] == x && x !in s[..i]
    ensures FirstIndex(s, x) == i
  {
  }
}
