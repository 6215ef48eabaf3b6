/** Generic filtering and summing over sequences: the row selections and column sums
    the table operations are built from. */
module Seqs {

  /** The elements of `s` that satisfy `keep`, in their original order. */
  function Filter<T(!new)>(s: seq<T>, keep: T -> bool): (r: seq<T>)
    ensures |r| <= |s|
    ensures forall x :: x in r <==> x in s && keep(x)
  {
    if s == [] then []
    else (if keep(s[0]) then [s[0]] else []) + Filter(s[1..], keep)
  }

  /** The sum of `f` over the elements of `s`. */
  function Sum<T>(s: seq<T>, f: T -> nat): nat
  {
    if s == [] then 0 else f(s[0]) + Sum(s[1..], f)
  }

  lemma {:induction false} FilterAppend<T(!new)>(a: seq<T>, b: seq<T>, keep: T -> bool)
    ensures Filter(a + b, keep) == Filter(a, keep) + Filter(b, keep)
    decreases |a|
  {
    if a == [] {
      assert a + b == b;
    } else {
      assert (a + b)[0] == a[0];
      assert (a + b)[1..] == a[1..] + b;
      FilterAppend(a[1..], b, keep);
    }
  }

  lemma {:induction false} SumAppend<T>(a: seq<T>, b: seq<T>, f: T -> nat)
    ensures Sum(a + b, f) == Sum(a, f) + Sum(b, f)
    decreases |a|
  {
    if a == [] {
      assert a + b == b;
    } else {
      assert (a + b)[1..] == a[1..] + b;
      SumAppend(a[1..], b, f);
    }
  }

  /** Filtering by a predicate that implies `outer` after filtering by `outer` is filtering once. */
  lemma {:induction false} FilterOfFilter<T(!new)>(s: seq<T>, outer: T -> bool, inner: T -> bool)
    requires forall x :: inner(x) ==> outer(x)
    ensures Filter(Filter(s, outer), inner) == Filter(s, inner)
    decreases |s|
  {
    if s != [] {
      FilterOfFilter(s[1..], outer, inner);
      var head := if outer(s[0]) then [s[0]] else [];
      FilterAppend(head, Filter(s[1..], outer), inner);
    }
  }

  /** Two predicates that agree on every element select the same elements. */
  lemma {:induction false} FilterCongruent<T(!new)>(s: seq<T>, p: T -> bool, q: T -> bool)
    requires forall x :: x in s ==> p(x) == q(x)
    ensures Filter(s, p) == Filter(s, q)
    decreases |s|
  {
    if s != [] {
      FilterCongruent(s[1..], p, q);
    }
  }

  /** A predicate and its complement split a sequence: their selections' lengths add up to its length. */
  lemma {:induction false} FilterPartitionLength<T(!new)>(s: seq<T>, p: T -> bool, q: T -> bool)
    requires forall x :: p(x) != q(x)
    ensures |Filter(s, p)| + |Filter(s, q)| == |s|
    decreases |s|
  {
    if s != [] {
      FilterPartitionLength(s[1..], p, q);
    }
  }

  /** A predicate and its complement split a sum: the sums over both selections add up to the whole sum. */
  lemma {:induction false} SumPartition<T(!new)>(s: seq<T>, p: T -> bool, q: T -> bool, f: T -> nat)
    requires forall x :: p(x) != q(x)
    ensures Sum(Filter(s, p), f) + Sum(Filter(s, q), f) == Sum(s, f)
    decreases |s|
  {
    if s != [] {
      SumPartition(s[1..], p, q, f);
      var hp := if p(s[0]) then [s[0]] else [];
      var hq := if q(s[0]) then [s[0]] else [];
      SumAppend(hp, Filter(s[1..], p), f);
      SumAppend(hq, Filter(s[1..], q), f);
    }
  }

  /** Every element is at most the sum (the summed function is non-negative). */
  lemma {:induction false} ElementAtMostSum<T>(s: seq<T>, f: T -> nat, x: T)
    requires x in s
    ensures f(x) <= Sum(s, f)
    decreases |s|
  {
    if s[0] != x {
      ElementAtMostSum(s[1..], f, x);
    }
  }

  /** Sequences that agree position by position on `f` have the same sum of `f`. */
  lemma {:induction false} SumPointwise<T>(a: seq<T>, b: seq<T>, f: T -> nat)
    requires |a| == |b|
    requires forall i :: 0 <= i < |a| ==> f(a[i]) == f(b[i])
    ensures Sum(a, f) == Sum(b, f)
    decreases |a|
  {
    if a != [] {
      SumPointwise(a[1..], b[1..], f);
    }
  }

  /** Sequences that agree position by position on `keep` and `f` select as many elements with
      `keep` and give the selections the same sum of `f`. */
  lemma {:induction false} FilterPointwise<T(!new)>(a: seq<T>, b: seq<T>, keep: T -> bool, f: T -> nat)
    requires |a| == |b|
    requires forall i :: 0 <= i < |a| ==> keep(a[i]) == keep(b[i]) && f(a[i]) == f(b[i])
    ensures |Filter(a, keep)| == |Filter(b, keep)|
    ensures Sum(Filter(a, keep), f) == Sum(Filter(b, keep), f)
    decreases |a|
  {
    if a != [] {
      FilterPointwise(a[1..], b[1..], keep, f);
      var ha := if keep(a[0]) then [a[0]] else [];
      var hb := if keep(b[0]) then [b[0]] else [];
      SumAppend(ha, Filter(a[1..], keep), f);
      SumAppend(hb, Filter(b[1..], keep), f);
    }
  }

  /** Selecting after a row-by-row rewrite that never changes whether a row is selected is
      selecting first and rewriting the selected rows. */
  lemma {:induction false} FilterOfRowMap<T(!new)>(a: seq<T>, b: seq<T>, keep: T -> bool, f: T -> T)
    requires |a| == |b|
    requires forall i :: 0 <= i < |a| ==> b[i] == f(a[i])
    requires forall x :: keep(f(x)) == keep(x)
    ensures |Filter(b, keep)| == |Filter(a, keep)|
    ensures forall i :: 0 <= i < |Filter(a, keep)| ==> Filter(b, keep)[i] == f(Filter(a, keep)[i])
    decreases |a|
  {
    if a != [] {
      FilterOfRowMap(a[1..], b[1..], keep, f);
      assert keep(b[0]) == keep(a[0]);
      var fa, fb := Filter(a, keep), Filter(b, keep);
      var ra, rb := Filter(a[1..], keep), Filter(b[1..], keep);
      if keep(a[0]) {
        assert fa == [a[0]] + ra && fb == [b[0]] + rb;
        forall i | 0 <= i < |fa|
          ensures fb[i] == f(fa[i])
        {
          if i > 0 {
            assert fa[i] == ra[i - 1] && fb[i] == rb[i - 1];
          }
        }
      } else {
        assert fa == ra && fb == rb;
      }
    }
  }

  /** Cutting out the element at index i removes exactly one copy of it. */
  lemma MultisetRemove<T>(s: seq<T>, i: nat)
    requires i < |s|
    ensures multiset(s[..i] + s[i + 1..]) == multiset(s) - multiset{s[i]}
  {
    assert s == s[..i] + [s[i]] + s[i + 1..];
  }

  /** Two orderings of the same elements stay orderings of the same elements once the first
      element of one and a matching element of the other are cut out. */
  lemma PermutationStep<T>(a: seq<T>, b: seq<T>, i: nat)
    requires multiset(a) == multiset(b) && a != [] && i < |b| && b[i] == a[0]
    ensures multiset(a[1..]) == multiset(b[..i] + b[i + 1..])
  {
    assert a == [a[0]] + a[1..];
    MultisetRemove(b, i);
  }
}
