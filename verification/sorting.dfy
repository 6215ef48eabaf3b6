/** Descending sort by a whole-number key, and taking the first n rows of the sorted order. */
module Sorting {
  import opened Seqs

  /** Keys never increase along `s`. */
  predicate SortedDesc<T>(s: seq<T>, key: T -> nat)
  {
    forall i, j :: 0 <= i < j < |s| ==> key(s[i]) >= key(s[j])
  }

  /** Putting an element no smaller than the head in front of a descending sequence keeps it
      descending. */
  lemma ConsSorted<T>(h: T, s: seq<T>, key: T -> nat)
    requires SortedDesc(s, key)
    requires s == [] || key(h) >= key(s[0])
    ensures SortedDesc([h] + s, key)
  {
    var r := [h] + s;
    forall i, j | 0 <= i < j < |r|
      ensures key(r[i]) >= key(r[j])
    {
      if i == 0 && j > 1 {
        assert r[j] == s[j - 1];
      }
    }
  }

  /** Places `x` before the first element whose key it is not below. */
  function Insert<T>(x: T, s: seq<T>, key: T -> nat): (r: seq<T>)
    ensures |r| == |s| + 1
    ensures r[0] == x || (s != [] && r[0] == s[0])
  {
    if s == [] || key(x) >= key(s[0]) then [x] + s
    else [s[0]] + Insert(x, s[1..], key)
  }

  /** The elements after the first of a descending sequence are descending too. */
  lemma TailSorted<T>(s: seq<T>, key: T -> nat)
    requires SortedDesc(s, key) && s != []
    ensures SortedDesc(s[1..], key)
  {
    var tail := s[1..];
    forall i, j | 0 <= i < j < |tail|
      ensures key(tail[i]) >= key(tail[j])
    {
      assert tail[i] == s[i + 1] && tail[j] == s[j + 1];
    }
  }

  /** Inserting into a descending sequence keeps it descending. */
  lemma {:induction false} InsertSorted<T>(x: T, s: seq<T>, key: T -> nat)
    requires SortedDesc(s, key)
    ensures SortedDesc(Insert(x, s, key), key)
    decreases |s|
  {
    if s == [] || key(x) >= key(s[0]) {
      ConsSorted(x, s, key);
    } else {
      TailSorted(s, key);
      InsertSorted(x, s[1..], key);
      var rest := Insert(x, s[1..], key);
      assert key(s[0]) >= key(rest[0]) by {
        if |s| > 1 {
          assert s[1..][0] == s[1];
        }
      }
      ConsSorted(s[0], rest, key);
    }
  }

  /** Inserting adds exactly the new element, and its key to the key sum. */
  lemma {:induction false} InsertAddsElement<T>(x: T, s: seq<T>, key: T -> nat)
    ensures multiset(Insert(x, s, key)) == multiset(s) + multiset{x}
    ensures Sum(Insert(x, s, key), key) == key(x) + Sum(s, key)
    decreases |s|
  {
    if s == [] || key(x) >= key(s[0]) {
      assert ([x] + s)[1..] == s;
    } else {
      InsertAddsElement(x, s[1..], key);
      var rest := Insert(x, s[1..], key);
      var r := [s[0]] + rest;
      assert r[1..] == rest;
      assert s == [s[0]] + s[1..];
    }
  }

  /** `sort(key, descending=True)`: insertion sort, which also keeps rows of equal key in
      their original order. */
  function SortDesc<T>(s: seq<T>, key: T -> nat): (r: seq<T>)
    ensures |r| == |s|
    ensures SortedDesc(r, key)
    ensures multiset(r) == multiset(s)
    ensures Sum(r, key) == Sum(s, key)
  {
    if s == [] then []
    else
      var rest := SortDesc(s[1..], key);
      InsertSorted(s[0], rest, key);
      InsertAddsElement(s[0], rest, key);
      assert s == [s[0]] + s[1..];
      Insert(s[0], rest, key)
  }

  /** A prefix of a descending sequence is descending. */
  lemma PrefixSorted<T>(sorted: seq<T>, m: nat, key: T -> nat)
    requires SortedDesc(sorted, key) && m <= |sorted|
    ensures SortedDesc(sorted[..m], key)
  {
    var top := sorted[..m];
    forall i, j | 0 <= i < j < |top|
      ensures key(top[i]) >= key(top[j])
    {
      assert top[i] == sorted[i] && top[j] == sorted[j];
    }
  }

  /** In a descending sequence, nothing after position `m` has a larger key than anything
      before it. */
  lemma SuffixBelowPrefix<T>(sorted: seq<T>, m: nat, key: T -> nat)
    requires SortedDesc(sorted, key) && m <= |sorted|
    ensures forall x, y :: x in sorted[m..] && y in sorted[..m] ==> key(x) <= key(y)
  {
    forall x, y | x in sorted[m..] && y in sorted[..m]
      ensures key(x) <= key(y)
    {
      var j :| m <= j < |sorted| && sorted[j] == x;
      var i :| 0 <= i < m && sorted[i] == y;
    }
  }

  /** A prefix of a descending ordering of `s` holds the largest keys of `s`: it is descending
      itself, and whatever it leaves out has a key no larger than anything in it. */
  lemma PrefixHoldsLargest<T>(s: seq<T>, sorted: seq<T>, m: nat, key: T -> nat)
    requires SortedDesc(sorted, key) && multiset(sorted) == multiset(s) && m <= |sorted|
    ensures SortedDesc(sorted[..m], key)
    ensures multiset(sorted[..m]) <= multiset(s)
    ensures forall x, y :: x in multiset(s) - multiset(sorted[..m]) && y in sorted[..m] ==> key(x) <= key(y)
  {
    var top := sorted[..m];
    var rest := sorted[m..];
    PrefixSorted(sorted, m, key);
    assert multiset(top) <= multiset(s) by {
      assert sorted == top + rest;
    }
    SuffixBelowPrefix(sorted, m, key);
    forall x, y | x in multiset(s) - multiset(top) && y in top
      ensures key(x) <= key(y)
    {
      assert x in rest by {
        assert sorted == top + rest;
        assert multiset(s) - multiset(top) == multiset(rest);
      }
    }
  }

  /** `sort(key, descending=True).head(n)`: the n elements with the largest keys, largest first.
      Every element left out has a key no larger than any element taken. */
  function TopN<T>(s: seq<T>, n: nat, key: T -> nat): (r: seq<T>)
    ensures |r| == if n < |s| then n else |s|
    ensures SortedDesc(r, key)
    ensures multiset(r) <= multiset(s)
    ensures forall x, y :: x in multiset(s) - multiset(r) && y in r ==> key(x) <= key(y)
  {
    var sorted := SortDesc(s, key);
    var m := if n < |s| then n else |s|;
    PrefixHoldsLargest(s, sorted, m, key);
    sorted[..m]
  }
}
