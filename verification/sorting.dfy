/** Sorting by a string key under Go's string order, in the sense of
    `sort.Slice(s, func(i, j int) bool { return key(s[i]) < key(s[j]) })`:
    the result is some permutation of the input whose keys never decrease.
    `sort.Slice` is not stable, so the model fixes nothing about the
    relative order of elements with equal keys; `SortBy` is one
    admissible outcome (an insertion sort). */
module Sorting {
  import opened Strings

  ghost predicate SortedBy<T>(s: seq<T>, key: T -> string) {
    forall i, j :: 0 <= i < j < |s| ==> LessOrEqual(key(s[i]), key(s[j]))
  }

  ghost predicate Distinct<T>(s: seq<T>) {
    forall i, j :: 0 <= i < j < |s| ==> s[i] != s[j]
  }

  /** No two different elements of `m` share a key. */
  ghost predicate KeyInjective<T>(m: multiset<T>, key: T -> string) {
    forall x, y :: x in m && y in m && key(x) == key(y) ==> x == y
  }

  /** The first element of a sorted sequence has the least key. */
  lemma SortedHead<T>(s: seq<T>, key: T -> string, x: T)
    requires SortedBy(s, key) && x in s
    ensures LessOrEqual(key(s[0]), key(x))
  {
    var k :| 0 <= k < |s| && s[k] == x;
    if k == 0 {
      LessIrreflexive(key(x));
    }
  }

  /** Prepending an element no greater than the head keeps a sequence sorted. */
  lemma SortedCons<T>(x: T, s: seq<T>, key: T -> string)
    requires SortedBy(s, key)
    requires forall y :: y in s ==> LessOrEqual(key(x), key(y))
    ensures SortedBy([x] + s, key)
  {
    forall i, j | 0 <= i < j < |[x] + s|
      ensures LessOrEqual(key(([x] + s)[i]), key(([x] + s)[j]))
    {
      assert ([x] + s)[j] == s[j - 1];
      if i > 0 {
        assert ([x] + s)[i] == s[i - 1];
      }
    }
  }

  /** An element no greater than the head of a sorted sequence is no
      greater than any of its elements. */
  lemma BelowHead<T>(x: T, s: seq<T>, key: T -> string)
    requires SortedBy(s, key) && |s| > 0
    requires LessOrEqual(key(x), key(s[0]))
    ensures forall y :: y in s ==> LessOrEqual(key(x), key(y))
  {
    forall y | y in s
      ensures LessOrEqual(key(x), key(y))
    {
      SortedHead(s, key, y);
      LessOrEqualTransitive(key(x), key(s[0]), key(y));
    }
  }

  function Insert<T>(x: T, s: seq<T>, key: T -> string): (r: seq<T>)
    requires SortedBy(s, key)
    ensures SortedBy(r, key)
    ensures multiset(r) == multiset(s) + multiset{x}
    decreases |s|
  {
    if |s| == 0 then
      [x]
    else if LessOrEqual(key(x), key(s[0])) then
      BelowHead(x, s, key);
      SortedCons(x, s, key);
      [x] + s
    else
      SortedTail(s, key);
      var rest := Insert(x, s[1..], key);
      assert s == [s[0]] + s[1..];
      assert LessOrEqual(key(s[0]), key(x)) by {
        LessAsymmetric(key(s[0]), key(x));
        LessTotal(key(s[0]), key(x));
      }
      assert forall y :: y in rest ==> LessOrEqual(key(s[0]), key(y)) by {
        forall y | y in rest
          ensures LessOrEqual(key(s[0]), key(y))
        {
          assert y in multiset(s[1..]) + multiset{x};
          if y != x {
            SortedHead(s, key, y);
          }
        }
      }
      SortedCons(s[0], rest, key);
      [s[0]] + rest
  }

  /** An insertion sort: a sorted permutation of `s`. */
  function SortBy<T>(s: seq<T>, key: T -> string): (r: seq<T>)
    ensures SortedBy(r, key)
    ensures multiset(r) == multiset(s)
    decreases |s|
  {
    if |s| == 0 then
      []
    else
      assert s == [s[0]] + s[1..];
      Insert(s[0], SortBy(s[1..], key), key)
  }

  lemma KeyInjectiveShrinks<T>(m: multiset<T>, n: multiset<T>, key: T -> string)
    requires n <= m && KeyInjective(m, key)
    ensures KeyInjective(n, key)
  {
  }

  lemma SortedTail<T>(s: seq<T>, key: T -> string)
    requires SortedBy(s, key) && |s| > 0
    ensures SortedBy(s[1..], key)
  {
    forall i, j | 0 <= i < j < |s| - 1
      ensures LessOrEqual(key(s[1..][i]), key(s[1..][j]))
    {
      assert s[1..][i] == s[i + 1] && s[1..][j] == s[j + 1];
    }
  }

  /** Two sorted permutations with no shared keys start alike. */
  lemma SortedPermutationHead<T>(a: seq<T>, b: seq<T>, key: T -> string)
    requires |a| > 0 && multiset(a) == multiset(b)
    requires SortedBy(a, key) && SortedBy(b, key)
    requires KeyInjective(multiset(a), key)
    ensures |b| > 0 && a[0] == b[0]
  {
    assert a[0] in multiset(a);
    assert a[0] in b;
    assert b[0] in multiset(a);
    SortedHead(a, key, b[0]);
    SortedHead(b, key, a[0]);
    LessOrEqualAntisymmetric(key(a[0]), key(b[0]));
  }

  /** Removing equal heads from two permutations leaves permutations. */
  lemma PermutationTail<T>(a: seq<T>, b: seq<T>)
    requires |a| > 0 && |b| > 0 && a[0] == b[0]
    requires multiset(a) == multiset(b)
    ensures multiset(a[1..]) == multiset(b[1..])
    ensures multiset(a[1..]) <= multiset(a)
  {
    assert a == [a[0]] + a[1..] && b == [b[0]] + b[1..];
    assert multiset(a) == multiset{a[0]} + multiset(a[1..]);
    assert multiset(b) == multiset{b[0]} + multiset(b[1..]);
    forall y
      ensures multiset(a[1..])[y] == multiset(b[1..])[y]
    {
      assert multiset(a)[y] == multiset{a[0]}[y] + multiset(a[1..])[y];
      assert multiset(b)[y] == multiset{b[0]}[y] + multiset(b[1..])[y];
    }
  }

  /** When no two different elements share a key, a permutation has only
      one sorted arrangement. */
  lemma {:induction false} SortedPermutationUnique<T>(a: seq<T>, b: seq<T>, key: T -> string)
    requires multiset(a) == multiset(b)
    requires SortedBy(a, key) && SortedBy(b, key)
    requires KeyInjective(multiset(a), key)
    ensures a == b
    decreases |a|
  {
    if |a| == 0 {
      assert |b| == |multiset(b)| == 0;
    } else {
      SortedPermutationHead(a, b, key);
      PermutationTail(a, b);
      KeyInjectiveShrinks(multiset(a), multiset(a[1..]), key);
      SortedTail(a, key);
      SortedTail(b, key);
      SortedPermutationUnique(a[1..], b[1..], key);
      assert a == [a[0]] + a[1..] && b == [b[0]] + b[1..];
    }
  }

  /** In a sequence without repeats every element occurs exactly once. */
  lemma {:induction false} DistinctOccursOnce<T>(s: seq<T>, x: T)
    requires Distinct(s)
    ensures multiset(s)[x] == if x in s then 1 else 0
    decreases |s|
  {
    if |s| > 0 {
      assert s == [s[0]] + s[1..];
      forall k | 0 <= k < |s| - 1
        ensures s[1..][k] != s[0]
      {
        assert s[1..][k] == s[k + 1];
      }
      DistinctOccursOnce(s[1..], x);
    }
  }

  /** A sequence in which nothing occurs twice has no repeats. */
  lemma DistinctFromCounts<T>(s: seq<T>)
    requires forall x :: multiset(s)[x] <= 1
    ensures Distinct(s)
  {
    forall i, j | 0 <= i < j < |s|
      ensures s[i] != s[j]
    {
      assert s == s[..j] + [s[j]] + s[j + 1..];
      assert s[i] in s[..j];
      assert multiset(s)[s[j]] == multiset(s[..j])[s[j]] + 1 + multiset(s[j + 1..])[s[j]];
    }
  }

  /** Rearranging a sequence without repeats cannot create one. */
  lemma PermutationKeepsDistinct<T>(a: seq<T>, b: seq<T>)
    requires multiset(a) == multiset(b) && Distinct(a)
    ensures Distinct(b)
  {
    forall x
      ensures multiset(b)[x] <= 1
    {
      DistinctOccursOnce(a, x);
    }
    DistinctFromCounts(b);
  }

  /** Two sequences without repeats holding the same elements are
      permutations of each other. */
  lemma DistinctSameElements<T>(a: seq<T>, b: seq<T>)
    requires Distinct(a) && Distinct(b)
    requires forall x :: x in a <==> x in b
    ensures multiset(a) == multiset(b)
  {
    forall x
      ensures multiset(a)[x] == multiset(b)[x]
    {
      DistinctOccursOnce(a, x);
      DistinctOccursOnce(b, x);
    }
  }
}
