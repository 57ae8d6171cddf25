/** Go's ordering of strings (`<` and strings.Compare: lexicographic by
    character code) and the facts about concatenation that the rest of
    the model uses to take rendered text apart. */
module Strings {

  /** `a < b` on Go strings. */
  predicate Less(a: string, b: string)
    decreases |a|
  {
    if |a| == 0 then |b| > 0
    else if |b| == 0 then false
    else if a[0] != b[0] then a[0] < b[0]
    else Less(a[1..], b[1..])
  }

  /** `a <= b` on Go strings. */
  predicate LessOrEqual(a: string, b: string) {
    !Less(b, a)
  }

  lemma {:induction false} LessIrreflexive(a: string)
    ensures !Less(a, a)
    decreases |a|
  {
    if |a| > 0 {
      LessIrreflexive(a[1..]);
    }
  }

  lemma {:induction false} LessAsymmetric(a: string, b: string)
    ensures Less(a, b) ==> !Less(b, a)
    decreases |a|
  {
    if |a| > 0 && |b| > 0 && a[0] == b[0] {
      LessAsymmetric(a[1..], b[1..]);
    }
  }

  lemma {:induction false} LessTransitive(a: string, b: string, c: string)
    requires Less(a, b) && Less(b, c)
    ensures Less(a, c)
    decreases |a|
  {
    if |a| > 0 && a[0] == b[0] && b[0] == c[0] {
      LessTransitive(a[1..], b[1..], c[1..]);
    }
  }

  lemma {:induction false} LessTotal(a: string, b: string)
    ensures a == b || Less(a, b) || Less(b, a)
    decreases |a|
  {
    if |a| > 0 && |b| > 0 && a[0] == b[0] {
      LessTotal(a[1..], b[1..]);
      if a[1..] == b[1..] {
        assert a == [a[0]] + a[1..] && b == [b[0]] + b[1..];
      }
    }
  }

  /** Two strings each at most the other are the same string. */
  lemma LessOrEqualAntisymmetric(a: string, b: string)
    requires LessOrEqual(a, b) && LessOrEqual(b, a)
    ensures a == b
  {
    LessTotal(a, b);
  }

  lemma LessOrEqualTransitive(a: string, b: string, c: string)
    requires LessOrEqual(a, b) && LessOrEqual(b, c)
    ensures LessOrEqual(a, c)
  {
    LessTotal(a, b);
    if Less(c, a) {
      if Less(a, b) {
        LessTransitive(c, a, b);
      }
    }
  }

  lemma CancelPrefix(p: string, x: string, y: string)
    requires p + x == p + y
    ensures x == y
  {
    assert x == (p + x)[|p|..];
    assert y == (p + y)[|p|..];
  }

  /** Position of the first `c` in `s`. */
  function FirstIndex(s: string, c: char): (i: nat)
    requires c in s
    ensures i < |s| && s[i] == c
    decreases |s|
  {
    if s[0] == c then 0 else 1 + FirstIndex(s[1..], c)
  }

  /** Position of the last `c` in `s`. */
  function LastIndex(s: string, c: char): (i: nat)
    requires c in s
    ensures i < |s| && s[i] == c
    decreases |s|
  {
    if s[|s| - 1] == c then |s| - 1 else LastIndex(s[..|s| - 1], c)
  }

  lemma {:induction false} FirstIndexOfSeparator(a: string, c: char, x: string)
    requires c !in a
    ensures FirstIndex(a + [c] + x, c) == |a|
    decreases |a|
  {
    if |a| > 0 {
      assert (a + [c] + x)[1..] == a[1..] + [c] + x;
      FirstIndexOfSeparator(a[1..], c, x);
    }
  }

  lemma {:induction false} LastIndexOfSeparator(a: string, c: char, x: string)
    requires c !in x
    ensures LastIndex(a + [c] + x, c) == |a|
    decreases |x|
  {
    if |x| > 0 {
      assert (a + [c] + x)[..|a + [c] + x| - 1] == a + [c] + x[..|x| - 1];
      LastIndexOfSeparator(a, c, x[..|x| - 1]);
    }
  }

  /** Splitting at the first occurrence of a separator that the heads do
      not contain recovers both heads and both tails. */
  lemma SplitAtFirst(a: string, x: string, b: string, y: string, c: char)
    requires c !in a && c !in b
    requires a + [c] + x == b + [c] + y
    ensures a == b && x == y
  {
    var l := a + [c] + x;
    FirstIndexOfSeparator(a, c, x);
    FirstIndexOfSeparator(b, c, y);
    assert a == l[..|a|] && x == l[|a| + 1..];
    assert b == l[..|b|] && y == l[|b| + 1..];
  }

  /** Splitting at the last occurrence of a separator that the tails do
      not contain recovers both heads and both tails. */
  lemma SplitAtLast(a: string, x: string, b: string, y: string, c: char)
    requires c !in x && c !in y
    requires a + [c] + x == b + [c] + y
    ensures a == b && x == y
  {
    var l := a + [c] + x;
    LastIndexOfSeparator(a, c, x);
    LastIndexOfSeparator(b, c, y);
    assert a == l[..|a|] && x == l[|a| + 1..];
    assert b == l[..|b|] && y == l[|b| + 1..];
  }
}
