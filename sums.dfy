/** Sums of a weight over a list, the shape of every `reduce((s, x) => s + ...)`
    in the engine. */
module Sums {
  import opened ListEdits

  function SumOf<T>(s: seq<T>, f: T -> int): int
    decreases |s|
  {
    if s == [] then 0 else SumOf(s[..|s| - 1], f) + f(s[|s| - 1])
  }

  lemma {:induction false} SumOfAppend<T>(a: seq<T>, b: seq<T>, f: T -> int)
    ensures SumOf(a + b, f) == SumOf(a, f) + SumOf(b, f)
    decreases |b|
  {
    if b == [] {
      assert a + b == a;
    } else {
      assert (a + b)[..|a + b| - 1] == a + b[..|b| - 1];
      SumOfAppend(a, b[..|b| - 1], f);
    }
  }

  /** A sum does not depend on the order of the list. */
  lemma {:induction false} SumOfPermutation<T>(a: seq<T>, b: seq<T>, f: T -> int)
    requires multiset(a) == multiset(b)
    ensures SumOf(a, f) == SumOf(b, f)
    decreases |a|
  {
    if a == [] {
      assert |multiset(b)| == 0;
    } else {
      var x := a[|a| - 1];
      var init := a[..|a| - 1];
      assert a == init + [x];
      assert x in multiset(b);
      var k :| 0 <= k < |b| && b[k] == x;
      var rest := b[..k] + b[k + 1..];
      assert b == b[..k] + [x] + b[k + 1..];
      assert multiset(rest) + multiset{x} == multiset(init) + multiset{x} by {
        calc {
          multiset(rest) + multiset{x};
          multiset(b[..k]) + multiset(b[k + 1..]) + multiset{x};
          multiset(b[..k] + [x] + b[k + 1..]);
          multiset(init + [x]);
        }
      }
      assert multiset(rest) == multiset(init) by {
        assert multiset(rest) == multiset(rest) + multiset{x} - multiset{x};
        assert multiset(init) == multiset(init) + multiset{x} - multiset{x};
      }
      SumOfPermutation(init, rest, f);
      SumOfAppend(b[..k] + [x], b[k + 1..], f);
      SumOfAppend(b[..k], [x], f);
      SumOfAppend(b[..k], b[k + 1..], f);
      SumOfAppend(init, [x], f);
      assert SumOf([x], f) == f(x) by {
        assert [x][..0] == [];
      }
    }
  }

  /** Sums of weights that agree on the list are equal. */
  lemma {:induction false} SumOfCongruent<T>(s: seq<T>, f: T -> int, g: T -> int)
    requires forall x :: x in s ==> f(x) == g(x)
    ensures SumOf(s, f) == SumOf(s, g)
    decreases |s|
  {
    if s != [] {
      assert forall x :: x in s[..|s| - 1] ==> x in s;
      SumOfCongruent(s[..|s| - 1], f, g);
    }
  }

  /** A sum of non-negative weights is non-negative; one of positive weights over a
      non-empty list is positive. */
  lemma {:induction false} SumOfPositive<T>(s: seq<T>, f: T -> int)
    requires forall x :: x in s ==> f(x) >= 0
    ensures SumOf(s, f) >= 0
    ensures (forall x :: x in s ==> f(x) > 0) && s != [] ==> SumOf(s, f) > 0
    decreases |s|
  {
    if s != [] {
      assert forall x :: x in s[..|s| - 1] ==> x in s;
      SumOfPositive(s[..|s| - 1], f);
    }
  }

  /** Two sums over one list add up weight by weight. */
  lemma {:induction false} SumOfAdd<T>(s: seq<T>, f: T -> int, g: T -> int, h: T -> int)
    requires forall i :: 0 <= i < |s| ==> h(s[i]) == f(s[i]) + g(s[i])
    ensures SumOf(s, h) == SumOf(s, f) + SumOf(s, g)
    decreases |s|
  {
    if s != [] {
      SumOfAdd(s[..|s| - 1], f, g, h);
    }
  }

  /** Summing over the entries a filter keeps is summing a weight that is zero on
      the entries it drops. */
  lemma {:induction false} SumOfFilter<T>(s: seq<T>, p: T -> bool, f: T -> int, g: T -> int)
    requires forall i :: 0 <= i < |s| ==> g(s[i]) == if p(s[i]) then f(s[i]) else 0
    ensures SumOf(Filter(s, p), f) == SumOf(s, g)
    decreases |s|
  {
    if s != [] {
      var x := s[|s| - 1];
      SumOfFilter(s[..|s| - 1], p, f, g);
      SumOfAppend(Filter(s[..|s| - 1], p), if p(x) then [x] else [], f);
      assert SumOf([x], f) == f(x) by {
        assert [x][..0] == [];
      }
    }
  }

  /** A sum of zero weights is zero. */
  lemma {:induction false} SumOfZero<T>(s: seq<T>, f: T -> int)
    requires forall i :: 0 <= i < |s| ==> f(s[i]) == 0
    ensures SumOf(s, f) == 0
    decreases |s|
  {
    if s != [] {
      SumOfZero(s[..|s| - 1], f);
    }
  }

  /** A sum of weights that are never positive is never positive. */
  lemma {:induction false} SumOfNonPositive<T>(s: seq<T>, f: T -> int)
    requires forall i :: 0 <= i < |s| ==> f(s[i]) <= 0
    ensures SumOf(s, f) <= 0
    decreases |s|
  {
    if s != [] {
      SumOfNonPositive(s[..|s| - 1], f);
    }
  }
}
