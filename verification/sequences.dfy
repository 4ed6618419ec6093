/** Order-preserving selections from sequences: the row filters and head/tail slices of a data frame. */
module Sequences {

  function Min(a: int, b: int): int {
    if a <= b then a else b
  }

  /**
    The elements of `s` that satisfy `p`, in their original order: a boolean
    mask or `dropna` applied to a data frame.
  */
  function Filter<T(!new)>(p: T -> bool, s: seq<T>): (r: seq<T>)
    ensures |r| <= |s|
    ensures forall x :: x in r <==> x in s && p(x)
  {
    if s == [] then [] else (if p(s[0]) then [s[0]] else []) + Filter(p, s[1..])
  }

  /** A kept element keeps all its occurrences; a dropped one keeps none. */
  lemma {:induction false} FilterMultiplicity<T(!new)>(p: T -> bool, s: seq<T>)
    ensures forall x :: multiset(Filter(p, s))[x] == if p(x) then multiset(s)[x] else 0
    decreases |s|
  {
    if s != [] {
      FilterMultiplicity(p, s[1..]);
      assert s == [s[0]] + s[1..];
    }
  }

  /** A filter that every element passes leaves the sequence as it is. */
  lemma {:induction false} FilterKeepsAll<T(!new)>(p: T -> bool, s: seq<T>)
    requires forall x | x in s :: p(x)
    ensures Filter(p, s) == s
    decreases |s|
  {
    if s != [] {
      assert forall x | x in s[1..] :: x in s;
      FilterKeepsAll(p, s[1..]);
      assert s == [s[0]] + s[1..];
    }
  }

  /** `head(n)`: the first `n` elements, or all of them when there are fewer. */
  function Head<T>(s: seq<T>, n: nat): (r: seq<T>)
    ensures |r| == Min(n, |s|)
  {
    s[..Min(n, |s|)]
  }

  /** `tail(n)`: the last `n` elements, or all of them when there are fewer. */
  function Tail<T>(s: seq<T>, n: nat): (r: seq<T>)
    ensures |r| == Min(n, |s|)
  {
    s[|s| - Min(n, |s|)..]
  }

  /** `a` can be obtained from `b` by deleting elements, without reordering. */
  predicate IsSubsequence<T(==)>(a: seq<T>, b: seq<T>)
    decreases |b|
  {
    if a == [] then true
    else if b == [] then false
    else if a[0] == b[0] then IsSubsequence(a[1..], b[1..])
    else IsSubsequence(a, b[1..])
  }

  /** Filtering keeps the survivors in their original relative order. */
  lemma {:induction false} FilterIsSubsequence<T(!new)>(p: T -> bool, s: seq<T>)
    ensures IsSubsequence(Filter(p, s), s)
    decreases |s|
  {
    if s != [] {
      FilterIsSubsequence(p, s[1..]);
      var r := Filter(p, s[1..]);
      if p(s[0]) {
        assert ([s[0]] + r)[1..] == r;
      } else {
        assert Filter(p, s) == r;
        assert r == [] || r[0] != s[0] by {
          if r != [] {
            assert r[0] in r;
          }
        }
      }
    }
  }

  /** Dropping a tail of a subsequence leaves a subsequence. */
  lemma {:induction false} PrefixOfSubsequence<T>(a: seq<T>, b: seq<T>, k: nat)
    requires IsSubsequence(a, b) && k <= |a|
    ensures IsSubsequence(a[..k], b)
    decreases |b|
  {
    if k > 0 && b != [] {
      if a[0] == b[0] {
        PrefixOfSubsequence(a[1..], b[1..], k - 1);
        assert a[..k][1..] == a[1..][..k - 1];
      } else {
        PrefixOfSubsequence(a, b[1..], k);
      }
    }
  }

  /** Filtering by `p` after a filter by a weaker condition `q` is filtering by `p` alone. */
  lemma {:induction false} FilterAfterWeakerFilter<T(!new)>(p: T -> bool, q: T -> bool, s: seq<T>)
    requires forall x :: p(x) ==> q(x)
    ensures Filter(p, Filter(q, s)) == Filter(p, s)
    decreases |s|
  {
    if s != [] {
      FilterAfterWeakerFilter(p, q, s[1..]);
      var rest := Filter(q, s[1..]);
      if q(s[0]) {
        assert Filter(q, s) == [s[0]] + rest;
        assert ([s[0]] + rest)[1..] == rest;
      } else {
        assert Filter(q, s) == rest;
      }
    }
  }

  /** Filtering a list with a known first element. */
  lemma FilterCons<T(!new)>(p: T -> bool, x: T, s: seq<T>)
    ensures Filter(p, [x] + s) == (if p(x) then [x] else []) + Filter(p, s)
  {
    assert ([x] + s)[0] == x;
    assert ([x] + s)[1..] == s;
  }

  /** Filtering distributes over concatenation. */
  lemma {:induction false} FilterAppend<T(!new)>(p: T -> bool, a: seq<T>, b: seq<T>)
    ensures Filter(p, a + b) == Filter(p, a) + Filter(p, b)
    decreases |a|
  {
    if a != [] {
      var x, rest := a[0], a[1..];
      var head: seq<T> := if p(x) then [x] else [];
      var fa, fb := Filter(p, rest), Filter(p, b);
      assert Filter(p, a + b) == head + Filter(p, rest + b) by {
        assert a + b == [x] + (rest + b);
        FilterCons(p, x, rest + b);
      }
      assert Filter(p, a) == head + fa by {
        assert a == [x] + rest;
        FilterCons(p, x, rest);
      }
      FilterAppend(p, rest, b);
      assert head + (fa + fb) == (head + fa) + fb;
    } else {
      assert a + b == b;
    }
  }

  lemma PrefixInMultiset<T>(s: seq<T>, k: nat)
    requires k <= |s|
    ensures multiset(s[..k]) <= multiset(s)
    ensures multiset(s) - multiset(s[..k]) == multiset(s[k..])
  {
    assert s == s[..k] + s[k..];
  }

  /** A subsequence holds no element more often than the sequence it is taken from. */
  lemma {:induction false} SubsequenceMultiset<T>(a: seq<T>, b: seq<T>)
    requires IsSubsequence(a, b)
    ensures multiset(a) <= multiset(b)
    decreases |b|
  {
    if a != [] {
      assert b == [b[0]] + b[1..];
      if a[0] == b[0] {
        SubsequenceMultiset(a[1..], b[1..]);
        assert a == [a[0]] + a[1..];
      } else {
        SubsequenceMultiset(a, b[1..]);
      }
    }
  }

  /**
    The filter is the only subsequence of `s` that keeps every occurrence of
    the elements passing `p` and none of the others.
  */
  lemma {:induction false} FilterUnique<T(!new)>(p: T -> bool, s: seq<T>, a: seq<T>)
    requires IsSubsequence(a, s)
    requires forall x :: multiset(a)[x] == if p(x) then multiset(s)[x] else 0
    ensures a == Filter(p, s)
    decreases |s|
  {
    if s != [] {
      var x, rest := s[0], s[1..];
      assert s == [x] + rest;
      if a != [] && a[0] == x {
        assert a == [x] + a[1..];
        assert p(x) by {
          assert multiset(a)[x] > 0;
        }
        assert forall y :: multiset(a[1..])[y] == if p(y) then multiset(rest)[y] else 0 by {
          assert multiset(a) == multiset{x} + multiset(a[1..]);
          assert multiset(s) == multiset{x} + multiset(rest);
        }
        FilterUnique(p, rest, a[1..]);
      } else {
        assert IsSubsequence(a, rest);
        if p(x) {
          SubsequenceMultiset(a, rest);
          assert false;
        }
        assert forall y :: multiset(a)[y] == if p(y) then multiset(rest)[y] else 0 by {
          assert multiset(s) == multiset{x} + multiset(rest);
        }
        FilterUnique(p, rest, a);
      }
    }
  }
}
