/**
  `sort_values` on one numeric column. The source relies on the data frame's
  default sort, which does not promise any order among equal keys, so every
  contract here speaks only of sortedness and of the multiset of records; the
  concrete insertion sort below is one admissible outcome, and
  `SortingKeysDetermined` shows that all admissible outcomes agree on the keys.
*/
module Sorting {
  import opened StockRecords
  import opened Sequences

  /** The direction of `sort_values`: `ascending=True` or `ascending=False`. */
  datatype Order = Ascending | Descending

  function Flip(o: Order): Order {
    if o == Ascending then Descending else Ascending
  }

  /** `a` may stand before `b` in a list sorted in direction `o`. */
  predicate InOrder(a: real, b: real, o: Order) {
    if o == Ascending then a <= b else a >= b
  }

  predicate SortedReals(ks: seq<real>, o: Order) {
    forall i, j :: 0 <= i < j < |ks| ==> InOrder(ks[i], ks[j], o)
  }

  /** Every record has column `f`, and the column runs in direction `o`. */
  predicate SortedBy(rs: seq<Record>, f: Field, o: Order) {
    && AllPresent(rs, f)
    && forall i, j :: 0 <= i < j < |rs| ==> InOrder(Key(rs[i], f), Key(rs[j], f), o)
  }

  /** `t` is `s` rearranged so that column `f` runs in direction `o`. */
  predicate IsSortingOf(t: seq<Record>, s: seq<Record>, f: Field, o: Order) {
    multiset(t) == multiset(s) && SortedBy(t, f, o)
  }

  /** How many leading records of `s` must stay ahead of `x`. */
  function InsertionPoint(x: Record, s: seq<Record>, f: Field, o: Order): (p: nat)
    requires Present(x, f) && AllPresent(s, f)
    ensures p <= |s|
    ensures forall j :: 0 <= j < p ==> !InOrder(Key(x, f), Key(s[j], f), o)
    ensures p < |s| ==> InOrder(Key(x, f), Key(s[p], f), o)
  {
    if s == [] || InOrder(Key(x, f), Key(s[0], f), o) then 0
    else
      assert forall y | y in s[1..] :: y in s;
      1 + InsertionPoint(x, s[1..], f, o)
  }

  lemma InsertKeepsOrder(x: Record, s: seq<Record>, f: Field, o: Order, p: nat)
    requires Present(x, f) && SortedBy(s, f, o) && p <= |s|
    requires forall j :: 0 <= j < p ==> !InOrder(Key(x, f), Key(s[j], f), o)
    requires p < |s| ==> InOrder(Key(x, f), Key(s[p], f), o)
    ensures SortedBy(s[..p] + [x] + s[p..], f, o)
  {
    var r := s[..p] + [x] + s[p..];
    InsertPresent(x, s, f, p);
    forall i, j | 0 <= i < j < |r|
      ensures InOrder(Key(r[i], f), Key(r[j], f), o)
    {
      if j < p {
        assert r[i] == s[i] && r[j] == s[j];
      } else if j == p {
        assert r[i] == s[i] && r[j] == x;
      } else if i == p {
        assert r[i] == x && r[j] == s[j - 1];
        assert InOrder(Key(s[p], f), Key(s[j - 1], f), o) || p == j - 1;
      } else {
        assert r[i] == (if i < p then s[i] else s[i - 1]) && r[j] == s[j - 1];
      }
    }
  }

  lemma InsertPresent(x: Record, s: seq<Record>, f: Field, p: nat)
    requires Present(x, f) && AllPresent(s, f) && p <= |s|
    ensures AllPresent(s[..p] + [x] + s[p..], f)
  {
    assert forall y | y in s[..p] + [x] + s[p..] :: y == x || y in s;
  }

  /** Places `x` into a sorted list, before the first record it may precede. */
  function Insert(x: Record, s: seq<Record>, f: Field, o: Order): (r: seq<Record>)
    requires Present(x, f) && SortedBy(s, f, o)
    ensures SortedBy(r, f, o)
    ensures multiset(r) == multiset(s) + multiset{x}
  {
    var p := InsertionPoint(x, s, f, o);
    InsertKeepsOrder(x, s, f, o, p);
    assert s == s[..p] + s[p..];
    s[..p] + [x] + s[p..]
  }

  /** The column sort: one arrangement of the records, ordered by column `f`, that the data frame may return. */
  function SortBy(rs: seq<Record>, f: Field, o: Order): (r: seq<Record>)
    requires AllPresent(rs, f)
    ensures |r| == |rs|
    ensures IsSortingOf(r, rs, f, o)
  {
    if rs == [] then []
    else
      assert rs == [rs[0]] + rs[1..];
      var r := Insert(rs[0], SortBy(rs[1..], f, o), f, o);
      assert |multiset(r)| == |multiset(rs)|;
      r
  }

  // ---------------------------------------------------------------------------
  // All sortings agree on the keys
  // ---------------------------------------------------------------------------

  lemma FirstIsExtreme(ks: seq<real>, o: Order, y: real)
    requires SortedReals(ks, o) && y in ks
    ensures InOrder(ks[0], y, o)
  {
    var j :| 0 <= j < |ks| && ks[j] == y;
  }

  /** Dropping the first number of a sorted list leaves it sorted. */
  lemma SortedRealsTail(a: seq<real>, o: Order)
    requires SortedReals(a, o) && a != []
    ensures SortedReals(a[1..], o)
  {
    forall i, j | 0 <= i < j < |a[1..]|
      ensures InOrder(a[1..][i], a[1..][j], o)
    {
      assert a[1..][i] == a[i + 1] && a[1..][j] == a[j + 1];
    }
  }

  lemma MultisetTail<T>(a: seq<T>)
    requires a != []
    ensures multiset(a[1..]) == multiset(a) - multiset{a[0]}
  {
    assert a == [a[0]] + a[1..];
  }

  /** Two lists of numbers in the same direction holding the same numbers are equal. */
  lemma {:induction false} SortedRealsUnique(a: seq<real>, b: seq<real>, o: Order)
    requires SortedReals(a, o) && SortedReals(b, o)
    requires multiset(a) == multiset(b)
    ensures a == b
    decreases |a|
  {
    assert |a| == |multiset(a)| == |multiset(b)| == |b|;
    if a != [] {
      assert a[0] in multiset(b) && b[0] in multiset(a);
      FirstIsExtreme(a, o, b[0]);
      FirstIsExtreme(b, o, a[0]);
      assert a[0] == b[0];
      MultisetTail(a);
      MultisetTail(b);
      SortedRealsTail(a, o);
      SortedRealsTail(b, o);
      SortedRealsUnique(a[1..], b[1..], o);
      assert a == [a[0]] + a[1..];
      assert b == [b[0]] + b[1..];
    }
  }

  lemma SortedKeys(rs: seq<Record>, f: Field, o: Order)
    requires SortedBy(rs, f, o)
    ensures SortedReals(Keys(rs, f), o)
  {
  }

  lemma KeysPrefix(s: seq<Record>, k: nat, f: Field)
    requires AllPresent(s, f) && k <= |s|
    ensures AllPresent(s[..k], f)
    ensures Keys(s[..k], f) == Keys(s, f)[..k]
  {
    assert forall y | y in s[..k] :: y in s;
  }

  lemma MultisetRemoveAt<T>(t: seq<T>, i: nat)
    requires i < |t|
    ensures multiset(t[..i] + t[i + 1..]) == multiset(t) - multiset{t[i]}
  {
    assert t == t[..i] + [t[i]] + t[i + 1..];
  }

  lemma RemoveMatchingElements(s: seq<Record>, t: seq<Record>, i: nat)
    requires multiset(s) == multiset(t) && s != [] && i < |t| && t[i] == s[0]
    ensures multiset(s[1..]) == multiset(t[..i] + t[i + 1..])
  {
    MultisetRemoveAt(t, i);
    assert s == [s[0]] + s[1..];
    assert multiset(s) == multiset{s[0]} + multiset(s[1..]);
  }

  lemma KeysOfRemoval(t: seq<Record>, i: nat, f: Field)
    requires AllPresent(t, f) && i < |t|
    ensures AllPresent(t[..i] + t[i + 1..], f)
    ensures Keys(t[..i] + t[i + 1..], f) == Keys(t, f)[..i] + Keys(t, f)[i + 1..]
  {
    assert forall y | y in t[..i] + t[i + 1..] :: y in t;
  }

  lemma KeysRemoveAt(t: seq<Record>, i: nat, f: Field)
    requires AllPresent(t, f) && i < |t|
    ensures AllPresent(t[..i] + t[i + 1..], f)
    ensures multiset(Keys(t, f)) == multiset(Keys(t[..i] + t[i + 1..], f)) + multiset{Key(t[i], f)}
  {
    KeysOfRemoval(t, i, f);
    var ks := Keys(t, f);
    MultisetRemoveAt(ks, i);
    assert ks[i] in multiset(ks);
  }

  lemma PermutationPresent(s: seq<Record>, t: seq<Record>, f: Field)
    requires AllPresent(s, f) && multiset(s) == multiset(t)
    ensures AllPresent(t, f) && |t| == |s|
  {
    assert forall x | x in t :: x in multiset(s);
    assert |t| == |multiset(t)| == |multiset(s)| == |s|;
  }

  lemma KeysFirst(s: seq<Record>, f: Field)
    requires AllPresent(s, f) && s != []
    ensures AllPresent(s[1..], f)
    ensures multiset(Keys(s, f)) == multiset(Keys(s[1..], f)) + multiset{Key(s[0], f)}
  {
    assert forall y | y in s[1..] :: y in s;
    assert Keys(s, f) == [Key(s[0], f)] + Keys(s[1..], f);
  }

  lemma KeysPermutationStep(s: seq<Record>, t: seq<Record>, i: nat, f: Field)
    requires AllPresent(s, f) && AllPresent(t, f)
    requires s != [] && i < |t| && t[i] == s[0]
    requires AllPresent(t[..i] + t[i + 1..], f)
    requires multiset(Keys(s[1..], f)) == multiset(Keys(t[..i] + t[i + 1..], f))
    ensures multiset(Keys(s, f)) == multiset(Keys(t, f))
  {
    KeysRemoveAt(t, i, f);
    KeysFirst(s, f);
  }

  /** Rearranging records rearranges their keys the same way. */
  lemma {:induction false} KeysOfPermutation(s: seq<Record>, t: seq<Record>, f: Field)
    requires AllPresent(s, f) && multiset(s) == multiset(t)
    ensures AllPresent(t, f)
    ensures multiset(Keys(s, f)) == multiset(Keys(t, f))
    decreases |s|
  {
    PermutationPresent(s, t, f);
    if s != [] {
      var x := s[0];
      var i :| 0 <= i < |t| && t[i] == x by {
        assert x in multiset(t);
      }
      var rest := t[..i] + t[i + 1..];
      RemoveMatchingElements(s, t, i);
      KeysOfPermutation(s[1..], rest, f);
      KeysPermutationStep(s, t, i, f);
    }
  }

  /**
    Whatever order the sort leaves equal keys in, the sequence of keys it
    produces is the same: it depends only on the records being sorted.
  */
  lemma SortingKeysDetermined(t1: seq<Record>, t2: seq<Record>, s: seq<Record>, f: Field, o: Order)
    requires AllPresent(s, f)
    requires IsSortingOf(t1, s, f, o) && IsSortingOf(t2, s, f, o)
    ensures Keys(t1, f) == Keys(t2, f)
  {
    KeysOfPermutation(s, t1, f);
    KeysOfPermutation(s, t2, f);
    SortedKeys(t1, f, o);
    SortedKeys(t2, f, o);
    SortedRealsUnique(Keys(t1, f), Keys(t2, f), o);
  }

  /** All sortings of the same records agree on the keys of their first `k` records. */
  lemma HeadKeysDetermined(t1: seq<Record>, t2: seq<Record>, s: seq<Record>, f: Field, o: Order, k: nat)
    requires AllPresent(s, f)
    requires IsSortingOf(t1, s, f, o) && IsSortingOf(t2, s, f, o)
    requires k <= |t1|
    ensures |t1| == |t2| && AllPresent(t1[..k], f) && AllPresent(t2[..k], f)
    ensures Keys(t1[..k], f) == Keys(t2[..k], f)
  {
    SortingKeysDetermined(t1, t2, s, f, o);
    KeysPrefix(t1, k, f);
    KeysPrefix(t2, k, f);
  }

  /** The records before position `k` of a sorted list come no later than every record left after them. */
  lemma HeadDominates(s: seq<Record>, f: Field, o: Order, k: nat)
    requires SortedBy(s, f, o) && k <= |s|
    ensures forall x, y | x in multiset(s) - multiset(s[..k]) && y in s[..k] ::
      Present(x, f) && Present(y, f) && InOrder(Key(y, f), Key(x, f), o)
  {
    PrefixInMultiset(s, k);
    forall x, y | x in multiset(s) - multiset(s[..k]) && y in s[..k]
      ensures Present(x, f) && Present(y, f) && InOrder(Key(y, f), Key(x, f), o)
    {
      assert x in s[k..];
      var j :| k <= j < |s| && s[j] == x by {
        var j' :| 0 <= j' < |s[k..]| && s[k..][j'] == x;
        assert s[k + j'] == x;
      }
      var i :| 0 <= i < k && s[i] == y by {
        var i' :| 0 <= i' < |s[..k]| && s[..k][i'] == y;
        assert s[i'] == y;
      }
    }
  }

  /** `head(k)` of a sorting of `pool`: sorted, drawn from `pool`, and ahead of every record left out. */
  lemma HeadOfSorting(sorted: seq<Record>, pool: seq<Record>, f: Field, o: Order, k: nat)
    requires IsSortingOf(sorted, pool, f, o) && k <= |sorted|
    ensures SortedBy(sorted[..k], f, o)
    ensures multiset(sorted[..k]) <= multiset(pool)
    ensures forall x, y | x in multiset(pool) - multiset(sorted[..k]) && y in sorted[..k] ::
      Present(x, f) && Present(y, f) && InOrder(Key(y, f), Key(x, f), o)
  {
    HeadDominates(sorted, f, o, k);
    PrefixInMultiset(sorted, k);
    assert forall y | y in sorted[..k] :: y in sorted;
  }

  /** `tail(n)` of a sorting of `pool`: drawn from `pool`, and behind every record left out. */
  lemma TailOfSorting(sorted: seq<Record>, pool: seq<Record>, f: Field, o: Order, m: nat)
    requires IsSortingOf(sorted, pool, f, o) && m <= |sorted|
    ensures AllPresent(sorted[m..], f)
    ensures multiset(sorted[m..]) <= multiset(pool)
    ensures forall x, y | x in multiset(pool) - multiset(sorted[m..]) && y in multiset(sorted[m..]) ::
      Present(x, f) && Present(y, f) && InOrder(Key(x, f), Key(y, f), o)
  {
    HeadDominates(sorted, f, o, m);
    PrefixInMultiset(sorted, m);
    assert sorted == sorted[..m] + sorted[m..];
    assert multiset(pool) - multiset(sorted[m..]) == multiset(sorted[..m]);
    assert forall y | y in sorted[m..] :: y in sorted;
  }

  // ---------------------------------------------------------------------------
  // Reversal turns one direction into the other
  // ---------------------------------------------------------------------------

  function Reverse(ks: seq<real>): (r: seq<real>)
    ensures |r| == |ks|
    ensures forall i :: 0 <= i < |ks| ==> r[i] == ks[|ks| - 1 - i]
  {
    seq(|ks|, i requires 0 <= i < |ks| => ks[|ks| - 1 - i])
  }

  /** Reversing keeps every key, as often as it occurs. */
  lemma {:induction false} ReverseMultiset(ks: seq<real>)
    ensures multiset(Reverse(ks)) == multiset(ks)
    decreases |ks|
  {
    if ks != [] {
      ReverseMultiset(ks[1..]);
      assert Reverse(ks) == Reverse(ks[1..]) + [ks[0]];
      assert ks == [ks[0]] + ks[1..];
    }
  }

  lemma ReverseSorted(ks: seq<real>, o: Order)
    requires SortedReals(ks, o)
    ensures SortedReals(Reverse(ks), Flip(o))
  {
    var r := Reverse(ks);
    forall i, j | 0 <= i < j < |r|
      ensures InOrder(r[i], r[j], Flip(o))
    {
      assert InOrder(ks[|ks| - 1 - j], ks[|ks| - 1 - i], o);
    }
  }

  /** Sorting the same records in opposite directions gives reversed key sequences. */
  lemma OppositeSortsReverseKeys(desc: seq<Record>, asc: seq<Record>, s: seq<Record>, f: Field)
    requires AllPresent(s, f)
    requires IsSortingOf(desc, s, f, Descending) && IsSortingOf(asc, s, f, Ascending)
    ensures Reverse(Keys(desc, f)) == Keys(asc, f)
  {
    KeysOfPermutation(s, desc, f);
    KeysOfPermutation(s, asc, f);
    SortedKeys(desc, f, Descending);
    SortedKeys(asc, f, Ascending);
    ReverseSorted(Keys(desc, f), Descending);
    ReverseMultiset(Keys(desc, f));
    SortedRealsUnique(Reverse(Keys(desc, f)), Keys(asc, f), Ascending);
  }

  /** Re-sorting the last records of a descending list ascending reverses their keys. */
  lemma ResortedTailKeys(desc: seq<Record>, m: nat, r: seq<Record>, f: Field)
    requires SortedBy(desc, f, Descending) && m <= |desc|
    requires IsSortingOf(r, desc[m..], f, Ascending)
    ensures AllPresent(desc[m..], f)
    ensures Reverse(Keys(desc, f)[m..]) == Keys(r, f)
  {
    var bottom := desc[m..];
    assert forall y | y in bottom :: y in desc;
    assert Keys(bottom, f) == Keys(desc, f)[m..];
    KeysOfPermutation(bottom, r, f);
    SortedKeys(desc, f, Descending);
    SortedKeys(r, f, Ascending);
    ReverseSorted(Keys(bottom, f), Descending);
    ReverseMultiset(Keys(bottom, f));
    SortedRealsUnique(Reverse(Keys(bottom, f)), Keys(r, f), Ascending);
  }

  lemma ReverseOfSuffix(ks: seq<real>, m: nat)
    requires m <= |ks|
    ensures Reverse(ks[m..]) == Reverse(ks)[..|ks| - m]
  {
  }

  /** The bottom of a descending sort, re-sorted ascending, lies at or below every record left out. */
  lemma ResortedTailTrails(sorted: seq<Record>, pool: seq<Record>, f: Field, m: nat, r: seq<Record>)
    requires IsSortingOf(sorted, pool, f, Descending) && m <= |sorted|
    requires multiset(r) == multiset(sorted[m..])
    ensures AllPresent(r, f) && multiset(r) <= multiset(pool)
    ensures forall x, y | x in multiset(pool) - multiset(r) && y in r ::
      Present(x, f) && Key(y, f) <= Key(x, f)
  {
    TailOfSorting(sorted, pool, f, Descending, m);
    assert forall y | y in r :: y in multiset(sorted[m..]);
  }

  /**
    The last `k` records of a descending sort, re-sorted ascending, carry the
    same keys as the first `k` records of an ascending sort.
  */
  lemma ResortedBottomIsAscendingHead(
    s: seq<Record>, desc: seq<Record>, asc: seq<Record>, r: seq<Record>, f: Field, n: nat)
    requires AllPresent(s, f) && |desc| == |s|
    requires IsSortingOf(desc, s, f, Descending) && IsSortingOf(asc, s, f, Ascending)
    requires IsSortingOf(r, desc[|s| - Min(n, |s|)..], f, Ascending)
    ensures AllPresent(Head(asc, n), f) && AllPresent(r, f)
    ensures Keys(r, f) == Keys(Head(asc, n), f)
  {
    var k := Min(n, |s|);
    PermutationPresent(s, asc, f);
    assert Head(asc, n) == asc[..k];
    OppositeSortsReverseKeys(desc, asc, s, f);
    ResortedTailKeys(desc, |s| - k, r, f);
    ReverseOfSuffix(Keys(desc, f), |s| - k);
    KeysPrefix(asc, k, f);
  }
}
