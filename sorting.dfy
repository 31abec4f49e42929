/**
 * The sort `sort_values(by=key, ascending=False, na_position='last')` over
 * rows that carry a helper key, and the drop of that helper afterwards.
 */
module Sorting {
  import opened Wrappers
  import opened Frame

  /** A row together with its helper-column value (None is "not a number"). */
  datatype KeyedRow = KeyedRow(row: Row, key: Option<int>)

  /**
   * `x` may stand before `y` in a descending sort with missing keys last:
   * whenever `y` is a number, so is `x`, and it is not smaller.
   */
  predicate Precedes(x: Option<int>, y: Option<int>) {
    y.Some? ==> x.Some? && x.value >= y.value
  }

  /** Numbers before non-numbers, numbers from greatest to least. */
  predicate SortedByKey(s: seq<KeyedRow>) {
    forall i, j :: 0 <= i < j < |s| ==> Precedes(s[i].key, s[j].key)
  }

  /**
   * The position, at `i` or after, of a row whose key may precede the key of
   * every row from `i` on: the greatest number, or a non-number when there is
   * no number left.
   */
  method IndexOfLeading(a: array<KeyedRow>, i: nat) returns (m: nat)
    requires i < a.Length
    ensures i <= m < a.Length
    ensures forall q :: i <= q < a.Length ==> Precedes(a[m].key, a[q].key)
  {
    m := i;
    var j := i + 1;
    while j < a.Length
      invariant i <= m < j <= a.Length
      invariant forall q :: i <= q < j ==> Precedes(a[m].key, a[q].key)
    {
      if !Precedes(a[m].key, a[j].key) {
        m := j;
      }
      j := j + 1;
    }
  }

  /** Exchanges two rows of `a`, leaving the others where they are. */
  method Swap(a: array<KeyedRow>, i: nat, j: nat)
    requires i < a.Length && j < a.Length
    modifies a
    ensures a[..] == old(a[..])[i := old(a[j])][j := old(a[i])]
    ensures multiset(a[..]) == old(multiset(a[..]))
  {
    a[i], a[j] := a[j], a[i];
  }

  /**
   * Reorders `a` in place so that every row with a numeric key precedes every
   * row without one, and numeric keys do not increase; the rows are only
   * permuted. The order among equal keys is not specified.
   */
  method SortByKeyDescending(a: array<KeyedRow>)
    modifies a
    ensures multiset(a[..]) == old(multiset(a[..]))
    ensures SortedByKey(a[..])
  {
    var i := 0;
    while i < a.Length
      invariant 0 <= i <= a.Length
      invariant multiset(a[..]) == old(multiset(a[..]))
      invariant forall p, q :: 0 <= p < q < i ==> Precedes(a[p].key, a[q].key)
      invariant forall p, q :: 0 <= p < i <= q < a.Length ==> Precedes(a[p].key, a[q].key)
    {
      var m := IndexOfLeading(a, i);
      ghost var before := a[..];
      Swap(a, i, m);
      forall p, q | 0 <= p < q < i + 1
        ensures Precedes(a[p].key, a[q].key)
      {
        assert a[p] == before[p];
        if q < i {
          assert a[q] == before[q];
        } else {
          assert a[q] == before[m];
        }
      }
      forall p, q | 0 <= p < i + 1 <= q < a.Length
        ensures Precedes(a[p].key, a[q].key)
      {
        if p < i {
          assert a[p] == before[p];
        } else {
          assert a[p] == before[m];
        }
        assert a[q] == before[q] || a[q] == before[i];
      }
      i := i + 1;
    }
    assert a[..] == a[..a.Length];
  }

  /** The rows without their helper values, in the same order. */
  function DropKey(s: seq<KeyedRow>): (r: seq<Row>)
    ensures |r| == |s|
    ensures forall i :: 0 <= i < |s| ==> r[i] == s[i].row
  {
    if s == [] then [] else [s[0].row] + DropKey(s[1..])
  }

  lemma DropKeyConcat(s: seq<KeyedRow>, t: seq<KeyedRow>)
    ensures DropKey(s + t) == DropKey(s) + DropKey(t)
  {
  }

  /** Dropping the helper column keeps a permutation of keyed rows a permutation of rows. */
  lemma {:induction false} DropKeyPermutation(s: seq<KeyedRow>, t: seq<KeyedRow>)
    requires multiset(s) == multiset(t)
    ensures multiset(DropKey(s)) == multiset(DropKey(t))
    decreases |s|
  {
    if s == [] {
      assert |t| == |multiset(t)| == 0;
    } else {
      var x := s[0];
      assert x in multiset(t);
      var k :| 0 <= k < |t| && t[k] == x;
      var rest := t[..k] + t[k + 1..];
      assert t == t[..k] + [x] + t[k + 1..];
      assert s == [x] + s[1..];
      assert multiset(s) == multiset([x]) + multiset(s[1..]);
      assert multiset(t) == multiset(t[..k]) + multiset([x]) + multiset(t[k + 1..]);
      assert multiset(rest) == multiset(t[..k]) + multiset(t[k + 1..]);
      assert multiset(s[1..]) == multiset(s) - multiset{x};
      assert multiset(rest) == multiset(t) - multiset{x};
      DropKeyPermutation(s[1..], rest);
      DropKeyConcat(t[..k], t[k + 1..]);
      DropKeyConcat(t[..k] + [x], t[k + 1..]);
      DropKeyConcat(t[..k], [x]);
      DropKeyConcat([x], s[1..]);
    }
  }
}
