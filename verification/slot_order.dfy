/**
 * A schedule entry is a Python `(start, end)` tuple of ints. Python orders
 * tuples lexicographically, and `list.sort()` leaves a list in that order.
 */
module SlotOrder {

  /** One `(start_hour, end_hour)` schedule entry. */
  type Slot = (int, int)

  /** Python's `a <= b` on two-element tuples. */
  predicate Le(a: Slot, b: Slot)
  {
    a.0 < b.0 || (a.0 == b.0 && a.1 <= b.1)
  }

  /** Every earlier entry is `<=` every later one. */
  predicate Sorted(s: seq<Slot>)
  {
    forall i, j :: 0 <= i < j < |s| ==> Le(s[i], s[j])
  }

  /** `Le` is a total order: reflexive, antisymmetric, transitive and total. */
  lemma LeTotalOrder(a: Slot, b: Slot, c: Slot)
    ensures Le(a, a)
    ensures Le(a, b) && Le(b, a) ==> a == b
    ensures Le(a, b) && Le(b, c) ==> Le(a, c)
    ensures Le(a, b) || Le(b, a)
  {
  }

  /** Inserts `x` into a sorted list just before the first strictly greater entry. */
  function Insert(x: Slot, s: seq<Slot>): (r: seq<Slot>)
    requires Sorted(s)
    ensures Sorted(r)
    ensures multiset(r) == multiset(s) + multiset{x}
    ensures |r| == |s| + 1
  {
    if |s| == 0 then [x]
    else if Le(x, s[0]) then [x] + s
    else
      var tail := Insert(x, s[1..]);
      LowerBoundKept(s[0], s[1..], x, tail);
      assert s == [s[0]] + s[1..];
      [s[0]] + tail
  }

  /** A lower bound of every element of `s` and of `x` bounds every element of a permutation of them. */
  lemma LowerBoundKept(b: Slot, s: seq<Slot>, x: Slot, t: seq<Slot>)
    requires forall k :: 0 <= k < |s| ==> Le(b, s[k])
    requires Le(b, x)
    requires multiset(t) == multiset(s) + multiset{x}
    ensures forall k :: 0 <= k < |t| ==> Le(b, t[k])
  {
    forall k | 0 <= k < |t| ensures Le(b, t[k]) {
      assert t[k] in multiset(t);
      if t[k] != x {
        assert t[k] in multiset(s);
        var m :| 0 <= m < |s| && s[m] == t[k];
      }
    }
  }

  /** `list.sort()`: the sorted permutation of `s` (insertion sort). */
  function Sort(s: seq<Slot>): (r: seq<Slot>)
    ensures Sorted(r)
    ensures multiset(r) == multiset(s)
    ensures |r| == |s|
  {
    if |s| == 0 then []
    else
      assert s == [s[0]] + s[1..];
      Insert(s[0], Sort(s[1..]))
  }

  /**
   * A sorted permutation is unique: any two sorted lists with the same
   * elements are equal. So `Sort` gives exactly what Python's stable sort
   * gives, whatever algorithm computes it.
   */
  lemma {:induction false} SortedUnique(a: seq<Slot>, b: seq<Slot>)
    requires Sorted(a) && Sorted(b)
    requires multiset(a) == multiset(b)
    ensures a == b
    decreases |a|
  {
    assert |a| == |multiset(a)| == |multiset(b)| == |b|;
    if |a| > 0 {
      SortedHeads(a, b);
      DropHead(a);
      DropHead(b);
      SortedTail(a);
      SortedTail(b);
      SortedUnique(a[1..], b[1..]);
      assert a == [a[0]] + a[1..];
      assert b == [b[0]] + b[1..];
    }
  }

  /** Two sorted lists with the same elements start with the same element. */
  lemma SortedHeads(a: seq<Slot>, b: seq<Slot>)
    requires Sorted(a) && Sorted(b)
    requires multiset(a) == multiset(b)
    requires |a| > 0
    ensures |b| > 0 && a[0] == b[0]
  {
    assert a[0] in multiset(b);
    var i :| 0 <= i < |b| && b[i] == a[0];
    assert b[0] in multiset(a);
    var j :| 0 <= j < |a| && a[j] == b[0];
    assert Le(b[0], a[0]) by { if i > 0 { assert Le(b[0], b[i]); } }
    assert Le(a[0], b[0]) by { if j > 0 { assert Le(a[0], a[j]); } }
    LeTotalOrder(a[0], b[0], b[0]);
  }

  /** Dropping the head removes one copy of it. */
  lemma DropHead(a: seq<Slot>)
    requires |a| > 0
    ensures multiset(a[1..]) == multiset(a) - multiset{a[0]}
  {
    assert a == [a[0]] + a[1..];
  }

  /** The tail of a sorted list is sorted. */
  lemma SortedTail(a: seq<Slot>)
    requires |a| > 0 && Sorted(a)
    ensures Sorted(a[1..])
  {
    forall i, j | 0 <= i < j < |a[1..]| ensures Le(a[1..][i], a[1..][j]) {
      assert a[1..][i] == a[i + 1] && a[1..][j] == a[j + 1];
    }
  }

  /** Sorting an already sorted list changes nothing. */
  lemma SortSortedIsIdentity(s: seq<Slot>)
    requires Sorted(s)
    ensures Sort(s) == s
  {
    SortedUnique(Sort(s), s);
  }

  /** Removing one position keeps the survivors in their relative order, so a sorted list stays sorted. */
  lemma RemoveAtKeepsSorted(s: seq<Slot>, i: nat)
    requires i < |s|
    requires Sorted(s)
    ensures Sorted(s[..i] + s[i + 1..])
  {
    var r := s[..i] + s[i + 1..];
    forall p, q | 0 <= p < q < |r| ensures Le(r[p], r[q]) {
      var p' := if p < i then p else p + 1;
      var q' := if q < i then q else q + 1;
      assert r[p] == s[p'] && r[q] == s[q'];
    }
  }
}
