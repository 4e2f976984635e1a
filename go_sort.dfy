/**
 Go's `sort.Slice`: sorts a slice in place by a caller-supplied `less`
 function. Go documents only the outcome (the slice is ordered by `less`, and
 it is a rearrangement of the input; the sort is not stable), so that is all
 `SortSlice` promises. Its body is an insertion sort, not Go's algorithm.
 */
module GoSort {

  /** What `sort.Slice` demands of `less`: a strict weak ordering. */
  ghost predicate StrictWeakOrder<T(!new)>(less: (T, T) -> bool)
  {
    && (forall x :: !less(x, x))
    && (forall x, y, z :: less(x, y) && less(y, z) ==> less(x, z))
    && (forall x, y, z :: !less(x, y) && !less(y, z) ==> !less(x, z))
  }

  /** No later element is `less` than an earlier one. */
  ghost predicate SortedBy<T>(s: seq<T>, less: (T, T) -> bool)
  {
    forall i, j :: 0 <= i < j < |s| ==> !less(s[j], s[i])
  }

  /** Every earlier element is `less` than every later one. */
  ghost predicate StrictlyIncreasing<T>(s: seq<T>, less: (T, T) -> bool)
  {
    forall i, j :: 0 <= i < j < |s| ==> less(s[i], s[j])
  }

  method SortSlice<T(!new)>(a: array<T>, less: (T, T) -> bool)
    requires StrictWeakOrder(less)
    modifies a
    ensures SortedBy(a[..], less)
    ensures multiset(a[..]) == old(multiset(a[..]))
  {
    var i := 0;
    while i < a.Length
      invariant 0 <= i <= a.Length
      invariant forall p, q :: 0 <= p < q < i ==> !less(a[q], a[p])
      invariant multiset(a[..]) == old(multiset(a[..]))
    {
      InsertBack(a, i, less);
      i := i + 1;
    }
  }

  /** One step of the insertion sort: moves `a[i]` left into the sorted
      prefix `a[..i]`, so that `a[..i + 1]` is sorted; the elements after
      position `i` stay where they are. */
  method InsertBack<T(!new)>(a: array<T>, i: nat, less: (T, T) -> bool)
    requires StrictWeakOrder(less)
    requires i < a.Length
    requires forall p, q :: 0 <= p < q < i ==> !less(a[q], a[p])
    modifies a
    ensures forall p, q :: 0 <= p < q <= i ==> !less(a[q], a[p])
    ensures multiset(a[..]) == old(multiset(a[..]))
    ensures forall k :: i < k < a.Length ==> a[k] == old(a[k])
  {
    var j := i;
    while 0 < j && less(a[j], a[j - 1])
      invariant 0 <= j <= i
      invariant forall p, q :: 0 <= p < q <= i && p != j && q != j ==> !less(a[q], a[p])
      invariant forall q :: j < q <= i ==> less(a[j], a[q])
      invariant multiset(a[..]) == old(multiset(a[..]))
      invariant forall k :: i < k < a.Length ==> a[k] == old(a[k])
    {
      a[j - 1], a[j] := a[j], a[j - 1];
      j := j - 1;
    }
  }

  /** A sorted sequence is determined by its elements, as long as any two
      different elements are ordered one way or the other. */
  lemma {:induction false} SortedUnique<T(!new)>(s: seq<T>, t: seq<T>, less: (T, T) -> bool)
    requires StrictWeakOrder(less)
    requires SortedBy(s, less) && SortedBy(t, less)
    requires multiset(s) == multiset(t)
    requires forall x, y :: x in s && y in s && x != y ==> less(x, y) || less(y, x)
    ensures s == t
  {
    if s != [] {
      assert |t| == |multiset(t)| == |multiset(s)| == |s|;
      assert s[0] in multiset(t) && t[0] in multiset(s);
      var m :| 0 <= m < |t| && t[m] == s[0];
      var n :| 0 <= n < |s| && s[n] == t[0];
      assert !less(t[0], s[0]) by {
        if m > 0 {
          assert !less(t[m], t[0]);
        }
      }
      assert !less(s[0], t[0]) by {
        if n > 0 {
          assert !less(s[n], s[0]);
        }
      }
      assert s[0] == t[0];
      TailMultiset(s, t);
      SortedUnique(s[1..], t[1..], less);
    }
  }

  lemma TailMultiset<T>(s: seq<T>, t: seq<T>)
    requires s != [] && t != [] && s[0] == t[0]
    requires multiset(s) == multiset(t)
    ensures multiset(s[1..]) == multiset(t[1..])
  {
    assert s == [s[0]] + s[1..];
    assert t == [t[0]] + t[1..];
    assert multiset(s[1..]) == multiset(s) - multiset{s[0]};
  }

  /** A sorted sequence in which no element occurs twice is strictly
      increasing, provided any two different elements are ordered. */
  lemma SortedDistinctIsStrictlyIncreasing<T(!new)>(s: seq<T>, less: (T, T) -> bool)
    requires SortedBy(s, less)
    requires forall x :: multiset(s)[x] <= 1
    requires forall x, y :: x in s && y in s && x != y ==> less(x, y) || less(y, x)
    ensures StrictlyIncreasing(s, less)
  {
    forall i, j | 0 <= i < j < |s|
      ensures less(s[i], s[j])
    {
      var x := s[i];
      assert s == s[..j] + s[j..];
      assert multiset(s)[x] == multiset(s[..j])[x] + multiset(s[j..])[x];
      assert x in multiset(s[..j]);
      assert s[j] in multiset(s[j..]);
    }
  }
}
