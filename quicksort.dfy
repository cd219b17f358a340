/** The quicksort of example/quicksort.cc: the middle element is the pivot, one partition
    moves the elements below it to the front, a second one moves the elements equal to it
    next, and the two outer ranges are sorted recursively. `std::partition` is specified by
    its postcondition only; the loop below is one algorithm meeting it. */
module QuickSort {
  ghost predicate Sorted(s: seq<int>) {
    forall i, j :: 0 <= i < j < |s| ==> s[i] <= s[j]
  }

  ghost predicate Below(s: seq<int>, b: int) {
    forall i :: 0 <= i < |s| ==> s[i] < b
  }

  ghost predicate AtLeast(s: seq<int>, b: int) {
    forall i :: 0 <= i < |s| ==> b <= s[i]
  }

  ghost predicate Above(s: seq<int>, b: int) {
    forall i :: 0 <= i < |s| ==> b < s[i]
  }

  /** A rearrangement keeps every bound that holds of all elements. */
  lemma PermutationKeepsBounds(s: seq<int>, t: seq<int>, b: int)
    requires multiset(s) == multiset(t)
    ensures Below(s, b) ==> Below(t, b)
    ensures AtLeast(s, b) ==> AtLeast(t, b)
    ensures Above(s, b) ==> Above(t, b)
  {
    forall i | 0 <= i < |t|
      ensures t[i] in s
    {
      assert t[i] in multiset(t);
    }
  }

  /** Exchanges two positions of `a[lo..hi]`, which keeps the range's elements. */
  method Swap(a: array<int>, lo: int, hi: int, i: int, j: int)
    requires 0 <= lo <= i < hi <= a.Length && lo <= j < hi
    modifies a
    ensures a[i] == old(a[j]) && a[j] == old(a[i])
    ensures forall k :: 0 <= k < a.Length && k != i && k != j ==> a[k] == old(a[k])
    ensures multiset(a[lo..hi]) == multiset(old(a[lo..hi]))
  {
    ghost var before := a[lo..hi];
    a[i], a[j] := a[j], a[i];
    assert a[lo..hi] == before[i - lo := before[j - lo]][j - lo := before[i - lo]];
  }

  /** `std::partition(first, last, p)` on `a[lo..hi]`: returns `mid` with every element of
      `[lo, mid)` satisfying `p` and none of `[mid, hi)`; the range is rearranged, nothing
      outside it changes. */
  method Partition(a: array<int>, lo: int, hi: int, p: int -> bool) returns (mid: int)
    requires 0 <= lo <= hi <= a.Length
    modifies a
    ensures lo <= mid <= hi
    ensures forall k :: lo <= k < mid ==> p(a[k])
    ensures forall k :: mid <= k < hi ==> !p(a[k])
    ensures multiset(a[lo..hi]) == multiset(old(a[lo..hi]))
    ensures forall k :: 0 <= k < lo || hi <= k < a.Length ==> a[k] == old(a[k])
  {
    mid := lo;
    var j := lo;
    while j < hi
      invariant lo <= mid <= j <= hi
      invariant forall k :: lo <= k < mid ==> p(a[k])
      invariant forall k :: mid <= k < j ==> !p(a[k])
      invariant multiset(a[lo..hi]) == multiset(old(a[lo..hi]))
      invariant forall k :: 0 <= k < lo || hi <= k < a.Length ==> a[k] == old(a[k])
    {
      if p(a[j]) {
        Swap(a, lo, hi, mid, j);
        mid := mid + 1;
      }
      j := j + 1;
    }
  }

  /** The first partition, `em < pivot`. */
  method PartitionBelow(a: array<int>, lo: int, hi: int, pivot: int) returns (mid: int)
    requires 0 <= lo <= hi <= a.Length
    modifies a
    ensures lo <= mid <= hi
    ensures Below(a[lo..mid], pivot) && AtLeast(a[mid..hi], pivot)
    ensures multiset(a[lo..hi]) == multiset(old(a[lo..hi]))
    ensures a[..lo] == old(a[..lo]) && a[hi..] == old(a[hi..])
  {
    mid := Partition(a, lo, hi, x => x < pivot);
    assert a[..lo] == old(a[..lo]) && a[hi..] == old(a[hi..]);
  }

  /** The second partition, `!(pivot < em)`. */
  method PartitionNotAbove(a: array<int>, lo: int, hi: int, pivot: int) returns (mid: int)
    requires 0 <= lo <= hi <= a.Length
    modifies a
    ensures lo <= mid <= hi
    ensures forall k :: lo <= k < mid ==> a[k] <= pivot
    ensures Above(a[mid..hi], pivot)
    ensures multiset(a[lo..hi]) == multiset(old(a[lo..hi]))
    ensures a[..lo] == old(a[..lo]) && a[hi..] == old(a[hi..])
  {
    mid := Partition(a, lo, hi, x => !(pivot < x));
    assert a[..lo] == old(a[..lo]) && a[hi..] == old(a[hi..]);
  }

  /** The pivot occurs in the range, is not below `i` and not from `j` on, so `i < j`. */
  lemma PivotBetween(s: seq<int>, i: int, j: int, pivot: int)
    requires 0 <= i <= j <= |s| && pivot in s
    requires Below(s[..i], pivot) && Above(s[j..], pivot)
    ensures i < j
  {
    var k :| 0 <= k < |s| && s[k] == pivot;
    assert i <= k;
    assert s[k..] == s[k..j] + s[j..];
  }

  lemma SplitThree(s: seq<int>, lo: int, m1: int, m2: int, hi: int)
    requires 0 <= lo <= m1 <= m2 <= hi <= |s|
    ensures s[lo..hi] == s[lo..m1] + s[m1..m2] + s[m2..hi]
    ensures s[m1..hi] == s[m1..m2] + s[m2..hi]
  {
  }

  /** Two sequences that agree from `m` on agree on every range within it. */
  lemma SameSuffix(s: seq<int>, t: seq<int>, m: int, i: int, j: int)
    requires |s| == |t| && 0 <= m <= i <= j <= |s| && s[m..] == t[m..]
    ensures s[i..j] == t[i..j]
  {
    forall k | i <= k < j
      ensures s[k] == t[k]
    {
      assert s[m..][k - m] == t[m..][k - m];
    }
  }

  /** Two sequences that agree up to `m` agree on every range before it. */
  lemma SamePrefix(s: seq<int>, t: seq<int>, m: int, i: int, j: int)
    requires |s| == |t| && 0 <= i <= j <= m <= |s| && s[..m] == t[..m]
    ensures s[i..j] == t[i..j]
  {
    forall k | i <= k < j
      ensures s[k] == t[k]
    {
      assert s[..m][k] == t[..m][k];
    }
  }

  /** The recursion step: `s1` is the partitioned array, `s2` the array after sorting the
      lower range, `s3` the array after sorting the upper range as well. */
  lemma SortedFromParts(s1: seq<int>, s2: seq<int>, s3: seq<int>, lo: int, mid1: int, mid2: int, hi: int, pivot: int)
    requires 0 <= lo <= mid1 <= mid2 <= hi <= |s1| && |s1| == |s2| == |s3|
    requires Below(s1[lo..mid1], pivot) && Above(s1[mid2..hi], pivot)
    requires forall k :: mid1 <= k < mid2 ==> s1[k] == pivot
    requires Sorted(s2[lo..mid1]) && multiset(s2[lo..mid1]) == multiset(s1[lo..mid1])
    requires s2[..lo] == s1[..lo] && s2[mid1..] == s1[mid1..]
    requires Sorted(s3[mid2..hi]) && multiset(s3[mid2..hi]) == multiset(s2[mid2..hi])
    requires s3[..mid2] == s2[..mid2] && s3[hi..] == s2[hi..]
    ensures Sorted(s3[lo..hi]) && multiset(s3[lo..hi]) == multiset(s1[lo..hi])
    ensures s3[..lo] == s1[..lo] && s3[hi..] == s1[hi..]
  {
    SameSuffix(s2, s1, mid1, mid1, mid2);
    SameSuffix(s2, s1, mid1, mid2, hi);
    SameSuffix(s2, s1, mid1, hi, |s1|);
    SamePrefix(s3, s2, mid2, lo, mid1);
    SamePrefix(s3, s2, mid2, mid1, mid2);
    SamePrefix(s3, s2, mid2, 0, lo);
    SameSuffix(s3, s2, hi, hi, |s1|);
    assert s3[..lo] == s1[..lo] && s3[hi..] == s1[hi..];
    PermutationKeepsBounds(s1[lo..mid1], s3[lo..mid1], pivot);
    PermutationKeepsBounds(s1[mid2..hi], s3[mid2..hi], pivot);
    forall k | 0 <= k < mid2 - mid1
      ensures s3[mid1..mid2][k] == pivot
    {
      assert s3[mid1..mid2][k] == s1[mid1 + k];
    }
    SplitThree(s1, lo, mid1, mid2, hi);
    SplitThree(s3, lo, mid1, mid2, hi);
    SortedConcat(s3[lo..mid1], s3[mid1..mid2], s3[mid2..hi], pivot);
  }

  /** Three sorted ranges, below, equal to and above the pivot, make a sorted range. */
  lemma SortedConcat(l: seq<int>, m: seq<int>, r: seq<int>, pivot: int)
    requires Sorted(l) && Sorted(r)
    requires Below(l, pivot) && (forall i :: 0 <= i < |m| ==> m[i] == pivot) && Above(r, pivot)
    ensures Sorted(l + m + r)
  {
    var s := l + m + r;
    forall i, j | 0 <= i < j < |s|
      ensures s[i] <= s[j]
    {
      if i < |l| && j >= |l| {
        assert s[i] < pivot && pivot <= s[j];
      } else if |l| <= i < |l| + |m| && j >= |l| + |m| {
        assert s[i] == pivot && pivot < s[j];
      }
    }
  }

  /** The step of the two partitions: `s0` is the range before, `s1` after the first and
      `s2` after the second partition. */
  lemma AroundFromParts(s0: seq<int>, s1: seq<int>, s2: seq<int>, lo: int, mid1: int, mid2: int, hi: int, pivot: int)
    requires 0 <= lo <= mid1 <= mid2 <= hi <= |s0| && |s0| == |s1| == |s2| && pivot in s0[lo..hi]
    requires Below(s1[lo..mid1], pivot) && AtLeast(s1[mid1..hi], pivot)
    requires multiset(s1[lo..hi]) == multiset(s0[lo..hi]) && s1[..lo] == s0[..lo] && s1[hi..] == s0[hi..]
    requires forall k :: mid1 <= k < mid2 ==> s2[k] <= pivot
    requires Above(s2[mid2..hi], pivot) && multiset(s2[mid1..hi]) == multiset(s1[mid1..hi])
    requires s2[..mid1] == s1[..mid1] && s2[hi..] == s1[hi..]
    ensures mid1 < mid2
    ensures Below(s2[lo..mid1], pivot) && (forall k :: mid1 <= k < mid2 ==> s2[k] == pivot)
    ensures multiset(s2[lo..hi]) == multiset(s0[lo..hi]) && s2[..lo] == s0[..lo] && s2[hi..] == s0[hi..]
  {
    SamePrefix(s2, s1, mid1, lo, mid1);
    SamePrefix(s2, s1, mid1, 0, lo);
    assert s1[lo..hi] == s1[lo..mid1] + s1[mid1..hi];
    assert s2[lo..hi] == s2[lo..mid1] + s2[mid1..hi];
    PermutationKeepsBounds(s1[mid1..hi], s2[mid1..hi], pivot);
    forall k | mid1 <= k < mid2
      ensures s2[k] == pivot
    {
      assert s2[mid1..hi][k - mid1] == s2[k];
    }
    assert pivot in multiset(s0[lo..hi]);
    assert pivot in s2[lo..hi];
    SplitThree(s2, lo, mid1, mid2, hi);
    PivotBetween(s2[lo..hi], mid1 - lo, mid2 - lo, pivot);
  }

  /** The two partitions around `pivot`, an element of `a[lo..hi]`: `[lo, mid1)` below it,
      `[mid1, mid2)` equal to it and not empty, `[mid2, hi)` above it. */
  method PartitionAround(a: array<int>, lo: int, hi: int, pivot: int) returns (mid1: int, mid2: int)
    requires 0 <= lo <= hi <= a.Length && pivot in a[lo..hi]
    modifies a
    ensures lo <= mid1 < mid2 <= hi
    ensures Below(a[lo..mid1], pivot) && Above(a[mid2..hi], pivot)
    ensures forall k :: mid1 <= k < mid2 ==> a[k] == pivot
    ensures multiset(a[lo..hi]) == multiset(old(a[lo..hi]))
    ensures a[..lo] == old(a[..lo]) && a[hi..] == old(a[hi..])
  {
    ghost var s0 := a[..];
    mid1 := PartitionBelow(a, lo, hi, pivot);
    ghost var s1 := a[..];
    mid2 := PartitionNotAbove(a, mid1, hi, pivot);
    AroundFromParts(s0, s1, a[..], lo, mid1, mid2, hi, pivot);
  }

  /** `quicksort(first, last)` on `a[lo..hi]`: an empty range is left alone; otherwise the
      range ends sorted and rearranged, and nothing outside it changes. */
  method Quicksort(a: array<int>, lo: int, hi: int)
    requires 0 <= lo <= hi <= a.Length
    modifies a
    ensures Sorted(a[lo..hi])
    ensures multiset(a[lo..hi]) == multiset(old(a[lo..hi]))
    ensures a[..lo] == old(a[..lo]) && a[hi..] == old(a[hi..])
    decreases hi - lo
  {
    if lo == hi {
      return;
    }
    var pivot := a[lo + (hi - lo) / 2];
    assert a[lo..hi][(hi - lo) / 2] == pivot;
    var mid1, mid2 := PartitionAround(a, lo, hi, pivot);
    ghost var s1 := a[..];
    Quicksort(a, lo, mid1);
    ghost var s2 := a[..];
    Quicksort(a, mid2, hi);
    SortedFromParts(s1, s2, a[..], lo, mid1, mid2, hi, pivot);
  }
}
