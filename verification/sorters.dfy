/**
 * The sorter hierarchy of oop/inheritance/implementations.ts: QuickSorter's
 * in-place quicksort with a Lomuto partition, BubbleSorter's copy-and-swap
 * loop (which swaps without comparing, so it reverses its copy) and
 * DefaultSorter's Fisher-Yates shuffle. The sorters hold no state, so their
 * operations are methods of this module; JavaScript numbers are `int`s.
 */
module Sorters {

  // ---------------------------------------------------------------------------
  // Specification vocabulary
  // ---------------------------------------------------------------------------

  /** `s` is ascending on the index range [lo, hi). */
  ghost predicate SortedBetween(s: seq<int>, lo: int, hi: int)
  {
    forall i, j :: lo <= i < j < hi && 0 <= i && j < |s| ==> s[i] <= s[j]
  }

  /** `s` and `t` have the same length and agree outside [lo, hi). */
  ghost predicate SameOutside(s: seq<int>, t: seq<int>, lo: int, hi: int)
  {
    |s| == |t| && forall k :: 0 <= k < |s| && !(lo <= k < hi) ==> s[k] == t[k]
  }

  /** Every element of `s` is below `v`. */
  ghost predicate AllBelow(s: seq<int>, v: int)
  {
    forall k :: 0 <= k < |s| ==> s[k] < v
  }

  /** Every element of `s` is at least `v`. */
  ghost predicate AllAtLeast(s: seq<int>, v: int)
  {
    forall k :: 0 <= k < |s| ==> s[k] >= v
  }

  /** The sequence `s` with the elements at `i` and `j` exchanged (the source's destructuring swap). */
  function Swap(s: seq<int>, i: nat, j: nat): (r: seq<int>)
    requires i < |s| && j < |s|
  {
    s[i := s[j]][j := s[i]]
  }

  /** The destructuring swap `[a[i], a[j]] = [a[j], a[i]]` on an array. */
  method SwapElements(a: array<int>, i: nat, j: nat)
    requires i < a.Length && j < a.Length
    modifies a
    ensures a[..] == Swap(old(a[..]), i, j)
  {
    a[i], a[j] := a[j], a[i];
  }

  /** A swap is a permutation. */
  lemma SwapPermutes(s: seq<int>, i: nat, j: nat)
    requires i < |s| && j < |s|
    ensures |Swap(s, i, j)| == |s| && multiset(Swap(s, i, j)) == multiset(s)
  {
    var t := s[i := s[j]];
    assert multiset(t) == multiset(s) - multiset{s[i]} + multiset{s[j]};
    assert multiset(t[j := s[i]]) == multiset(t) - multiset{t[j]} + multiset{s[i]};
  }

  // ---------------------------------------------------------------------------
  // Facts about multisets of segments
  // ---------------------------------------------------------------------------

  /** A bound on every element carries over to any permutation. */
  lemma {:induction false} BelowCarriesOver(s: seq<int>, t: seq<int>, v: int)
    requires multiset(s) == multiset(t) && AllBelow(s, v)
    ensures AllBelow(t, v)
  {
    forall k | 0 <= k < |t| ensures t[k] < v {
      assert t[k] in multiset(t);
      assert t[k] in multiset(s);
      var j :| 0 <= j < |s| && s[j] == t[k];
    }
  }

  /** A lower bound on every element carries over to any permutation. */
  lemma {:induction false} AtLeastCarriesOver(s: seq<int>, t: seq<int>, v: int)
    requires multiset(s) == multiset(t) && AllAtLeast(s, v)
    ensures AllAtLeast(t, v)
  {
    forall k | 0 <= k < |t| ensures t[k] >= v {
      assert t[k] in multiset(t);
      assert t[k] in multiset(s);
      var j :| 0 <= j < |s| && s[j] == t[k];
    }
  }

  /**
   * Permuting the segment [lo, hi) of a sequence and leaving the rest alone
   * permutes every enclosing segment [lower, upper).
   */
  lemma EnclosingSegmentPermuted(s: seq<int>, t: seq<int>, lower: int, lo: int, hi: int, upper: int)
    requires 0 <= lower <= lo <= hi <= upper <= |s|
    requires SameOutside(s, t, lo, hi)
    requires multiset(t[lo..hi]) == multiset(s[lo..hi])
    ensures multiset(t[lower..upper]) == multiset(s[lower..upper])
  {
    assert t[lower..upper] == t[lower..lo] + t[lo..hi] + t[hi..upper];
    assert s[lower..upper] == s[lower..lo] + s[lo..hi] + s[hi..upper];
    assert t[lower..lo] == s[lower..lo];
    assert t[hi..upper] == s[hi..upper];
  }

  /** A permutation that leaves everything outside [lo, hi) alone permutes that segment. */
  lemma SegmentPermuted(s: seq<int>, t: seq<int>, lo: int, hi: int)
    requires 0 <= lo <= hi <= |s|
    requires SameOutside(t, s, lo, hi) && multiset(t) == multiset(s)
    ensures multiset(t[lo..hi]) == multiset(s[lo..hi])
  {
    var outside := multiset(s[..lo]) + multiset(s[hi..]);
    assert t[..lo] == s[..lo];
    assert t[hi..] == s[hi..];
    SplitMultiset(t, lo, hi);
    SplitMultiset(s, lo, hi);
    MultisetCancel(multiset(t[lo..hi]), multiset(s[lo..hi]), outside);
  }

  /** The multiset of a sequence is the sum of those of its three parts. */
  lemma SplitMultiset(s: seq<int>, lo: int, hi: int)
    requires 0 <= lo <= hi <= |s|
    ensures multiset(s) == multiset(s[lo..hi]) + (multiset(s[..lo]) + multiset(s[hi..]))
  {
    assert s == s[..lo] + s[lo..hi] + s[hi..];
  }

  /** Multiset union cancels. */
  lemma MultisetCancel(m: multiset<int>, n: multiset<int>, x: multiset<int>)
    requires m + x == n + x
    ensures m == n
  {
    assert forall e :: m[e] == (m + x)[e] - x[e];
    assert forall e :: n[e] == (n + x)[e] - x[e];
  }

  // ---------------------------------------------------------------------------
  // QuickSorter
  // ---------------------------------------------------------------------------

  /**
   * `t` is `orig` with [start, end] partitioned around index `p`: the old
   * `orig[start]` sits at `p`, smaller elements lie to its left, the others
   * to its right, and nothing outside [start, end] moved.
   */
  ghost predicate PartitionedAt(t: seq<int>, orig: seq<int>, start: int, end: int, p: int)
  {
    && SameOutside(t, orig, start, end + 1)
    && 0 <= start <= p <= end < |t|
    && t[p] == orig[start]
    && (forall k :: start <= k < p ==> t[k] < t[p])
    && (forall k :: p < k <= end ==> t[k] >= t[p])
    && multiset(t[start..end + 1]) == multiset(orig[start..end + 1])
  }

  /**
   * The partition loop's invariant on the array contents `s`: the pivot
   * stays at `start`, (start, swapIndex] holds the elements seen so far that
   * are below it, (swapIndex, i) those that are not, and only [start, end]
   * has been permuted.
   */
  ghost predicate PartitionInv(s: seq<int>, orig: seq<int>, start: int, end: int, swapIndex: int, i: int, pivot: int)
  {
    && SameOutside(s, orig, start, end + 1)
    && multiset(s) == multiset(orig)
    && 0 <= start <= swapIndex < i <= end + 1 <= |s|
    && s[start] == pivot == orig[start]
    && (forall k :: start < k <= swapIndex ==> s[k] < pivot)
    && (forall k :: swapIndex < k < i ==> s[k] >= pivot)
  }

  /**
   * The partition loop run from index `i` with the left half ending at
   * `swapIndex`: the contents and the final `swapIndex` it stops with.
   */
  function PartitionLoop(s: seq<int>, start: int, end: int, swapIndex: int, i: int, pivot: int): (seq<int>, int)
    requires 0 <= start <= swapIndex < i <= end + 1 <= |s|
    decreases end + 1 - i
  {
    if i > end then (s, swapIndex)
    else if s[i] >= pivot then PartitionLoop(s, start, end, swapIndex, i + 1, pivot)
    else PartitionLoop(Swap(s, i, swapIndex + 1), start, end, swapIndex + 1, i + 1, pivot)
  }

  /** The partition loop keeps its invariant all the way to the end of the range. */
  lemma {:induction false} PartitionLoopInv(s: seq<int>, orig: seq<int>, start: int, end: int, swapIndex: int, i: int, pivot: int)
    requires PartitionInv(s, orig, start, end, swapIndex, i, pivot)
    ensures PartitionInv(PartitionLoop(s, start, end, swapIndex, i, pivot).0, orig, start, end,
                         PartitionLoop(s, start, end, swapIndex, i, pivot).1, end + 1, pivot)
    decreases end + 1 - i
  {
    if i <= end {
      if s[i] >= pivot {
        PartitionSkipStep(s, orig, start, end, swapIndex, i, pivot);
        PartitionLoopInv(s, orig, start, end, swapIndex, i + 1, pivot);
        assert PartitionLoop(s, start, end, swapIndex, i, pivot) == PartitionLoop(s, start, end, swapIndex, i + 1, pivot);
      } else {
        var t := Swap(s, i, swapIndex + 1);
        PartitionSwapStep(s, orig, start, end, swapIndex, i, pivot);
        PartitionLoopInv(t, orig, start, end, swapIndex + 1, i + 1, pivot);
        assert PartitionLoop(s, start, end, swapIndex, i, pivot) == PartitionLoop(t, start, end, swapIndex + 1, i + 1, pivot);
      }
    }
  }

  /** An iteration that meets an element below the pivot swaps it into the left half. */
  lemma PartitionSwapStep(s: seq<int>, orig: seq<int>, start: int, end: int, swapIndex: int, i: int, pivot: int)
    requires PartitionInv(s, orig, start, end, swapIndex, i, pivot) && i <= end && s[i] < pivot
    ensures PartitionInv(Swap(s, i, swapIndex + 1), orig, start, end, swapIndex + 1, i + 1, pivot)
  {
    var j := swapIndex + 1;
    var t := Swap(s, i, j);
    SwapPermutes(s, i, j);
    assert t[j] == s[i] && t[i] == s[j];
    assert forall k :: 0 <= k < |s| && k != i && k != j ==> t[k] == s[k];
    assert SameOutside(t, orig, start, end + 1);
    assert forall k :: start < k <= j ==> t[k] < pivot;
    assert forall k :: j < k < i + 1 ==> t[k] >= pivot;
  }

  /** An iteration that meets an element at least the pivot leaves it where it is. */
  lemma PartitionSkipStep(s: seq<int>, orig: seq<int>, start: int, end: int, swapIndex: int, i: int, pivot: int)
    requires PartitionInv(s, orig, start, end, swapIndex, i, pivot) && i <= end && s[i] >= pivot
    ensures PartitionInv(s, orig, start, end, swapIndex, i + 1, pivot)
  {
  }

  /** The final swap puts the pivot between the two halves. */
  lemma PartitionDone(s: seq<int>, orig: seq<int>, start: int, end: int, swapIndex: int, pivot: int)
    requires PartitionInv(s, orig, start, end, swapIndex, end + 1, pivot)
    ensures PartitionedAt(Swap(s, swapIndex, start), orig, start, end, swapIndex)
  {
    var t := Swap(s, swapIndex, start);
    SwapPermutes(s, swapIndex, start);
    SegmentPermuted(orig, t, start, end + 1);
  }

  /**
   * QuickSorter.partition: with the pivot `a[start]`, moves the elements
   * below the pivot to its left and returns the pivot's final index.
   */
  method Partition(a: array<int>, start: int, end: int) returns (p: int)
    requires 0 <= start <= end < a.Length
    modifies a
    ensures PartitionedAt(a[..], old(a[..]), start, end, p)
  {
    var pivot := a[start];
    var swapIndex := start;
    var i := start + 1;
    ghost var last := PartitionLoop(a[..], start, end, swapIndex, i, pivot);
    while i <= end
      invariant start <= swapIndex < i <= end + 1
      invariant PartitionLoop(a[..], start, end, swapIndex, i, pivot) == last
    {
      if a[i] < pivot {
        swapIndex := swapIndex + 1;
        SwapElements(a, i, swapIndex);
      }
      i := i + 1;
    }
    PartitionLoopInv(old(a[..]), old(a[..]), start, end, start, start + 1, pivot);
    PartitionDone(a[..], old(a[..]), start, end, swapIndex, pivot);
    SwapElements(a, swapIndex, start);
    p := swapIndex;
  }

  /**
   * What quick_sort promises for the inclusive range [left, right]: a range
   * of fewer than two elements is left untouched; otherwise it ends up
   * ascending and permuted, and nothing outside it changes.
   */
  ghost predicate QuickSorted(t: seq<int>, orig: seq<int>, left: int, right: int)
  {
    if left < right then
      && SameOutside(t, orig, left, right + 1)
      && 0 <= left && right < |t|
      && SortedBetween(t, left, right + 1)
      && multiset(t[left..right + 1]) == multiset(orig[left..right + 1])
    else
      t == orig
  }

  /** QuickSorter.quick_sort on the inclusive range [left, right]. */
  method QuickSort(a: array<int>, left: int, right: int)
    requires left < right ==> 0 <= left && right < a.Length
    modifies a
    ensures QuickSorted(a[..], old(a[..]), left, right)
    decreases right - left
  {
    if left >= right {
      return;
    }
    ghost var a0 := a[..];
    var p := Partition(a, left, right);
    ghost var a1 := a[..];
    QuickSort(a, left, p - 1);
    ghost var a2 := a[..];
    QuickSort(a, p + 1, right);
    QuickSortStep(a0, a1, a2, a[..], left, p, right);
  }

  /** Partitioning and then sorting both sides sorts the whole range. */
  lemma QuickSortStep(a0: seq<int>, a1: seq<int>, a2: seq<int>, a3: seq<int>, left: int, p: int, right: int)
    requires PartitionedAt(a1, a0, left, right, p)
    requires QuickSorted(a2, a1, left, p - 1)
    requires QuickSorted(a3, a2, p + 1, right)
    ensures QuickSorted(a3, a0, left, right)
  {
    LowerHalfStaysBelow(a1, a2, left, p);
    UpperHalfStaysAbove(a2, a3, p, right);
    QuickSortCombineSorted(a2, a3, left, p, right, a1[p]);
    QuickSortCombinePermuted(a0, a1, a2, a3, left, p, right);
  }

  /** After sorting [left, p), its elements are still below the pivot at `p`. */
  lemma LowerHalfStaysBelow(a1: seq<int>, a2: seq<int>, left: int, p: int)
    requires 0 <= left <= p < |a1|
    requires forall k :: left <= k < p ==> a1[k] < a1[p]
    requires left >= p - 1 ==> a2 == a1
    requires left < p - 1 ==> SameOutside(a2, a1, left, p) && multiset(a2[left..p]) == multiset(a1[left..p])
    ensures |a2| == |a1| && a2[p] == a1[p]
    ensures forall k :: left <= k < p ==> a2[k] < a1[p]
    ensures SameOutside(a2, a1, left, p) && multiset(a2[left..p]) == multiset(a1[left..p])
  {
    assert AllBelow(a1[left..p], a1[p]);
    BelowCarriesOver(a1[left..p], a2[left..p], a1[p]);
    assert forall k :: left <= k < p ==> a2[k] == a2[left..p][k - left];
  }

  /** After sorting (p, right], its elements are still at least the pivot at `p`. */
  lemma UpperHalfStaysAbove(a2: seq<int>, a3: seq<int>, p: int, right: int)
    requires 0 <= p <= right < |a2|
    requires forall k :: p < k <= right ==> a2[k] >= a2[p]
    requires p + 1 >= right ==> a3 == a2
    requires p + 1 < right ==> SameOutside(a3, a2, p + 1, right + 1) && multiset(a3[p + 1..right + 1]) == multiset(a2[p + 1..right + 1])
    ensures |a3| == |a2| && a3[p] == a2[p]
    ensures forall k :: p < k <= right ==> a3[k] >= a2[p]
    ensures SameOutside(a3, a2, p + 1, right + 1) && multiset(a3[p + 1..right + 1]) == multiset(a2[p + 1..right + 1])
  {
    assert AllAtLeast(a2[p + 1..right + 1], a2[p]);
    AtLeastCarriesOver(a2[p + 1..right + 1], a3[p + 1..right + 1], a2[p]);
    assert forall k :: p < k <= right ==> a3[k] == a3[p + 1..right + 1][k - p - 1];
  }

  /** The three segments around the pivot make one sorted range. */
  lemma QuickSortCombineSorted(a2: seq<int>, a3: seq<int>, left: int, p: int, right: int, pivot: int)
    requires 0 <= left <= p <= right < |a2|
    requires SameOutside(a3, a2, p + 1, right + 1) && a3[p] == pivot
    requires forall k :: left <= k < p ==> a2[k] < pivot
    requires forall k :: p < k <= right ==> a3[k] >= pivot
    requires left < p - 1 ==> SortedBetween(a2, left, p)
    requires p + 1 < right ==> SortedBetween(a3, p + 1, right + 1)
    ensures SortedBetween(a3, left, right + 1)
  {
    assert forall k :: left <= k < p ==> a3[k] == a2[k];
  }

  /** Permuting [left, right] and then its two sides permutes [left, right]. */
  lemma QuickSortCombinePermuted(a0: seq<int>, a1: seq<int>, a2: seq<int>, a3: seq<int>, left: int, p: int, right: int)
    requires 0 <= left <= p <= right < |a0|
    requires SameOutside(a1, a0, left, right + 1) && multiset(a1[left..right + 1]) == multiset(a0[left..right + 1])
    requires SameOutside(a2, a1, left, p) && multiset(a2[left..p]) == multiset(a1[left..p])
    requires SameOutside(a3, a2, p + 1, right + 1) && multiset(a3[p + 1..right + 1]) == multiset(a2[p + 1..right + 1])
    ensures SameOutside(a3, a0, left, right + 1)
    ensures multiset(a3[left..right + 1]) == multiset(a0[left..right + 1])
  {
    EnclosingSegmentPermuted(a1, a2, left, left, p, right + 1);
    EnclosingSegmentPermuted(a2, a3, left, p + 1, right + 1, right + 1);
  }

  /** QuickSorter.sort: sorts the array ascending in place and returns the same array. */
  method QuickSorterSort(a: array<int>) returns (r: array<int>)
    modifies a
    ensures r == a
    ensures SortedBetween(a[..], 0, a.Length)
    ensures multiset(a[..]) == multiset(old(a[..]))
  {
    QuickSort(a, 0, a.Length - 1);
    assert a[..] == a[0..a.Length - 1 + 1];
    assert old(a[..]) == old(a[0..a.Length - 1 + 1]);
    r := a;
  }

  // ---------------------------------------------------------------------------
  // BubbleSorter
  // ---------------------------------------------------------------------------

  /** The elements of `s` in reverse order. */
  function Reversed(s: seq<int>): (r: seq<int>)
  {
    if s == [] then [] else [s[|s| - 1]] + Reversed(s[..|s| - 1])
  }

  /** Reversal keeps the length and mirrors every index. */
  lemma {:induction false} ReversedAt(s: seq<int>)
    ensures |Reversed(s)| == |s|
    ensures forall k :: 0 <= k < |s| ==> Reversed(s)[k] == s[|s| - 1 - k]
  {
    if s != [] {
      ReversedAt(s[..|s| - 1]);
    }
  }

  /** Reversal is a permutation. */
  lemma {:induction false} ReversedPermutes(s: seq<int>)
    ensures multiset(Reversed(s)) == multiset(s)
  {
    if s != [] {
      ReversedPermutes(s[..|s| - 1]);
      assert s == s[..|s| - 1] + [s[|s| - 1]];
    }
  }

  /** Reversing twice gives back the input. */
  lemma ReversedTwice(s: seq<int>)
    ensures Reversed(Reversed(s)) == s
  {
    ReversedAt(s);
    ReversedAt(Reversed(s));
  }

  /**
   * The copy `cur` after the first `j` swaps of an inner pass: its first
   * element has travelled to index `j`, the ones it passed moved down by one.
   */
  function Rotated(cur: seq<int>, j: nat): seq<int>
    requires j < |cur|
  {
    cur[1..j + 1] + [cur[0]] + cur[j + 1..]
  }

  /** Before the first swap nothing has moved. */
  lemma RotatedZero(cur: seq<int>)
    requires 0 < |cur|
    ensures Rotated(cur, 0) == cur
  {
  }

  /** One swap of the inner loop moves the travelling element one step on. */
  lemma RotateStep(cur: seq<int>, j: nat)
    requires j + 1 < |cur|
    ensures Swap(Rotated(cur, j), j + 1, j) == Rotated(cur, j + 1)
  {
    var t := Swap(Rotated(cur, j), j + 1, j);
    assert forall k :: 0 <= k < |cur| ==> t[k] == Rotated(cur, j + 1)[k];
  }

  /** The inner loop of BubbleSorter.sort from index `j` up to `limit`. */
  function InnerPass(r: seq<int>, j: nat, limit: nat): (t: seq<int>)
    requires j <= limit < |r|
    ensures |t| == |r|
    decreases limit - j
  {
    if j == limit then r else InnerPass(Swap(r, j + 1, j), j + 1, limit)
  }

  /** The outer loop of BubbleSorter.sort from pass `i` on. */
  function OuterPass(r: seq<int>, i: nat): seq<int>
    requires i <= |r|
    decreases |r| - i
  {
    if i == |r| then r else OuterPass(InnerPass(r, 0, |r| - 1 - i), i + 1)
  }

  /** An inner pass carries the first element all the way to `limit`. */
  lemma {:induction false} InnerPassRotates(cur: seq<int>, j: nat, limit: nat)
    requires j <= limit < |cur|
    ensures InnerPass(Rotated(cur, j), j, limit) == Rotated(cur, limit)
    decreases limit - j
  {
    if j < limit {
      RotateStep(cur, j);
      InnerPassRotates(cur, j + 1, limit);
    }
  }

  /**
   * An inner pass over `s[i..] + Reversed(s[..i])` moves `s[i]` to the front
   * of the reversed tail.
   */
  lemma PassDone(s: seq<int>, i: nat)
    requires i < |s|
    ensures var cur := s[i..] + Reversed(s[..i]);
      |cur| == |s| && Rotated(cur, |s| - 1 - i) == s[i + 1..] + Reversed(s[..i + 1])
  {
    ReversedAt(s[..i]);
    var cur := s[i..] + Reversed(s[..i]);
    assert s[..i + 1][..i] == s[..i];
    assert Reversed(s[..i + 1]) == [s[i]] + Reversed(s[..i]);
    assert cur[1..|s| - i] == s[i + 1..];
    assert cur[|s| - i..] == Reversed(s[..i]);
  }

  /** The spread copy `[...array]`. */
  method Copy(a: array<int>) returns (r: array<int>)
    ensures fresh(r) && r[..] == a[..]
  {
    r := new int[a.Length](k reads a requires 0 <= k < a.Length => a[k]);
  }

  /**
   * The outer passes from `i` on, started on the contents they have after
   * `i` passes, finish the reversal.
   */
  lemma {:induction false} OuterPassReverses(s: seq<int>, i: nat)
    requires i <= |s|
    ensures |s[i..] + Reversed(s[..i])| == |s|
    ensures OuterPass(s[i..] + Reversed(s[..i]), i) == Reversed(s)
    decreases |s| - i
  {
    ReversedAt(s[..i]);
    if i == |s| {
      assert s[..i] == s;
    } else {
      var cur := s[i..] + Reversed(s[..i]);
      RotatedZero(cur);
      InnerPassRotates(cur, 0, |s| - 1 - i);
      PassDone(s, i);
      OuterPassReverses(s, i + 1);
    }
  }

  /**
   * BubbleSorter.sort: copies the input and, in the nested loops, swaps
   * neighbours without comparing them. Each outer pass rotates the unsorted
   * prefix left by one, so the copy comes out reversed; the input is not
   * touched.
   */
  method BubbleSorterSort(a: array<int>) returns (r: array<int>)
    ensures fresh(r)
    ensures r[..] == Reversed(a[..])
  {
    r := Copy(a);
    var n := r.Length;
    var i := 0;
    while i < n
      invariant 0 <= i <= n && r.Length == n
      invariant OuterPass(r[..], i) == OuterPass(a[..], 0)
    {
      ghost var cur := r[..];
      var j := 0;
      while j < n - 1 - i
        invariant 0 <= j <= n - 1 - i
        invariant InnerPass(r[..], j, n - 1 - i) == InnerPass(cur, 0, n - 1 - i)
      {
        SwapElements(r, j + 1, j);
        j := j + 1;
      }
      i := i + 1;
    }
    OuterPassReverses(a[..], 0);
    assert a[..][0..] + Reversed(a[..][..0]) == a[..];
  }

  /** On `[1, 2]` the as-written BubbleSorter.sort answers `[2, 1]`, which is not ascending. */
  lemma BubbleSorterSortUnsorted()
    ensures Reversed([1, 2]) == [2, 1]
    ensures !SortedBetween(Reversed([1, 2]), 0, 2)
  {
    assert [1, 2][..1] == [1];
    assert Reversed([1]) == [1];
  }

  /** Every element of [0, bound) is at most every element of [bound, |s|). */
  ghost predicate SplitAt(s: seq<int>, bound: int)
  {
    forall x, y :: 0 <= x < bound <= y < |s| ==> s[x] <= s[y]
  }

  /** `s[j]` is the largest of `s[..j + 1]`. */
  ghost predicate LargestAt(s: seq<int>, j: int)
  {
    0 <= j < |s| && forall k :: 0 <= k < j ==> s[k] <= s[j]
  }

  /**
   * A swap of two neighbours out of order below `bound` carries the largest
   * element one step on and keeps the sorted tail and its bound.
   */
  lemma BubbleSwapStep(s: seq<int>, j: int, bound: int)
    requires 0 <= j && j + 1 < bound <= |s|
    requires SortedBetween(s, bound, |s|) && SplitAt(s, bound) && LargestAt(s, j) && s[j] > s[j + 1]
    ensures multiset(Swap(s, j + 1, j)) == multiset(s)
    ensures SortedBetween(Swap(s, j + 1, j), bound, |s|) && SplitAt(Swap(s, j + 1, j), bound)
    ensures LargestAt(Swap(s, j + 1, j), j + 1)
  {
    var t := Swap(s, j + 1, j);
    SwapPermutes(s, j + 1, j);
    assert forall k :: 0 <= k < |s| && k != j && k != j + 1 ==> t[k] == s[k];
    assert t[j] == s[j + 1] && t[j + 1] == s[j];
  }

  /** A pass that carried the largest of `s[..m + 1]` to `m` extends the sorted tail down to `m`. */
  lemma PassSettles(s: seq<int>, m: int)
    requires 0 <= m < |s|
    requires LargestAt(s, m) && SortedBetween(s, m + 1, |s|) && SplitAt(s, m + 1)
    ensures SortedBetween(s, m, |s|) && SplitAt(s, m)
  {
  }

  /** One comparison of the corrected inner loop: neighbours out of order are swapped. */
  method BubbleStep(r: array<int>, j: int, bound: int)
    requires 0 <= j && j + 1 < bound <= r.Length
    requires SortedBetween(r[..], bound, r.Length) && SplitAt(r[..], bound) && LargestAt(r[..], j)
    modifies r
    ensures multiset(r[..]) == multiset(old(r[..]))
    ensures SortedBetween(r[..], bound, r.Length) && SplitAt(r[..], bound) && LargestAt(r[..], j + 1)
  {
    if r[j] > r[j + 1] {
      BubbleSwapStep(r[..], j, bound);
      SwapElements(r, j + 1, j);
    }
  }

  /**
   * One pass of the corrected BubbleSorter.sort over [0, bound): the largest
   * element there ends at `bound - 1`, so the sorted tail grows by one.
   */
  method BubblePass(r: array<int>, bound: int)
    requires 0 < bound <= r.Length
    requires SortedBetween(r[..], bound, r.Length) && SplitAt(r[..], bound)
    modifies r
    ensures multiset(r[..]) == multiset(old(r[..]))
    ensures SortedBetween(r[..], bound - 1, r.Length) && SplitAt(r[..], bound - 1)
  {
    var j := 0;
    while j < bound - 1
      invariant 0 <= j <= bound - 1
      invariant multiset(r[..]) == multiset(old(r[..]))
      invariant SortedBetween(r[..], bound, r.Length) && SplitAt(r[..], bound)
      invariant LargestAt(r[..], j)
    {
      BubbleStep(r, j, bound);
      j := j + 1;
    }
    PassSettles(r[..], bound - 1);
  }

  /**
   * BubbleSorter.sort as evidently intended: on a copy, each pass swaps
   * neighbours only when they are out of order, so the copy comes out
   * ascending and a permutation of the input.
   */
  method BubbleSort(a: array<int>) returns (r: array<int>)
    ensures fresh(r)
    ensures SortedBetween(r[..], 0, r.Length)
    ensures multiset(r[..]) == multiset(a[..])
  {
    r := Copy(a);
    var n := r.Length;
    var i := 0;
    while i < n
      invariant 0 <= i <= n == r.Length && fresh(r)
      invariant multiset(r[..]) == multiset(a[..])
      invariant SortedBetween(r[..], n - i, n) && SplitAt(r[..], n - i)
    {
      BubblePass(r, n - i);
      i := i + 1;
    }
  }

  // ---------------------------------------------------------------------------
  // DefaultSorter.shuffle
  // ---------------------------------------------------------------------------

  /**
   * The random draws of a shuffle of `n` elements: the k-th draw
   * `Math.floor(Math.random() * currentIndex)` lies in [0, n - k).
   */
  predicate ValidDraws(n: nat, draws: seq<int>)
  {
    |draws| == n && forall k :: 0 <= k < n ==> 0 <= draws[k] < n - k
  }

  /** The Fisher-Yates swaps still to be done while `current` elements remain unshuffled. */
  function ShuffleFrom(s: seq<int>, draws: seq<int>, current: nat): (r: seq<int>)
    requires current <= |s| && ValidDraws(|s|, draws)
    decreases current
  {
    if current == 0 then s
    else ShuffleFrom(Swap(s, current - 1, draws[|s| - current]), draws, current - 1)
  }

  /** The shuffle of `s` under the given draws. */
  function FisherYates(s: seq<int>, draws: seq<int>): seq<int>
    requires ValidDraws(|s|, draws)
  {
    ShuffleFrom(s, draws, |s|)
  }

  /** Whatever the draws, the shuffle is a permutation of its input. */
  lemma {:induction false} ShuffleFromPermutes(s: seq<int>, draws: seq<int>, current: nat)
    requires current <= |s| && ValidDraws(|s|, draws)
    ensures |ShuffleFrom(s, draws, current)| == |s|
    ensures multiset(ShuffleFrom(s, draws, current)) == multiset(s)
    decreases current
  {
    if current > 0 {
      SwapPermutes(s, current - 1, draws[|s| - current]);
      ShuffleFromPermutes(Swap(s, current - 1, draws[|s| - current]), draws, current - 1);
    }
  }

  /**
   * DefaultSorter.shuffle, with the random draws given as `draws`: shuffles
   * in place and returns the same array.
   */
  method Shuffle(a: array<int>, draws: seq<int>) returns (r: array<int>)
    requires ValidDraws(a.Length, draws)
    modifies a
    ensures r == a
    ensures a[..] == FisherYates(old(a[..]), draws)
    ensures multiset(a[..]) == multiset(old(a[..]))
  {
    var current := a.Length;
    while current != 0
      invariant 0 <= current <= a.Length
      invariant ShuffleFrom(a[..], draws, current) == FisherYates(old(a[..]), draws)
    {
      var randomIndex := draws[a.Length - current];
      current := current - 1;
      SwapElements(a, current, randomIndex);
    }
    ShuffleFromPermutes(old(a[..]), draws, a.Length);
    r := a;
  }
}
