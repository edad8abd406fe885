/** The in-place sort behind top-N queries: a quicksort that falls back to
    bubble sort on short ranges and beyond a depth limit (repos.c). */
module TopN {

  type Comparator<!T> = (T, T) -> int

  /** What the partition needs of the values in its range to stay inside it and to terminate.  It does
      not ask for transitivity, nor that `c(x, y) < 0` implies `c(y, x) > 0`. */
  ghost predicate SaneOn<T>(c: Comparator<T>, m: multiset<T>) {
    forall x, y {:trigger SaneAt(c, x, y)} :: x in m && y in m ==> SaneAt(c, x, y)
  }

  ghost predicate SaneAt<T>(c: Comparator<T>, x: T, y: T) {
    c(x, x) == 0 && (c(x, y) > 0 ==> c(y, x) < 0)
  }

  ghost predicate TotalAt<T>(c: Comparator<T>, x: T, y: T) {
    c(x, y) <= 0 || c(y, x) <= 0
  }

  ghost predicate TransitiveAt<T>(c: Comparator<T>, x: T, y: T, z: T) {
    c(x, y) <= 0 && c(y, z) <= 0 ==> c(x, z) <= 0
  }

  /** `c` is a total preorder on the values of `m`. */
  ghost predicate PreorderOn<T>(c: Comparator<T>, m: multiset<T>) {
    && (forall x, y {:trigger TotalAt(c, x, y)} :: x in m && y in m ==> TotalAt(c, x, y))
    && (forall x, y, z {:trigger TransitiveAt(c, x, y, z)} :: x in m && y in m && z in m ==> TransitiveAt(c, x, y, z))
  }

  ghost predicate Sorted<T>(c: Comparator<T>, s: seq<T>) {
    forall i, j :: 0 <= i < j < |s| ==> c(s[i], s[j]) <= 0
  }

  /** `t` rearranges positions `lo..hi` of `s` and leaves every other position alone. */
  ghost predicate Rearranges<T>(s: seq<T>, t: seq<T>, lo: int, hi: int) {
    && 0 <= lo <= hi <= |s| == |t|
    && s[..lo] == t[..lo]
    && s[hi..] == t[hi..]
    && multiset(s) == multiset(t)
  }

  lemma RangeMultiset<T>(s: seq<T>, t: seq<T>, lo: int, hi: int)
    requires Rearranges(s, t, lo, hi)
    ensures multiset(s[lo..hi]) == multiset(t[lo..hi])
  {
    ThreeParts(s, lo, hi);
    ThreeParts(t, lo, hi);
  }

  lemma ThreeParts<T>(s: seq<T>, lo: int, hi: int)
    requires 0 <= lo <= hi <= |s|
    ensures multiset(s[lo..hi]) == multiset(s) - multiset(s[..lo]) - multiset(s[hi..])
  {
    assert s == s[..lo] + s[lo..hi] + s[hi..];
  }

  lemma RearrangesWithin<T>(s: seq<T>, t: seq<T>, l: int, h: int, lo: int, hi: int)
    requires Rearranges(s, t, l, h) && 0 <= lo <= l && h <= hi <= |s|
    ensures Rearranges(s, t, lo, hi)
  {
    assert s[..lo] == s[..l][..lo] && t[..lo] == t[..l][..lo];
    assert s[hi..] == s[h..][hi - h..] && t[hi..] == t[h..][hi - h..];
  }

  lemma ForallRearranged<T>(s: seq<T>, t: seq<T>, lo: int, hi: int, p: T -> bool)
    requires Rearranges(s, t, lo, hi)
    requires forall k :: lo <= k < hi ==> p(s[k])
    ensures forall k :: lo <= k < hi ==> p(t[k])
  {
    RangeMultiset(s, t, lo, hi);
    forall k | lo <= k < hi ensures p(t[k]) {
      assert t[k] == t[lo..hi][k - lo];
      assert t[k] in multiset(s[lo..hi]);
      var i :| 0 <= i < hi - lo && s[lo..hi][i] == t[k];
      assert p(s[lo + i]);
    }
  }

  function Swapped<T>(s: seq<T>, i: int, j: int): seq<T>
    requires 0 <= i < |s| && 0 <= j < |s|
  {
    s[i := s[j]][j := s[i]]
  }

  lemma SwapRearranges<T>(was: seq<T>, s: seq<T>, lo: int, hi: int, i: int, j: int)
    requires Rearranges(was, s, lo, hi) && lo <= i < hi && lo <= j < hi
    ensures Rearranges(was, Swapped(s, i, j), lo, hi)
  {
    assert multiset(Swapped(s, i, j)) == multiset(s);
  }

  method Mswap<T>(a: array<T>, low: int, high: int)
    requires 0 <= low < a.Length && 0 <= high < a.Length
    modifies a
    ensures a[..] == Swapped(old(a[..]), low, high)
  {
    var temp := a[low];
    a[low] := a[high];
    a[high] := temp;
  }

  // ----- bubble sort -----

  /** The array after one sweep over positions `j..hi`, and whether the sweep swapped anything. */
  function Sweep<T>(c: Comparator<T>, s: seq<T>, j: int, hi: int): (r: (seq<T>, bool))
    requires 0 <= j <= hi < |s|
    ensures |r.0| == |s|
    decreases hi - j
  {
    if j == hi then (s, false)
    else if c(s[j], s[j + 1]) > 0 then (Sweep(c, Swapped(s, j, j + 1), j + 1, hi).0, true)
    else Sweep(c, s, j + 1, hi)
  }

  /** The array after the sweeps number `i - left` and following of a bubble sort of `left..right`. */
  function Bubbled<T>(c: Comparator<T>, s: seq<T>, left: int, i: int, right: int): seq<T>
    requires 0 <= left <= i && (i < right ==> right < |s|)
    decreases right - i
  {
    if i >= right then s
    else
      var (t, swaps) := Sweep(c, s, left, right + left - i);
      SweepRearranges(c, s, left, right + left - i);
      if swaps then Bubbled(c, t, left, i + 1, right) else t
  }

  lemma {:induction false} SweepRearranges<T>(c: Comparator<T>, s: seq<T>, j: int, hi: int)
    requires 0 <= j <= hi < |s|
    ensures Rearranges(s, Sweep(c, s, j, hi).0, j, hi + 1)
    ensures !Sweep(c, s, j, hi).1 ==> Sweep(c, s, j, hi).0 == s && forall k :: j <= k < hi ==> c(s[k], s[k + 1]) <= 0
    decreases hi - j
  {
    if j < hi {
      var u := if c(s[j], s[j + 1]) > 0 then Swapped(s, j, j + 1) else s;
      SweepRearranges(c, u, j + 1, hi);
      SwapRearranges(s, s, j, hi + 1, j, j + 1);
      RearrangesWithin(u, Sweep(c, u, j + 1, hi).0, j + 1, hi + 1, j, hi + 1);
    }
  }

  /** A sweep carries a maximum to its upper end. */
  lemma {:induction false} SweepMax<T>(c: Comparator<T>, s: seq<T>, left: int, j: int, hi: int, m: multiset<T>)
    requires 0 <= left <= j <= hi < |s|
    requires PreorderOn(c, m) && forall k :: left <= k <= hi ==> s[k] in m
    requires forall k :: left <= k <= j ==> c(s[k], s[j]) <= 0
    ensures forall k :: left <= k <= hi ==> c(Sweep(c, s, j, hi).0[k], Sweep(c, s, j, hi).0[hi]) <= 0
    decreases hi - j
  {
    if j < hi {
      var u := if c(s[j], s[j + 1]) > 0 then Swapped(s, j, j + 1) else s;
      forall k | left <= k <= j ensures c(u[k], u[j + 1]) <= 0 {
        assert TotalAt(c, s[j], s[j + 1]) && TransitiveAt(c, s[k], s[j], s[j + 1]);
      }
      assert TotalAt(c, u[j + 1], u[j + 1]);
      SweepMax(c, u, left, j + 1, hi, m);
    }
  }

  /** The positions above `hi` are sorted among themselves and dominate everything from `left` on. */
  ghost predicate Tail<T>(c: Comparator<T>, s: seq<T>, left: int, hi: int, right: int) {
    && 0 <= left <= right + 1 <= |s|
    && forall k, l :: left <= k < l <= right && hi < l ==> c(s[k], s[l]) <= 0
  }

  lemma TailGrows<T>(c: Comparator<T>, s: seq<T>, t: seq<T>, left: int, hi: int, right: int)
    requires 0 <= left <= hi <= right < |s|
    requires Tail(c, s, left, hi, right)
    requires Rearranges(s, t, left, hi + 1)
    requires forall k :: left <= k <= hi ==> c(t[k], t[hi]) <= 0
    ensures Tail(c, t, left, hi - 1, right)
  {
    assert forall k :: hi < k <= right ==> t[k] == t[hi + 1..][k - hi - 1] == s[hi + 1..][k - hi - 1] == s[k];
    forall k, l | left <= k < l <= right && hi - 1 < l ensures c(t[k], t[l]) <= 0 {
      if l > hi {
        ForallRearranged(s, t, left, hi + 1, x => c(x, s[l]) <= 0);
      }
    }
  }

  lemma {:induction false} AdjacentSorted<T>(c: Comparator<T>, s: seq<T>, left: int, hi: int, m: multiset<T>)
    requires 0 <= left <= hi < |s|
    requires PreorderOn(c, m) && forall k :: left <= k <= hi ==> s[k] in m
    requires forall k :: left <= k < hi ==> c(s[k], s[k + 1]) <= 0
    ensures forall k, l :: left <= k < l <= hi ==> c(s[k], s[l]) <= 0
  {
    if left < hi {
      AdjacentSorted(c, s, left, hi - 1, m);
      forall k | left <= k < hi ensures c(s[k], s[hi]) <= 0 {
        assert c(s[hi - 1], s[hi - 1 + 1]) <= 0;
        assert TransitiveAt(c, s[k], s[hi - 1], s[hi]);
      }
    }
  }

  ghost predicate Ready<T>(c: Comparator<T>, s: seq<T>, left: int, hi: int, right: int, m: multiset<T>) {
    Tail(c, s, left, hi, right) && PreorderOn(c, m) && forall k :: left <= k <= right ==> s[k] in m
  }

  lemma SweepReady<T>(c: Comparator<T>, s: seq<T>, left: int, hi: int, right: int, m: multiset<T>)
    requires 0 <= left <= hi <= right < |s| && Ready(c, s, left, hi, right, m)
    requires Rearranges(s, Sweep(c, s, left, hi).0, left, hi + 1)
    ensures Ready(c, Sweep(c, s, left, hi).0, left, hi - 1, right, m)
  {
    var t := Sweep(c, s, left, hi).0;
    RearrangesWithin(s, t, left, hi + 1, left, right + 1);
    ForallRearranged(s, t, left, right + 1, x => x in m);
    assert TotalAt(c, s[left], s[left]);
    SweepMax(c, s, left, left, hi, m);
    TailGrows(c, s, t, left, hi, right);
  }

  /** Bubble sort rearranges its range, and sorts it when the comparator is a preorder there. */
  lemma {:induction false} BubbledSorts<T>(c: Comparator<T>, s: seq<T>, left: int, i: int, right: int, m: multiset<T>)
    requires 0 <= left <= i && left <= right + 1 <= |s|
    ensures Rearranges(s, Bubbled(c, s, left, i, right), left, right + 1)
    ensures Ready(c, s, left, right + left - i, right, m) ==> Tail(c, Bubbled(c, s, left, i, right), left, left, right)
    decreases right - i
  {
    if i < right {
      var hi := right + left - i;
      var (t, swaps) := Sweep(c, s, left, hi);
      SweepRearranges(c, s, left, hi);
      RearrangesWithin(s, t, left, hi + 1, left, right + 1);
      if swaps {
        BubbledSorts(c, t, left, i + 1, right, m);
      }
      if Ready(c, s, left, hi, right, m) {
        if swaps {
          SweepReady(c, s, left, hi, right, m);
        } else {
          AdjacentSorted(c, s, left, hi, m);
        }
      }
    }
  }

  /** What every comparator, preorder or not, makes of two elements. */
  function PairSorted<T>(c: Comparator<T>, s: seq<T>, left: int): seq<T>
    requires 0 <= left && left + 1 < |s|
  {
    if c(s[left], s[left + 1]) > 0 then Swapped(s, left, left + 1) else s
  }

  ghost predicate PairResult<T>(c: Comparator<T>, s: seq<T>, t: seq<T>, left: int, right: int) {
    0 <= left && right == left + 1 < |s| ==> t == PairSorted(c, s, left)
  }

  lemma BubbledPair<T>(c: Comparator<T>, s: seq<T>, left: int)
    requires 0 <= left && left + 1 < |s|
    ensures Bubbled(c, s, left, left, left + 1) == PairSorted(c, s, left)
  {
    var u := Swapped(s, left, left + 1);
    assert Sweep(c, u, left + 1, left + 1) == (u, false) && Sweep(c, s, left + 1, left + 1) == (s, false);
    assert Sweep(c, s, left, left + 1) == if c(s[left], s[left + 1]) > 0 then (u, true) else (s, false);
    assert Bubbled(c, u, left, left + 1, left + 1) == u;
  }

  method Mbsort<T>(a: array<T>, left: int, right: int, c: Comparator<T>)
    requires 0 <= left <= right + 1 <= a.Length
    modifies a
    ensures a[..] == Bubbled(c, old(a[..]), left, left, right)
  {
    var i := left;
    while i < right
      invariant left <= i
      invariant Bubbled(c, old(a[..]), left, left, right) == Bubbled(c, a[..], left, i, right)
    {
      ghost var now := a[..];
      var swaps := false;
      var j := left;
      while j < right + left - i
        invariant left <= j <= right + left - i
        invariant Sweep(c, now, left, right + left - i)
          == (Sweep(c, a[..], j, right + left - i).0, swaps || Sweep(c, a[..], j, right + left - i).1)
      {
        if c(a[j], a[j + 1]) > 0 {
          Mswap(a, j, j + 1);
          swaps := true;
        }
        j := j + 1;
      }
      if !swaps {
        break;
      }
      i := i + 1;
    }
  }

  // ----- quicksort -----

  /** Where the low scan stops; at the end of the array if nothing in it stops the scan. */
  function LowStop<T>(c: Comparator<T>, s: seq<T>, from: nat, pivot: nat): (l: nat)
    requires from <= |s| && pivot < |s|
    ensures from <= l <= |s| && (l < |s| ==> c(s[l], s[pivot]) >= 0)
    ensures forall k :: from <= k < l ==> c(s[k], s[pivot]) < 0
    decreases |s| - from
  {
    if from == |s| || c(s[from], s[pivot]) >= 0 then from else LowStop(c, s, from + 1, pivot)
  }

  /** Where the high scan stops. */
  function HighStop<T>(c: Comparator<T>, s: seq<T>, left: nat, from: int, pivot: nat): (h: int)
    requires left - 1 <= from < |s| && pivot < |s|
    ensures left - 1 <= h <= from && (left <= h ==> c(s[pivot], s[h]) > 0)
    ensures forall k :: h < k <= from ==> c(s[pivot], s[k]) <= 0
    decreases from
  {
    if from < left || c(s[pivot], s[from]) > 0 then from else HighStop(c, s, left, from - 1, pivot)
  }

  /** The partition loop ends within `n` exchanges, and its low scan does not leave the array. */
  ghost predicate Finishes<T>(c: Comparator<T>, s: seq<T>, left: nat, low: nat, high: int, right: nat, n: nat)
    requires low <= |s| && left - 1 <= high < |s| && right < |s|
    decreases n
  {
    var l, h := LowStop(c, s, low, right), HighStop(c, s, left, high, right);
    l < |s| && (l < h ==> n > 0 && Finishes(c, Swapped(s, l, h), left, l, h, right, n - 1))
  }

  /** On a sane range it does both. */
  lemma {:induction false} SaneFinishes<T>(c: Comparator<T>, was: seq<T>, s: seq<T>, left: nat, low: nat, high: int,
                                           right: nat, m: multiset<T>)
    returns (n: nat)
    requires SaneOn(c, m) && Within(was, left, right, m) && Partitioning(c, was, s, left, low, high, right)
    ensures Finishes(c, s, left, low, high, right, n)
    decreases high - low, c(s[low], s[right]) >= 0
  {
    SanePivot(c, m, was, s, left, right);
    var l, h := LowStop(c, s, low, right), HighStop(c, s, left, high, right);
    assert l <= right;
    PartitioningRound(c, was, s, left, low, high, right, l, h);
    n := 0;
    if l < h {
      n := SaneFinishes(c, was, Swapped(s, l, h), left, l, h, right, m);
      n := n + 1;
    }
  }

  /** A sort of the whole of `s` that begins with a partition gets through it. */
  ghost predicate GetsThrough<T>(c: Comparator<T>, s: seq<T>) {
    |s| <= 10 || exists n: nat :: PartitionedBy(c, s, n)
  }

  ghost predicate PartitionedBy<T>(c: Comparator<T>, s: seq<T>, n: nat)
    requires |s| > 10
  {
    Finishes(c, s, 0, 0, |s| - 2, |s| - 1, n)
  }

  lemma SaneGetsThrough<T>(c: Comparator<T>, s: seq<T>)
    requires SaneOn(c, multiset(s))
    ensures GetsThrough(c, s)
  {
    if |s| > 10 {
      var n := SaneFinishes(c, s, s, 0, 0, |s| - 2, |s| - 1, multiset(s));
      assert PartitionedBy(c, s, n);
    }
  }

  method ScanLow<T>(a: array<T>, from: int, pivot: int, c: Comparator<T>) returns (low: int)
    requires 0 <= from <= pivot < a.Length && c(a[pivot], a[pivot]) == 0
    ensures from <= low <= pivot && c(a[low], a[pivot]) >= 0
    ensures forall k :: from <= k < low ==> c(a[k], a[pivot]) < 0
  {
    low := from;
    while c(a[low], a[pivot]) < 0
      invariant from <= low <= pivot
      invariant forall k :: from <= k < low ==> c(a[k], a[pivot]) < 0
      decreases pivot - low
    {
      low := low + 1;
    }
  }

  method ScanHigh<T>(a: array<T>, left: int, from: int, pivot: int, c: Comparator<T>) returns (high: int)
    requires 0 <= left <= from + 1 <= pivot < a.Length
    ensures left - 1 <= high <= from && (left <= high ==> c(a[pivot], a[high]) > 0)
    ensures forall k :: high < k <= from ==> c(a[pivot], a[k]) <= 0
  {
    high := from;
    while left <= high && c(a[pivot], a[high]) <= 0
      invariant left - 1 <= high <= from
      invariant forall k :: high < k <= from ==> c(a[pivot], a[k]) <= 0
    {
      high := high - 1;
    }
  }

  /** The partition loop's invariant: `s` rearranges `was`, the pivot is still at `right`, values
      before `low` are smaller and values above `high` are not smaller. */
  ghost predicate Partitioning<T>(c: Comparator<T>, was: seq<T>, s: seq<T>, left: int, low: int, high: int,
                                  right: int) {
    && left <= low <= right && left - 1 <= high < right
    && Rearranges(was, s, left, right + 1)
    && s[right] == was[right]
    && (forall k :: left <= k < low ==> c(s[k], s[right]) < 0)
    && (forall k :: high < k < right ==> c(s[right], s[k]) <= 0)
  }

  /** The values at positions `left..right` are among those of `m`. */
  ghost predicate Within<T>(s: seq<T>, left: int, right: int, m: multiset<T>) {
    0 <= left <= right + 1 <= |s| && forall k :: left <= k <= right ==> s[k] in m
  }

  /** What sanity means for the comparisons with the pivot, which are all that the partition makes. */
  ghost predicate PivotSane<T>(c: Comparator<T>, s: seq<T>, left: int, right: int) {
    && 0 <= left <= right < |s| && c(s[right], s[right]) == 0
    && forall k :: left <= k < right && c(s[right], s[k]) > 0 ==> c(s[k], s[right]) < 0
  }

  lemma SanePivot<T>(c: Comparator<T>, m: multiset<T>, was: seq<T>, s: seq<T>, left: int, right: int)
    requires left <= right && SaneOn(c, m) && Within(was, left, right, m) && Rearranges(was, s, left, right + 1)
    ensures PivotSane(c, s, left, right)
  {
    ForallRearranged(was, s, left, right + 1, x => x in m);
    assert forall k :: left <= k <= right ==> SaneAt(c, s[right], s[k]);
  }

  /** After a partition, and after sorting what precedes the pivot, the values are still among those of `m`. */
  lemma StillWithin<T>(s0: seq<T>, s1: seq<T>, left: int, low: int, right: int, m: multiset<T>)
    requires left <= low <= right && Within(s0, left, right, m) && Rearranges(s0, s1, left, right + 1)
    ensures Within(s1, left, low - 1, m) && Within(s1, low + 1, right, m)
  {
    ForallRearranged(s0, s1, left, right + 1, x => x in m);
  }

  lemma UpperWithin<T>(s1: seq<T>, s2: seq<T>, left: int, low: int, right: int, m: multiset<T>)
    requires left <= low <= right && Within(s1, low + 1, right, m) && Rearranges(s1, s2, left, low)
    ensures Within(s2, low + 1, right, m)
  {
    assert forall k :: low < k <= right ==> s2[k] == s2[low..][k - low] == s1[low..][k - low] == s1[k];
  }

  /** One round of the loop: both scans, then the exchange if they have not met. */
  lemma PartitioningRound<T>(c: Comparator<T>, was: seq<T>, s: seq<T>, left: int, low: int, high: int, right: int,
                             l: int, h: int)
    requires Partitioning(c, was, s, left, low, high, right) && PivotSane(c, s, left, right)
    requires low <= l <= right && left - 1 <= h <= high
    requires forall k :: low <= k < l ==> c(s[k], s[right]) < 0
    requires forall k :: h < k <= high ==> c(s[right], s[k]) <= 0
    requires c(s[l], s[right]) >= 0 && (left <= h ==> c(s[right], s[h]) > 0)
    ensures l != h && Partitioning(c, was, s, left, l, h, right)
    ensures l < h ==> Partitioning(c, was, Swapped(s, l, h), left, l, h, right) && c(s[h], s[right]) < 0
  {
    if l < h {
      SwapRearranges(was, s, left, right + 1, l, h);
    }
  }

  lemma PartitioningEnds<T>(c: Comparator<T>, was: seq<T>, s: seq<T>, left: int, low: int, high: int, right: int)
    requires Partitioning(c, was, s, left, low, high, right) && high < low
    ensures Rearranges(was, Swapped(s, low, right), left, right + 1)
    ensures Split(c, Swapped(s, low, right), left, low, right)
  {
    SwapRearranges(was, s, left, right + 1, low, right);
  }

  /** Both scans, and the exchange of what stopped them if they have not met.  After an exchange the next scan moves
      on. */
  method PartitionRound<T>(a: array<T>, left: int, low0: int, high0: int, pivot: int, c: Comparator<T>,
                           ghost was: seq<T>, ghost m: multiset<T>)
    returns (low: int, high: int)
    requires 0 <= left && pivot < a.Length && Partitioning(c, was, a[..], left, low0, high0, pivot)
    requires SaneOn(c, m) && Within(was, left, pivot, m)
    modifies a
    ensures Partitioning(c, was, a[..], left, low, high, pivot) && low != high && low0 <= low && high <= high0
    ensures low < high ==> c(a[low], a[pivot]) < 0
    ensures low == low0 && high == high0 && low < high ==> !(old(c(a[low0], a[pivot])) < 0)
  {
    SanePivot(c, m, was, a[..], left, pivot);
    low := ScanLow(a, low0, pivot, c);
    high := ScanHigh(a, left, high0, pivot, c);
    PartitioningRound(c, was, a[..], left, low0, high0, pivot, low, high);
    if low < high {
      Mswap(a, low, high);
    }
  }

  /** The partition step.  Everything it promises is a comparison with the pivot, so it
      holds for every sane comparator, transitive or not. */
  method Partition<T>(a: array<T>, left: int, right: int, c: Comparator<T>, ghost m: multiset<T>) returns (low: int)
    requires 0 <= left <= right < a.Length
    requires SaneOn(c, m) && Within(a[..], left, right, m)
    modifies a
    ensures Rearranges(old(a[..]), a[..], left, right + 1)
    ensures Split(c, a[..], left, low, right)
    ensures a[low] == old(a[right])
  {
    ghost var was := a[..];
    var pivot := right;
    low := left;
    var high := pivot - 1;
    while true
      invariant Partitioning(c, was, a[..], left, low, high, right)
      decreases high - low, c(a[low], a[right]) >= 0
    {
      low, high := PartitionRound(a, left, low, high, pivot, c, was, m);
      if !(low < high) {
        break;
      }
    }
    PartitioningEnds(c, was, a[..], left, low, high, right);
    Mswap(a, low, pivot);
  }

  method MqsortRec<T>(a: array<T>, left: int, right: int, c: Comparator<T>, depth: int, maxdepth: int,
                      ghost m: multiset<T>)
    requires Within(a[..], left, right, m) && (right - left >= 10 ==> SaneOn(c, m))
    modifies a
    decreases right - left + 1, 1
    ensures Sorts(c, old(a[..]), a[..], left, right)
    ensures PairResult(c, old(a[..]), a[..], left, right)
  {
    ghost var s0 := a[..];
    if depth == maxdepth || right - left < 10 {
      Mbsort(a, left, right, c);
      BubbleSortSorts(c, s0, left, right);
      if right == left + 1 {
        BubbledPair(c, s0, left);
      }
      return;
    }
    var low := Partition(a, left, right, c, m);
    ghost var s1 := a[..];
    StillWithin(s0, s1, left, low, right, m);
    ghost var s2 := SortSides(a, left, low, right, c, depth, maxdepth, m);
    QuickSorts(c, s0, s1, s2, a[..], left, low, right);
  }

  /** The two recursive calls, on either side of the pivot. */
  method SortSides<T>(a: array<T>, left: int, low: int, right: int, c: Comparator<T>, depth: int, maxdepth: int,
                      ghost m: multiset<T>)
    returns (ghost mid: seq<T>)
    requires left <= low <= right && SaneOn(c, m)
    requires Within(a[..], left, low - 1, m) && Within(a[..], low + 1, right, m)
    modifies a
    decreases right - left + 1, 0
    ensures Sorts(c, old(a[..]), mid, left, low - 1) && Sorts(c, mid, a[..], low + 1, right)
  {
    ghost var s1 := a[..];
    MqsortRec(a, left, low - 1, c, depth + 1, maxdepth, m);
    mid := a[..];
    assert Rearranges(s1, mid, left, low);
    assert Within(mid, low + 1, right, m) by {
      UpperWithin(s1, mid, left, low, right, m);
    }
    MqsortRec(a, low + 1, right, c, depth + 1, maxdepth, m);
  }

  /** `t` is what sorting positions `left..right` of `s` should give. */
  ghost predicate Sorts<T>(c: Comparator<T>, s: seq<T>, t: seq<T>, left: int, right: int) {
    && Rearranges(s, t, left, right + 1)
    && (PreorderOn(c, multiset(s[left..right + 1])) ==> Sorted(c, t[left..right + 1]))
  }

  lemma BubbleSortSorts<T>(c: Comparator<T>, s: seq<T>, left: int, right: int)
    requires 0 <= left <= right + 1 <= |s|
    ensures Sorts(c, s, Bubbled(c, s, left, left, right), left, right)
  {
    var m := multiset(s[left..right + 1]);
    BubbledSorts(c, s, left, left, right, m);
    assert forall k :: left <= k <= right ==> s[k] == s[left..right + 1][k - left] && s[k] in m;
  }

  lemma QuickRearranges<T>(s0: seq<T>, s1: seq<T>, s2: seq<T>, s3: seq<T>, left: int, low: int, right: int)
    requires left <= low <= right && Rearranges(s0, s1, left, right + 1)
    requires Rearranges(s1, s2, left, low) && Rearranges(s2, s3, low + 1, right + 1)
    ensures Rearranges(s0, s2, left, right + 1) && Rearranges(s0, s3, left, right + 1)
  {
    RearrangesWithin(s1, s2, left, low, left, right + 1);
    RearrangesWithin(s2, s3, low + 1, right + 1, left, right + 1);
  }

  /** Sorting both sides of a split sorts the whole range. */
  lemma QuickSorts<T>(c: Comparator<T>, s0: seq<T>, s1: seq<T>, s2: seq<T>, s3: seq<T>, left: int, low: int, right: int)
    requires Rearranges(s0, s1, left, right + 1) && Split(c, s1, left, low, right)
    requires Sorts(c, s1, s2, left, low - 1)
    requires Sorts(c, s2, s3, low + 1, right)
    ensures Sorts(c, s0, s3, left, right)
  {
    QuickRearranges(s0, s1, s2, s3, left, low, right);
    if PreorderOn(c, multiset(s0[left..right + 1])) {
      AfterLeft(c, s1, s2, left, low, right);
      AfterRight(c, s2, s3, left, low, right);
      Across(c, s0, s3, left, low, right);
      LowerPart(c, s0, s1, s2, s3, left, low, right);
      PartSorted(c, s0, s2, s3, left, right, low + 1, right);
      Stitch(c, s3, left, low, right);
    }
  }

  lemma LowerPart<T>(c: Comparator<T>, s0: seq<T>, s1: seq<T>, s2: seq<T>, s3: seq<T>, left: int, low: int, right: int)
    requires left <= low <= right && Rearranges(s0, s1, left, right + 1)
    requires PreorderOn(c, multiset(s0[left..right + 1]))
    requires Sorts(c, s1, s2, left, low - 1) && Rearranges(s2, s3, low + 1, right + 1)
    ensures Sorted(c, s3[left..low])
  {
    PartSorted(c, s0, s1, s2, left, right, left, low - 1);
    assert s3[left..low] == s2[left..low] by {
      assert s3[..low + 1][left..low] == s2[..low + 1][left..low];
    }
  }

  lemma PartSorted<T>(c: Comparator<T>, s0: seq<T>, s: seq<T>, t: seq<T>, left: int, right: int, l: int, r: int)
    requires left <= l <= r + 1 <= right + 1
    requires Rearranges(s0, s, left, right + 1) && PreorderOn(c, multiset(s0[left..right + 1]))
    requires Sorts(c, s, t, l, r)
    ensures Sorted(c, t[l..r + 1])
  {
    PreorderRange(c, s0, s, left, right, l, r);
  }

  lemma PreorderRange<T>(c: Comparator<T>, s0: seq<T>, s: seq<T>, left: int, right: int, l: int, r: int)
    requires left <= l <= r + 1 <= right + 1
    requires Rearranges(s0, s, left, right + 1) && PreorderOn(c, multiset(s0[left..right + 1]))
    ensures PreorderOn(c, multiset(s[l..r + 1]))
  {
    RangeMultiset(s0, s, left, right + 1);
    PreorderBelow(c, s, left, right, l, r);
  }

  lemma PreorderBelow<T>(c: Comparator<T>, s: seq<T>, left: int, right: int, l: int, r: int)
    requires 0 <= left <= l <= r + 1 <= right + 1 <= |s|
    requires PreorderOn(c, multiset(s[left..right + 1]))
    ensures PreorderOn(c, multiset(s[l..r + 1]))
  {
    assert s[left..right + 1] == s[left..l] + s[l..r + 1] + s[r + 1..right + 1];
    assert multiset(s[l..r + 1]) <= multiset(s[left..right + 1]);
  }

  /** `low` splits `s[left..right + 1]`: smaller values before it, values not smaller after it. */
  ghost predicate Split<T>(c: Comparator<T>, s: seq<T>, left: int, low: int, right: int) {
    && 0 <= left <= low <= right < |s|
    && (forall k :: left <= k < low ==> c(s[k], s[low]) < 0)
    && (forall k :: low < k <= right ==> c(s[low], s[k]) <= 0)
  }

  lemma AfterLeft<T>(c: Comparator<T>, s: seq<T>, t: seq<T>, left: int, low: int, right: int)
    requires Split(c, s, left, low, right) && Rearranges(s, t, left, low)
    ensures Split(c, t, left, low, right)
  {
    assert forall k :: low <= k < |s| ==> t[k] == t[low..][k - low] == s[low..][k - low] == s[k];
    ForallRearranged(s, t, left, low, x => c(x, s[low]) < 0);
  }

  lemma AfterRight<T>(c: Comparator<T>, s: seq<T>, t: seq<T>, left: int, low: int, right: int)
    requires Split(c, s, left, low, right) && Rearranges(s, t, low + 1, right + 1)
    ensures Split(c, t, left, low, right)
  {
    assert forall k :: 0 <= k <= low ==> t[k] == t[..low + 1][k] == s[..low + 1][k] == s[k];
    ForallRearranged(s, t, low + 1, right + 1, x => c(s[low], x) <= 0);
  }

  lemma Across<T>(c: Comparator<T>, was: seq<T>, s: seq<T>, left: int, low: int, right: int)
    requires Rearranges(was, s, left, right + 1) && Split(c, s, left, low, right)
    requires PreorderOn(c, multiset(was[left..right + 1]))
    ensures forall i, j :: left <= i < low < j <= right ==> c(s[i], s[j]) <= 0
  {
    RangeMultiset(was, s, left, right + 1);
    var m := multiset(was[left..right + 1]);
    assert forall k :: left <= k <= right ==> s[k] == s[left..right + 1][k - left] && s[k] in m;
    forall i, j | left <= i < low < j <= right ensures c(s[i], s[j]) <= 0 {
      assert TransitiveAt(c, s[i], s[low], s[j]);
    }
  }

  /** Two sorted parts around a pivot are one sorted range. */
  lemma Stitch<T>(c: Comparator<T>, s: seq<T>, left: int, low: int, right: int)
    requires Split(c, s, left, low, right)
    requires forall i, j :: left <= i < low < j <= right ==> c(s[i], s[j]) <= 0
    requires Sorted(c, s[left..low]) && Sorted(c, s[low + 1..right + 1])
    ensures Sorted(c, s[left..right + 1])
  {
    var r := s[left..right + 1];
    forall i, j | 0 <= i < j < |r| ensures c(r[i], r[j]) <= 0 {
      if left + j < low {
        assert r[i] == s[left..low][i] && r[j] == s[left..low][j];
      } else if left + i > low {
        assert r[i] == s[low + 1..right + 1][left + i - low - 1];
        assert r[j] == s[low + 1..right + 1][left + j - low - 1];
      }
    }
  }

  /** What a sort promises of a whole array. */
  ghost predicate MqsortResult<T>(c: Comparator<T>, s: seq<T>, t: seq<T>) {
    s != [] && Sorts(c, s, t, 0, |s| - 1) && (|s| == 2 ==> t == PairSorted(c, s, 0))
  }

  /** Sorts `a[left..right + 1]`; the depth limit is the bit length of `right - left`. */
  method Mqsort<T(==)>(a: array<T>, left: int, right: int, c: Comparator<T>)
    requires 0 <= left <= right < a.Length
    requires right - left >= 10 ==> SaneOn(c, multiset(a[left..right + 1]))
    modifies a
    ensures Sorts(c, old(a[..]), a[..], left, right)
    ensures right == left + 1 ==> a[..] == PairSorted(c, old(a[..]), left)
    ensures left == 0 && right == a.Length - 1 ==> MqsortResult(c, old(a[..]), a[..])
  {
    var num := right - left;
    var maxdepth := 0;
    while num != 0
      invariant num >= 0
    {
      num := num / 2;
      maxdepth := maxdepth + 1;
    }
    ghost var r := a[left..right + 1];
    assert forall k :: left <= k <= right ==> a[k] == r[k - left];
    ghost var s := a[..];
    MqsortRec(a, left, right, c, 0, maxdepth, multiset(r));
    WholeSorted(c, s, a[..], left, right);
  }

  lemma WholeSorted<T>(c: Comparator<T>, s: seq<T>, t: seq<T>, left: int, right: int)
    requires Sorts(c, s, t, left, right) && PairResult(c, s, t, left, right) && left <= right
    ensures left == 0 && right == |s| - 1 ==> MqsortResult(c, s, t)
  {
  }
}
