/** quickSort of lc/bubbleSort.cpp (lines 56-83): in place, with the key held outside the array while
    a hole travels between the two ends. */
module QuickSort {

  predicate Sorted(s: seq<int>) { forall i, j :: 0 <= i < j < |s| ==> s[i] <= s[j] }

  predicate AllLe(s: seq<int>, key: int) { forall i :: 0 <= i < |s| ==> s[i] <= key }

  predicate AllGe(s: seq<int>, key: int) { forall i :: 0 <= i < |s| ==> s[i] >= key }

  /** A permutation of values bounded by the key is bounded by the key. */
  lemma PermutationBounds(s: seq<int>, t: seq<int>, key: int)
    requires multiset(s) == multiset(t)
    ensures AllLe(s, key) ==> AllLe(t, key)
    ensures AllGe(s, key) ==> AllGe(t, key)
  {
    forall i | 0 <= i < |t|
      ensures t[i] in s
    {
      assert t[i] in multiset(t);
    }
  }

  /** Moving the hole from `h` to `j` (the value at `j` fills it) changes nothing when the hole counts as the key. */
  lemma HoleMoves(s: seq<int>, h: nat, j: nat, key: int)
    requires h < |s| && j < |s|
    ensures multiset(s[h := s[j]][j := key]) == multiset(s[h := key])
  {
  }

  /** Sorted parts around a key that separates them are a sorted whole. */
  lemma SortedAround(l: seq<int>, key: int, r: seq<int>)
    requires Sorted(l) && Sorted(r) && AllLe(l, key) && AllGe(r, key)
    ensures Sorted(l + [key] + r)
  {
  }

  lemma SortedHead(s: seq<int>, t: seq<int>)
    requires Sorted(s) && s != [] && t != [] && multiset(s) == multiset(t)
    ensures s[0] <= t[0]
  {
    assert t[0] in multiset(s);
    var i :| 0 <= i < |s| && s[i] == t[0];
  }

  lemma TailMultiset(s: seq<int>)
    requires s != []
    ensures multiset(s[1..]) == multiset(s) - multiset{s[0]}
  {
    assert s == [s[0]] + s[1..];
  }

  /** Sorting is determined: a sorted permutation is unique. */
  lemma {:induction false} SortedUnique(s: seq<int>, t: seq<int>)
    requires Sorted(s) && Sorted(t) && multiset(s) == multiset(t)
    ensures s == t
  {
    assert |s| == |multiset(s)| && |t| == |multiset(t)|;
    if s != [] {
      SortedHead(s, t);
      SortedHead(t, s);
      TailMultiset(s);
      TailMultiset(t);
      SortedUnique(s[1..], t[1..]);
    }
  }

  /** During partition: what is left of `low` is at most the key, what is right of `high` at least, and
      with the key put into the hole the range is a permutation of what it was. */
  ghost predicate Partitioning(s: seq<int>, t: seq<int>, begin: int, end: int, low: int, high: int, hole: int, key: int) {
    && |t| == |s| && 0 <= begin <= low <= high <= end < |s| && begin <= hole <= end
    && (forall k :: begin <= k < low ==> t[k] <= key)
    && (forall k :: high < k <= end ==> t[k] >= key)
    && multiset(t[begin..end + 1][hole - begin := key]) == multiset(s[begin..end + 1])
    && t[..begin] == s[..begin] && t[end + 1..] == s[end + 1..]
  }

  /** The range is split by the element at `low`, and is a permutation of what it was. */
  ghost predicate Partitioned(s: seq<int>, t: seq<int>, begin: int, end: int, low: int) {
    && |t| == |s| && 0 <= begin <= low <= end < |s|
    && AllLe(t[begin..low], t[low]) && AllGe(t[low + 1..end + 1], t[low])
    && multiset(t[begin..end + 1]) == multiset(s[begin..end + 1])
    && t[..begin] == s[..begin] && t[end + 1..] == s[end + 1..]
  }

  lemma PartitionStarts(s: seq<int>, begin: int, end: int)
    requires 0 <= begin <= end < |s|
    ensures Partitioning(s, s, begin, end, begin, end, begin, s[begin])
  {
    assert s[begin..end + 1][0 := s[begin]] == s[begin..end + 1];
  }

  lemma PartitionEnds(s: seq<int>, t: seq<int>, begin: int, end: int, low: int, key: int)
    requires Partitioning(s, t, begin, end, low, low, low, key)
    ensures Partitioned(s, t[low := key], begin, end, low)
  {
    var u := t[low := key];
    SliceUpdate(t, begin, end + 1, low, key);
    assert u[begin..low] == t[begin..low] && u[low + 1..end + 1] == t[low + 1..end + 1];
  }

  lemma SliceUpdate(t: seq<int>, begin: int, end: int, i: int, x: int)
    requires 0 <= begin <= i < end <= |t|
    ensures t[i := x][begin..end] == t[begin..end][i - begin := x]
    ensures t[i := x][..begin] == t[..begin] && t[i := x][end..] == t[end..]
  {
  }

  lemma FillRange(t: seq<int>, begin: int, end: int, hole: int, from: int, key: int)
    requires 0 <= begin <= hole <= end < |t| && begin <= from <= end
    ensures var u := t[hole := t[from]];
      && multiset(u[begin..end + 1][from - begin := key]) == multiset(t[begin..end + 1][hole - begin := key])
      && u[..begin] == t[..begin] && u[end + 1..] == t[end + 1..]
  {
    SliceUpdate(t, begin, end + 1, hole, t[from]);
    HoleMoves(t[begin..end + 1], hole - begin, from - begin, key);
  }

  lemma FillLow(s: seq<int>, t: seq<int>, begin: int, end: int, low: int, high: int, key: int)
    requires Partitioning(s, t, begin, end, low, high, low, key) && low < high && t[high] <= key
    ensures Partitioning(s, t[low := t[high]], begin, end, low + 1, high, high, key)
  {
    FillRange(t, begin, end, low, high, key);
  }

  lemma FillHigh(s: seq<int>, t: seq<int>, begin: int, end: int, low: int, high: int, key: int)
    requires Partitioning(s, t, begin, end, low, high, high, key) && low < high && t[low] >= key
    ensures Partitioning(s, t[high := t[low]], begin, end, low, high - 1, low, key)
  {
    FillRange(t, begin, end, high, low, key);
  }

  lemma SkipHigh(s: seq<int>, t: seq<int>, begin: int, end: int, low: int, high0: int, high: int, hole: int, key: int)
    requires Partitioning(s, t, begin, end, low, high0, hole, key) && low <= high <= high0
    requires forall k :: high < k <= high0 ==> t[k] >= key
    ensures Partitioning(s, t, begin, end, low, high, hole, key)
  {
  }

  lemma SkipLow(s: seq<int>, t: seq<int>, begin: int, end: int, low0: int, low: int, high: int, hole: int, key: int)
    requires Partitioning(s, t, begin, end, low0, high, hole, key) && low0 <= low <= high
    requires forall k :: low0 <= k < low ==> t[k] <= key
    ensures Partitioning(s, t, begin, end, low, high, hole, key)
  {
  }

  method Assign(a: array<int>, to: nat, from: nat)
    requires to < a.Length && from < a.Length
    modifies a
    ensures a[..] == old(a[..])[to := old(a[..])[from]]
  {
    a[to] := a[from];
  }

  /** Lines 64-69: the hole is at `low0` before and at `high` after. */
  method FillFromRight(a: array<int>, low0: nat, high0: nat, key: int, ghost s: seq<int>, ghost begin: int, ghost end: int)
    returns (low: nat, high: nat)
    requires Partitioning(s, a[..], begin, end, low0, high0, low0, key)
    modifies a
    ensures Partitioning(s, a[..], begin, end, low, high, high, key)
    ensures low0 <= low && high <= high0 && (low0 < high0 ==> high - low < high0 - low0)
  {
    low := low0;
    high := ScanFromRight(a, low, high0, key, s, begin, end);
    if low < high {
      MoveToLow(a, low, high, key, s, begin, end);
      low := low + 1;
    }
  }

  /** The scan keeps the picture. */
  method ScanFromRight(a: array<int>, low: nat, high0: nat, key: int, ghost s: seq<int>, ghost begin: int, ghost end: int)
    returns (high: nat)
    requires Partitioning(s, a[..], begin, end, low, high0, low, key)
    ensures Partitioning(s, a[..], begin, end, low, high, low, key)
    ensures low <= high <= high0 < a.Length && (low < high ==> a[high] < key)
  {
    high := FromRight(a, low, high0, key);
    SkipHigh(s, a[..], begin, end, low, high0, high, low, key);
  }

  /** Line 68. */
  method MoveToLow(a: array<int>, low: nat, high: nat, key: int, ghost s: seq<int>, ghost begin: int, ghost end: int)
    requires Partitioning(s, a[..], begin, end, low, high, low, key) && low < high && a[high] <= key
    modifies a
    ensures Partitioning(s, a[..], begin, end, low + 1, high, high, key)
  {
    FillLow(s, a[..], begin, end, low, high, key);
    Assign(a, low, high);
  }

  /** Lines 70-76: the hole is at `high0` before and at `low` after. */
  method FillFromLeft(a: array<int>, low0: nat, high0: nat, key: int, ghost s: seq<int>, ghost begin: int, ghost end: int)
    returns (low: nat, high: nat)
    requires Partitioning(s, a[..], begin, end, low0, high0, high0, key)
    modifies a
    ensures Partitioning(s, a[..], begin, end, low, high, low, key)
    ensures low0 <= low && high <= high0
  {
    high := high0;
    low := ScanFromLeft(a, low0, high, key, s, begin, end);
    if low < high {
      MoveToHigh(a, low, high, key, s, begin, end);
      high := high - 1;
    }
  }

  method ScanFromLeft(a: array<int>, low0: nat, high: nat, key: int, ghost s: seq<int>, ghost begin: int, ghost end: int)
    returns (low: nat)
    requires Partitioning(s, a[..], begin, end, low0, high, high, key)
    ensures Partitioning(s, a[..], begin, end, low, high, high, key)
    ensures low0 <= low <= high < a.Length && (low < high ==> a[low] > key)
  {
    low := FromLeft(a, low0, high, key);
    SkipLow(s, a[..], begin, end, low0, low, high, high, key);
  }

  /** Line 75. */
  method MoveToHigh(a: array<int>, low: nat, high: nat, key: int, ghost s: seq<int>, ghost begin: int, ghost end: int)
    requires Partitioning(s, a[..], begin, end, low, high, high, key) && low < high && a[low] >= key
    modifies a
    ensures Partitioning(s, a[..], begin, end, low, high - 1, low, key)
  {
    FillHigh(s, a[..], begin, end, low, high, key);
    Assign(a, high, low);
  }

  /** Lines 59-80 on a[begin..end], both inclusive. */
  method Partition(a: array<int>, begin: nat, end: nat) returns (low: nat)
    requires begin < end < a.Length
    modifies a
    ensures Partitioned(old(a[..]), a[..], begin, end, low)
  {
    low := begin;
    var high := end;
    var key := a[low];
    ghost var s := a[..];
    PartitionStarts(s, begin, end);
    while low < high
      invariant Partitioning(s, a[..], begin, end, low, high, low, key)
      decreases high - low
    {
      low, high := FillFromRight(a, low, high, key, s, begin, end);
      low, high := FillFromLeft(a, low, high, key, s, begin, end);
    }
    PartitionEnds(s, a[..], begin, end, low, key);
    ghost var t := a[..];
    a[low] := key;
    assert a[..] == t[low := key];
  }

  /** Lines 64-66. */
  method FromRight(a: array<int>, low: nat, high0: nat, key: int) returns (high: nat)
    requires low <= high0 < a.Length
    ensures low <= high <= high0
    ensures forall k :: high < k <= high0 ==> a[k] >= key
    ensures low < high ==> a[high] < key
  {
    high := high0;
    while low < high && a[high] >= key
      invariant low <= high <= high0
      invariant forall k :: high < k <= high0 ==> a[k] >= key
    {
      high := high - 1;
    }
  }

  /** Lines 70-73. */
  method FromLeft(a: array<int>, low0: nat, high: nat, key: int) returns (low: nat)
    requires low0 <= high < a.Length
    ensures low0 <= low <= high
    ensures forall k :: low0 <= k < low ==> a[k] <= key
    ensures low < high ==> a[low] > key
  {
    low := low0;
    while low < high && a[low] <= key
      invariant low0 <= low <= high
      invariant forall k :: low0 <= k < low ==> a[k] <= key
    {
      low := low + 1;
    }
  }

  /** `t` is `s` with s[lo..hi] sorted and the rest unchanged. */
  ghost predicate RangeSorted(s: seq<int>, t: seq<int>, lo: int, hi: int) {
    && |t| == |s| && 0 <= lo <= hi <= |s|
    && Sorted(t[lo..hi]) && multiset(t[lo..hi]) == multiset(s[lo..hi])
    && t[..lo] == s[..lo] && t[hi..] == s[hi..]
  }

  /** Sequences that agree before `c`, or from `c` on, agree on every slice there. */
  lemma SameBefore(s: seq<int>, t: seq<int>, c: int, i: int, j: int)
    requires 0 <= i <= j <= c <= |s| && c <= |t| && s[..c] == t[..c]
    ensures s[i..j] == t[i..j] && (i < c ==> s[i] == t[i])
  {
    assert forall k :: 0 <= k < c ==> s[k] == s[..c][k] && t[k] == t[..c][k];
  }

  lemma SameFrom(s: seq<int>, t: seq<int>, c: int, i: int, j: int)
    requires 0 <= c <= i <= j <= |s| && |s| == |t| && s[c..] == t[c..]
    ensures s[i..j] == t[i..j] && (i < |s| ==> s[i] == t[i])
  {
    assert forall k :: c <= k < |s| ==> s[k] == s[c..][k - c] && t[k] == t[c..][k - c];
  }

  /** Sorting both sides of a separating element sorts the range. */
  lemma BothSides(s: seq<int>, t: seq<int>, u: seq<int>, lo: int, low: int, hi: int)
    requires 0 <= lo <= low < hi <= |s|
    requires AllLe(s[lo..low], s[low]) && AllGe(s[low + 1..hi], s[low])
    requires RangeSorted(s, t, lo, low) && RangeSorted(t, u, low + 1, hi)
    ensures RangeSorted(s, u, lo, hi)
  {
    SameFrom(s, t, low, low, low);
    SameFrom(s, t, low, low + 1, hi);
    SameBefore(t, u, low + 1, low, low);
    SameBefore(t, u, low + 1, lo, low);
    Glue(s, u, lo, low, hi);
    SameBefore(t, u, low + 1, 0, lo);
    SameFrom(s, t, low, hi, |s|);
    assert u[..lo] == u[0..lo] && t[..lo] == t[0..lo];
    assert s[hi..] == s[hi..|s|] && t[hi..] == t[hi..|t|];
  }

  lemma Glue(s: seq<int>, u: seq<int>, lo: int, low: int, hi: int)
    requires 0 <= lo <= low < hi <= |s| && |u| == |s|
    requires AllLe(s[lo..low], s[low]) && AllGe(s[low + 1..hi], s[low])
    requires Sorted(u[lo..low]) && multiset(u[lo..low]) == multiset(s[lo..low]) && u[low] == s[low]
    requires Sorted(u[low + 1..hi]) && multiset(u[low + 1..hi]) == multiset(s[low + 1..hi])
    ensures Sorted(u[lo..hi]) && multiset(u[lo..hi]) == multiset(s[lo..hi])
  {
    var key := s[low];
    PermutationBounds(s[lo..low], u[lo..low], key);
    PermutationBounds(s[low + 1..hi], u[low + 1..hi], key);
    SortedAround(u[lo..low], key, u[low + 1..hi]);
    assert u[lo..hi] == u[lo..low] + [key] + u[low + 1..hi];
    assert s[lo..hi] == s[lo..low] + [key] + s[low + 1..hi];
  }

  lemma ThroughPartition(s: seq<int>, p: seq<int>, t: seq<int>, u: seq<int>, begin: int, end: int, low: int)
    requires Partitioned(s, p, begin, end, low)
    requires RangeSorted(p, t, begin, low) && RangeSorted(t, u, low + 1, end + 1)
    ensures RangeSorted(s, u, begin, end + 1)
  {
    BothSides(p, t, u, begin, low, end + 1);
  }

  lemma ShortRange(s: seq<int>, lo: int, hi: int)
    requires 0 <= lo <= hi <= |s| && hi - lo <= 1
    ensures RangeSorted(s, s, lo, hi)
  {
  }

  /** quickSort: sorts a[begin..end], both inclusive, and touches nothing else. */
  method Sort(a: array<int>, begin: int, end: int)
    requires begin < end ==> 0 <= begin && end < a.Length
    modifies a
    ensures begin < end ==> RangeSorted(old(a[..]), a[..], begin, end + 1)
    ensures begin >= end ==> a[..] == old(a[..])
    decreases end - begin
  {
    if begin >= end { return; }
    ghost var s := a[..];
    var low: int := Partition(a, begin, end);
    ghost var p := a[..];
    Sort(a, begin, low - 1);
    ghost var t := a[..];
    if begin >= low - 1 { ShortRange(p, begin, low); }
    Sort(a, low + 1, end);
    if low + 1 >= end { ShortRange(t, low + 1, end + 1); }
    ThroughPartition(s, p, t, a[..], begin, end, low);
  }
}
