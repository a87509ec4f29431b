/** mergeSort of lc/bubbleSort.cpp (lines 85-115), on records so that the order of equal keys is visible.
    The comment in the source calls it stable; with the strict `<` of line 95 a tie takes the right
    element, and each class of equal keys comes out in exactly reverse order. */
module MergeSort {

  datatype Rec = Rec(key: int, tag: int)

  predicate Sorted(s: seq<Rec>) { forall i, j :: 0 <= i < j < |s| ==> s[i].key <= s[j].key }

  /** The records with this key, in order. */
  function Class(s: seq<Rec>, key: int): (r: seq<Rec>)
  {
    if s == [] then []
    else if s[0].key == key then [s[0]] + Class(s[1..], key)
    else Class(s[1..], key)
  }

  function Reverse(s: seq<Rec>): (r: seq<Rec>)
    ensures |r| == |s|
  {
    if s == [] then [] else Reverse(s[1..]) + [s[0]]
  }

  /** Lines 94-104. */
  function Merge(l: seq<Rec>, r: seq<Rec>): (m: seq<Rec>)
    ensures |m| == |l| + |r|
    decreases |l| + |r|
  {
    if l == [] then r
    else if r == [] then l
    else if l[0].key < r[0].key then [l[0]] + Merge(l[1..], r)
    else [r[0]] + Merge(l, r[1..])
  }

  /** Lines 88-92: with both ends inclusive the left half is the longer one. */
  function Half(n: nat): nat { (n + 1) / 2 }

  function MSort(s: seq<Rec>): (m: seq<Rec>)
    ensures |m| == |s|
    decreases |s|
  {
    if |s| <= 1 then s else Merge(MSort(s[..Half(|s|)]), MSort(s[Half(|s|)..]))
  }

  // ---------- what it computes ----------

  lemma Regroup(x: Rec, s: seq<Rec>, t: seq<Rec>)
    ensures [x] + (s + t) == ([x] + s) + t
  {
  }

  lemma {:induction false} ClassConcat(s: seq<Rec>, t: seq<Rec>, key: int)
    ensures Class(s + t, key) == Class(s, key) + Class(t, key)
  {
    if s == [] {
      assert s + t == t;
    } else {
      assert (s + t)[1..] == s[1..] + t;
      ClassConcat(s[1..], t, key);
      Regroup(s[0], Class(s[1..], key), Class(t, key));
    }
  }

  lemma {:induction false} ReverseConcat(s: seq<Rec>, t: seq<Rec>)
    ensures Reverse(s + t) == Reverse(t) + Reverse(s)
  {
    if s == [] {
      assert s + t == t;
    } else {
      assert (s + t)[1..] == s[1..] + t;
      ReverseConcat(s[1..], t);
    }
  }

  lemma {:induction false} ClassEmpty(s: seq<Rec>, key: int)
    requires forall i :: 0 <= i < |s| ==> s[i].key != key
    ensures Class(s, key) == []
  {
    if s != [] { ClassEmpty(s[1..], key); }
  }

  lemma {:induction false} MergeKeys(l: seq<Rec>, r: seq<Rec>)
    ensures forall x :: x in Merge(l, r) <==> x in l || x in r
    decreases |l| + |r|
  {
    if l != [] && r != [] {
      if l[0].key < r[0].key { MergeKeys(l[1..], r); } else { MergeKeys(l, r[1..]); }
    }
  }

  lemma ConsSorted(x: Rec, s: seq<Rec>)
    requires Sorted(s) && forall y :: y in s ==> x.key <= y.key
    ensures Sorted([x] + s)
  {
  }

  lemma HeadLeast(s: seq<Rec>)
    requires Sorted(s) && s != []
    ensures forall y :: y in s ==> s[0].key <= y.key
    ensures Sorted(s[1..])
  {
  }

  lemma {:induction false} MergeSorted(l: seq<Rec>, r: seq<Rec>)
    requires Sorted(l) && Sorted(r)
    ensures Sorted(Merge(l, r))
    decreases |l| + |r|
  {
    if l != [] && r != [] {
      HeadLeast(l);
      HeadLeast(r);
      if l[0].key < r[0].key {
        MergeSorted(l[1..], r);
        MergeKeys(l[1..], r);
        ConsSorted(l[0], Merge(l[1..], r));
      } else {
        MergeSorted(l, r[1..]);
        MergeKeys(l, r[1..]);
        ConsSorted(r[0], Merge(l, r[1..]));
      }
    }
  }

  lemma ConsClass(x: Rec, s: seq<Rec>, key: int)
    ensures Class([x] + s, key) == if x.key == key then [x] + Class(s, key) else Class(s, key)
  {
    assert ([x] + s)[1..] == s;
  }

  lemma MergeCons(l: seq<Rec>, r: seq<Rec>)
    requires l != [] && r != []
    ensures l[0].key < r[0].key ==> Merge(l, r) == [l[0]] + Merge(l[1..], r)
    ensures l[0].key >= r[0].key ==> Merge(l, r) == [r[0]] + Merge(l, r[1..])
  {
  }

  lemma TakeLeftClass(l: seq<Rec>, r: seq<Rec>, m: seq<Rec>, key: int)
    requires l != [] && forall y :: y in r ==> l[0].key < y.key
    requires Class(m, key) == Class(r, key) + Class(l[1..], key)
    ensures Class([l[0]] + m, key) == Class(r, key) + Class(l, key)
  {
    ConsClass(l[0], m, key);
    if l[0].key == key {
      ClassEmpty(r, key);
      assert Class(m, key) == Class(l[1..], key);
    }
  }

  lemma TakeRightClass(l: seq<Rec>, r: seq<Rec>, m: seq<Rec>, key: int)
    requires r != [] && Class(m, key) == Class(r[1..], key) + Class(l, key)
    ensures Class([r[0]] + m, key) == Class(r, key) + Class(l, key)
  {
    ConsClass(r[0], m, key);
    Regroup(r[0], Class(r[1..], key), Class(l, key));
  }

  /** A merge puts the right class of a key before the left one. */
  lemma {:induction false} MergeClasses(l: seq<Rec>, r: seq<Rec>, key: int)
    requires Sorted(l) && Sorted(r)
    ensures Class(Merge(l, r), key) == Class(r, key) + Class(l, key)
    decreases |l| + |r|
  {
    if l != [] && r != [] {
      HeadLeast(l);
      HeadLeast(r);
      MergeCons(l, r);
      if l[0].key < r[0].key {
        MergeClasses(l[1..], r, key);
        TakeLeftClass(l, r, Merge(l[1..], r), key);
      } else {
        MergeClasses(l, r[1..], key);
        TakeRightClass(l, r, Merge(l, r[1..]), key);
      }
    }
  }

  lemma {:induction false} MSortSorts(s: seq<Rec>)
    ensures Sorted(MSort(s))
    decreases |s|
  {
    if |s| > 1 {
      MSortSorts(s[..Half(|s|)]);
      MSortSorts(s[Half(|s|)..]);
      MergeSorted(MSort(s[..Half(|s|)]), MSort(s[Half(|s|)..]));
    }
  }

  /** Anti-stability: every class of equal keys comes out reversed. */
  lemma {:induction false} MSortReversesClasses(s: seq<Rec>, key: int)
    ensures Class(MSort(s), key) == Reverse(Class(s, key))
    decreases |s|
  {
    if |s| > 1 {
      var l, r := s[..Half(|s|)], s[Half(|s|)..];
      assert s == l + r;
      MSortReversesClasses(l, key);
      MSortReversesClasses(r, key);
      MSortSorts(l);
      MSortSorts(r);
      MergeClasses(MSort(l), MSort(r), key);
      ClassConcat(l, r, key);
      ReverseConcat(Class(l, key), Class(r, key));
    } else if |s| == 1 {
      assert s[1..] == [];
    }
  }

  lemma ConsCount(x: Rec, s: seq<Rec>, y: Rec)
    ensures multiset([x] + s)[y] == multiset(s)[y] + if x == y then 1 else 0
  {
  }

  lemma {:induction false} MergeCounts(l: seq<Rec>, r: seq<Rec>, y: Rec)
    ensures multiset(Merge(l, r))[y] == multiset(l)[y] + multiset(r)[y]
    decreases |l| + |r|
  {
    if l != [] && r != [] {
      assert l == [l[0]] + l[1..] && r == [r[0]] + r[1..];
      if l[0].key < r[0].key {
        MergeCounts(l[1..], r, y);
        ConsCount(l[0], Merge(l[1..], r), y);
        ConsCount(l[0], l[1..], y);
      } else {
        MergeCounts(l, r[1..], y);
        ConsCount(r[0], Merge(l, r[1..]), y);
        ConsCount(r[0], r[1..], y);
      }
    }
  }

  lemma MergePermutes(l: seq<Rec>, r: seq<Rec>)
    ensures multiset(Merge(l, r)) == multiset(l) + multiset(r)
  {
    forall y: Rec
      ensures multiset(Merge(l, r))[y] == multiset(l)[y] + multiset(r)[y]
    {
      MergeCounts(l, r, y);
    }
  }

  lemma {:induction false} MSortPermutes(s: seq<Rec>)
    ensures multiset(MSort(s)) == multiset(s)
    decreases |s|
  {
    if |s| > 1 {
      var l, r := s[..Half(|s|)], s[Half(|s|)..];
      assert s == l + r;
      MSortPermutes(l);
      MSortPermutes(r);
      MergePermutes(MSort(l), MSort(r));
    }
  }

  /** The comment's "stable" holds of a class if and only if the class reads the same backwards. */
  lemma StableIffPalindromic(s: seq<Rec>, key: int)
    ensures Class(MSort(s), key) == Class(s, key) <==> Class(s, key) == Reverse(Class(s, key))
  {
    MSortReversesClasses(s, key);
  }

  // ---------- the code ----------

  /** With `i` and `j` records of the runs used, does the left run give the next one? */
  predicate TakeLeft(l: seq<Rec>, r: seq<Rec>, i: nat, j: nat)
    requires i <= |l| && j <= |r|
  {
    i < |l| && (j == |r| || l[i].key < r[j].key)
  }

  /** How many of the first `n` records of the merge come from the left run. */
  function LeftTaken(l: seq<Rec>, r: seq<Rec>, n: nat): (i: nat)
    requires n <= |l| + |r|
    ensures i <= n && i <= |l| && n - i <= |r|
  {
    if n == 0 then 0
    else var i := LeftTaken(l, r, n - 1);
      if TakeLeft(l, r, i, n - 1 - i) then i + 1 else i
  }

  /** Record `n` of the merge. */
  function Picked(l: seq<Rec>, r: seq<Rec>, n: nat): Rec
    requires n < |l| + |r|
  {
    var i := LeftTaken(l, r, n);
    if TakeLeft(l, r, i, n - i) then l[i] else r[n - i]
  }

  lemma MergeStep(l: seq<Rec>, r: seq<Rec>, i: nat, j: nat)
    requires i <= |l| && j <= |r| && i + j < |l| + |r|
    ensures Merge(l[i..], r[j..]) ==
      if TakeLeft(l, r, i, j) then [l[i]] + Merge(l[i + 1..], r[j..]) else [r[j]] + Merge(l[i..], r[j + 1..])
  {
    if i < |l| { assert l[i..][1..] == l[i + 1..]; }
    if j < |r| { assert r[j..][1..] == r[j + 1..]; }
  }

  /** `m` is what the merge still has to give after `i` and `j` records. */
  ghost predicate Rest(l: seq<Rec>, r: seq<Rec>, i: int, j: int, m: seq<Rec>) {
    0 <= i <= |l| && 0 <= j <= |r| && m == Merge(l[i..], r[j..])
  }

  lemma RestHead(l: seq<Rec>, r: seq<Rec>, i: nat, j: nat, m: seq<Rec>)
    requires i + j < |l| + |r| && Rest(l, r, i, j, m)
    ensures m != [] && m[0] == if TakeLeft(l, r, i, j) then l[i] else r[j]
    ensures if TakeLeft(l, r, i, j) then Rest(l, r, i + 1, j, m[1..]) else Rest(l, r, i, j + 1, m[1..])
  {
    MergeStep(l, r, i, j);
  }

  lemma {:induction false} RestAfter(l: seq<Rec>, r: seq<Rec>, n: nat)
    requires n <= |l| + |r|
    ensures Rest(l, r, LeftTaken(l, r, n), n - LeftTaken(l, r, n), Merge(l, r)[n..])
  {
    var m := Merge(l, r);
    if n == 0 {
      assert l[0..] == l && r[0..] == r && m[0..] == m;
    } else {
      RestAfter(l, r, n - 1);
      RestNext(l, r, n, m[n - 1..]);
      assert m[n - 1..][1..] == m[n..];
    }
  }

  /** One more record taken, by the count of those from the left run. */
  lemma RestNext(l: seq<Rec>, r: seq<Rec>, n: nat, m: seq<Rec>)
    requires 0 < n <= |l| + |r| && Rest(l, r, LeftTaken(l, r, n - 1), n - 1 - LeftTaken(l, r, n - 1), m)
    ensures m != [] && Rest(l, r, LeftTaken(l, r, n), n - LeftTaken(l, r, n), m[1..])
  {
    RestHead(l, r, LeftTaken(l, r, n - 1), n - 1 - LeftTaken(l, r, n - 1), m);
  }

  lemma PickedIsMerge(l: seq<Rec>, r: seq<Rec>, n: nat)
    requires n < |l| + |r|
    ensures Merge(l, r)[n] == Picked(l, r, n)
  {
    RestAfter(l, r, n);
    PickedHead(l, r, n, Merge(l, r)[n..]);
  }

  lemma PickedHead(l: seq<Rec>, r: seq<Rec>, n: nat, m: seq<Rec>)
    requires n < |l| + |r| && Rest(l, r, LeftTaken(l, r, n), n - LeftTaken(l, r, n), m)
    ensures m != [] && m[0] == Picked(l, r, n)
  {
    RestHead(l, r, LeftTaken(l, r, n), n - LeftTaken(l, r, n), m);
  }

  lemma PickedAll(l: seq<Rec>, r: seq<Rec>)
    ensures forall n :: 0 <= n < |l| + |r| ==> Picked(l, r, n) == Merge(l, r)[n]
  {
    forall n | 0 <= n < |l| + |r|
      ensures Picked(l, r, n) == Merge(l, r)[n]
    {
      PickedIsMerge(l, r, n);
    }
  }

  /** Lines 94-96: merges data[begin..mid] and data[mid+1..end] into temp from `begin` until one is used up. */
  method MergeBoth(data: array<Rec>, temp: array<Rec>, begin: nat, mid: nat, end: nat, ghost l: seq<Rec>, ghost r: seq<Rec>)
      returns (begin1: nat, begin2: nat)
    requires data != temp && data.Length == temp.Length && begin <= mid < end < data.Length
    requires |l| == mid + 1 - begin && forall k :: begin <= k <= mid ==> data[k] == l[k - begin]
    requires |r| == end - mid && forall k :: mid < k <= end ==> data[k] == r[k - mid - 1]
    modifies temp
    ensures begin <= begin1 <= mid + 1 <= begin2 <= end + 1 && (begin1 == mid + 1 || begin2 == end + 1)
    ensures begin1 - begin == LeftTaken(l, r, begin1 + begin2 - mid - 1 - begin)
    ensures forall k :: begin <= k < begin1 + begin2 - mid - 1 ==> temp[k] == Picked(l, r, k - begin)
  {
    begin1, begin2 := begin, mid + 1;
    var index := begin;
    while begin1 <= mid && begin2 <= end
      invariant begin <= begin1 <= mid + 1 <= begin2 <= end + 1 && index == begin1 + begin2 - mid - 1
      invariant begin1 - begin == LeftTaken(l, r, index - begin)
      invariant forall k :: begin <= k < index ==> temp[k] == Picked(l, r, k - begin)
    {
      if data[begin1].key < data[begin2].key {
        temp[index] := data[begin1];
        begin1 := begin1 + 1;
      } else {
        temp[index] := data[begin2];
        begin2 := begin2 + 1;
      }
      index := index + 1;
    }
  }

  /** Lines 93-104: merges the runs data[begin..mid] and data[mid+1..end] into temp[begin..end]. */
  method MergeRuns(data: array<Rec>, temp: array<Rec>, begin: nat, mid: nat, end: nat, ghost l: seq<Rec>, ghost r: seq<Rec>)
    requires data != temp && data.Length == temp.Length && begin <= mid < end < data.Length
    requires |l| == mid + 1 - begin && forall k :: begin <= k <= mid ==> data[k] == l[k - begin]
    requires |r| == end - mid && forall k :: mid < k <= end ==> data[k] == r[k - mid - 1]
    modifies temp
    ensures forall k :: begin <= k <= end ==> temp[k] == Picked(l, r, k - begin)
  {
    var begin1, begin2 := MergeBoth(data, temp, begin, mid, end, l, r);
    MergeLeft(data, temp, begin, mid, end, begin1, begin2, l, r);
    var index := begin2;
    while begin2 <= end
      invariant mid + 1 <= begin2 <= end + 1 && index == begin2
      invariant mid + 1 - begin == LeftTaken(l, r, index - begin)
      invariant forall k :: begin <= k < index ==> temp[k] == Picked(l, r, k - begin)
    {
      temp[index] := data[begin2];
      begin2 := begin2 + 1;
      index := index + 1;
    }
  }

  /** Lines 98-100: the rest of the left run, if there is one. */
  method MergeLeft(data: array<Rec>, temp: array<Rec>, begin: nat, mid: nat, end: nat, first: nat, begin2: nat,
                   ghost l: seq<Rec>, ghost r: seq<Rec>)
    requires data != temp && data.Length == temp.Length && begin <= first <= mid + 1 <= begin2 <= end + 1 <= data.Length
    requires first <= mid ==> begin2 == end + 1
    requires |l| == mid + 1 - begin && forall k :: begin <= k <= mid ==> data[k] == l[k - begin]
    requires |r| == end - mid
    requires first - begin == LeftTaken(l, r, first + begin2 - mid - 1 - begin)
    requires forall k :: begin <= k < first + begin2 - mid - 1 ==> temp[k] == Picked(l, r, k - begin)
    modifies temp
    ensures mid + 1 - begin == LeftTaken(l, r, begin2 - begin)
    ensures forall k :: begin <= k < begin2 ==> temp[k] == Picked(l, r, k - begin)
  {
    var begin1, index := first, first + begin2 - mid - 1;
    while begin1 <= mid
      invariant first <= begin1 <= mid + 1 && index == begin1 + begin2 - mid - 1
      invariant begin1 - begin == LeftTaken(l, r, index - begin)
      invariant forall k :: begin <= k < index ==> temp[k] == Picked(l, r, k - begin)
    {
      temp[index] := data[begin1];
      begin1 := begin1 + 1;
      index := index + 1;
    }
  }

  /** Lines 106-108. */
  method CopyBack(data: array<Rec>, temp: array<Rec>, begin: nat, end: nat)
    requires data != temp && data.Length == temp.Length && begin <= end < data.Length
    modifies data
    ensures forall k :: 0 <= k < data.Length ==> data[k] == if begin <= k <= end then temp[k] else old(data[k])
  {
    var index := begin;
    while index <= end
      invariant begin <= index <= end + 1
      invariant forall k :: 0 <= k < data.Length ==> data[k] == if begin <= k < index then temp[k] else old(data[k])
    {
      data[index] := temp[index];
      index := index + 1;
    }
  }

  lemma MSortStep(s: seq<Rec>, begin: nat, mid: nat, end: nat)
    requires begin < end < |s| && mid == begin + (end - begin) / 2
    ensures MSort(s[begin..end + 1]) == Merge(MSort(s[begin..mid + 1]), MSort(s[mid + 1..end + 1]))
  {
    var w := s[begin..end + 1];
    assert Half(|w|) == mid + 1 - begin;
    assert w[..Half(|w|)] == s[begin..mid + 1] && w[Half(|w|)..] == s[mid + 1..end + 1];
  }

  /** `t` is `s` with s[begin..end] sorted. */
  ghost predicate CoreDone(s: seq<Rec>, t: seq<Rec>, begin: int, end: int) {
    && 0 <= begin <= end + 1 <= |s| && |t| == |s|
    && (forall k :: begin <= k <= end ==> t[k] == MSort(s[begin..end + 1])[k - begin])
    && (forall k :: 0 <= k < begin || end < k < |s| ==> t[k] == s[k])
  }

  /** `u` is `t` with its two runs merged. */
  ghost predicate RunsMerged(t: seq<Rec>, u: seq<Rec>, begin: int, mid: int, end: int) {
    && 0 <= begin <= mid < end < |t| == |u|
    && (forall k :: begin <= k <= end ==> u[k] == Merge(t[begin..mid + 1], t[mid + 1..end + 1])[k - begin])
    && (forall k :: 0 <= k < begin || end < k < |t| ==> u[k] == t[k])
  }

  lemma CoreIsSlice(s: seq<Rec>, t: seq<Rec>, begin: nat, end: int)
    requires CoreDone(s, t, begin, end)
    ensures t[begin..end + 1] == MSort(s[begin..end + 1])
    ensures t[..begin] == s[..begin] && t[end + 1..] == s[end + 1..]
  {
  }

  /** The two sorted runs are in place before the merge. */
  lemma TwoRuns(s: seq<Rec>, t1: seq<Rec>, t2: seq<Rec>, begin: nat, mid: nat, end: nat)
    requires begin <= mid < end < |s| && CoreDone(s, t1, begin, mid) && CoreDone(t1, t2, mid + 1, end)
    ensures t2[begin..mid + 1] == MSort(s[begin..mid + 1]) && t2[mid + 1..end + 1] == MSort(s[mid + 1..end + 1])
  {
    LeftRun(s, t1, t2, begin, mid, end);
    RightRun(s, t1, t2, begin, mid, end);
  }

  lemma LeftRun(s: seq<Rec>, t1: seq<Rec>, t2: seq<Rec>, begin: nat, mid: nat, end: nat)
    requires begin <= mid < end < |s| && CoreDone(s, t1, begin, mid) && CoreDone(t1, t2, mid + 1, end)
    ensures t2[begin..mid + 1] == MSort(s[begin..mid + 1])
  {
    CoreIsSlice(s, t1, begin, mid);
    SameSlice(t1, t2, begin, mid + 1);
  }

  lemma RightRun(s: seq<Rec>, t1: seq<Rec>, t2: seq<Rec>, begin: nat, mid: nat, end: nat)
    requires begin <= mid < end < |s| && CoreDone(s, t1, begin, mid) && CoreDone(t1, t2, mid + 1, end)
    ensures t2[mid + 1..end + 1] == MSort(s[mid + 1..end + 1])
  {
    SameSlice(s, t1, mid + 1, end + 1);
    CoreIsSlice(t1, t2, mid + 1, end);
  }

  lemma SameSlice(s: seq<Rec>, t: seq<Rec>, lo: nat, hi: nat)
    requires lo <= hi <= |s| == |t| && forall k :: lo <= k < hi ==> t[k] == s[k]
    ensures t[lo..hi] == s[lo..hi]
  {
  }

  /** The three stages of one call: left half, right half, merge. */
  lemma CoreStages(s: seq<Rec>, t1: seq<Rec>, t2: seq<Rec>, u: seq<Rec>, begin: nat, mid: nat, end: nat)
    requires begin < end < |s| && mid == begin + (end - begin) / 2
    requires CoreDone(s, t1, begin, mid) && CoreDone(t1, t2, mid + 1, end) && RunsMerged(t2, u, begin, mid, end)
    ensures CoreDone(s, u, begin, end)
  {
    TwoRuns(s, t1, t2, begin, mid, end);
    MSortStep(s, begin, mid, end);
  }

  lemma ShortCore(s: seq<Rec>, begin: int, end: int)
    requires 0 <= begin <= end + 1 <= |s| && begin >= end
    ensures CoreDone(s, s, begin, end)
  {
  }

  lemma MergedBack(t: seq<Rec>, u: seq<Rec>, begin: nat, mid: nat, end: nat)
    requires begin <= mid < end < |t| == |u|
    requires var l, r := t[begin..mid + 1], t[mid + 1..end + 1];
      forall k :: 0 <= k < |t| ==> u[k] == if begin <= k <= end then Picked(l, r, k - begin) else t[k]
    ensures RunsMerged(t, u, begin, mid, end)
  {
    var l, r := t[begin..mid + 1], t[mid + 1..end + 1];
    PickedAll(l, r);
    assert forall k :: begin <= k <= end ==> u[k] == Picked(l, r, k - begin);
  }

  /** Lines 93-108. */
  method MergeBack(data: array<Rec>, temp: array<Rec>, begin: nat, mid: nat, end: nat)
    requires data != temp && data.Length == temp.Length && begin <= mid < end < data.Length
    modifies data, temp
    ensures RunsMerged(old(data[..]), data[..], begin, mid, end)
  {
    ghost var t := data[..];
    ghost var l, r := t[begin..mid + 1], t[mid + 1..end + 1];
    MergeRuns(data, temp, begin, mid, end, l, r);
    CopyBack(data, temp, begin, end);
    MergedBack(t, data[..], begin, mid, end);
  }

  /** mergeSortCore on data[begin..end], both inclusive; an empty range is begin == end + 1. */
  method MergeSortCore(data: array<Rec>, temp: array<Rec>, begin: int, end: int)
    requires data != temp && data.Length == temp.Length
    requires 0 <= begin <= end + 1 <= data.Length
    modifies data, temp
    ensures CoreDone(old(data[..]), data[..], begin, end)
    decreases end - begin
  {
    ghost var s := data[..];
    if begin >= end { ShortCore(s, begin, end); return; }
    var len := end - begin;
    var mid := begin + len / 2;
    MergeSortCore(data, temp, begin, mid);
    ghost var t1 := data[..];
    assert CoreDone(s, t1, begin, mid);
    MergeSortCore(data, temp, mid + 1, end);
    MergeStage(data, temp, begin, mid, end, s, t1);
  }

  /** The last stage of a call, lines 93-108, after the two recursive ones. */
  method MergeStage(data: array<Rec>, temp: array<Rec>, begin: nat, mid: nat, end: nat, ghost s: seq<Rec>, ghost t1: seq<Rec>)
    requires data != temp && data.Length == temp.Length == |s| && begin < end < data.Length
    requires mid == begin + (end - begin) / 2
    requires CoreDone(s, t1, begin, mid) && CoreDone(t1, data[..], mid + 1, end)
    modifies data, temp
    ensures CoreDone(s, data[..], begin, end)
  {
    ghost var t2 := data[..];
    MergeBack(data, temp, begin, mid, end);
    CoreStages(s, t1, t2, data[..], begin, mid, end);
  }

  /** mergeSort: afterwards the data is the sorted permutation in which every class of equal keys is
      reversed, which determines it. */
  method Sort(data: array<Rec>)
    modifies data
    ensures data[..] == MSort(old(data[..]))
    ensures Sorted(data[..]) && multiset(data[..]) == multiset(old(data[..]))
  {
    var len := data.Length;
    var dataTemp := new Rec[len](_ => Rec(0, 0));
    ghost var s := data[..];
    assert s[0..len] == s;
    MergeSortCore(data, dataTemp, 0, len - 1);
    MSortSorts(s);
    MSortPermutes(s);
  }

  lemma {:induction false} ClassIn(s: seq<Rec>, x: Rec)
    ensures x in Class(s, x.key) <==> x in s
  {
    if s != [] { ClassIn(s[1..], x); }
  }

  lemma EmptyClasses(t: seq<Rec>)
    requires forall key :: Class(t, key) == []
    ensures t == []
  {
    if t != [] { ClassIn(t, t[0]); }
  }

  /** A sorted sequence is determined by its classes. */
  lemma {:induction false} ClassesDetermine(s: seq<Rec>, t: seq<Rec>)
    requires Sorted(s) && Sorted(t) && forall key :: Class(s, key) == Class(t, key)
    ensures s == t
  {
    if s == [] {
      EmptyClasses(t);
    } else {
      ClassIn(s, s[0]);
      ClassIn(t, s[0]);
      HeadsAgree(s, t);
      forall key
        ensures Class(s[1..], key) == Class(t[1..], key)
      {
        assert Class(s, key) == Class(t, key);
        TailClass(s, key);
        TailClass(t, key);
      }
      ClassesDetermine(s[1..], t[1..]);
    }
  }

  lemma TailClass(s: seq<Rec>, key: int)
    requires s != []
    ensures Class(s[1..], key) == if s[0].key == key then Class(s, key)[1..] else Class(s, key)
  {
  }

  lemma HeadsAgree(s: seq<Rec>, t: seq<Rec>)
    requires Sorted(s) && Sorted(t) && s != [] && t != [] && forall key :: Class(s, key) == Class(t, key)
    ensures s[0] == t[0]
  {
    HeadLeast(s);
    HeadLeast(t);
    ClassIn(s, s[0]); ClassIn(t, s[0]);
    ClassIn(t, t[0]); ClassIn(s, t[0]);
    assert Class(s, s[0].key)[0] == s[0];
    assert Class(t, t[0].key)[0] == t[0];
  }

  /** Every class of `t` is the class of `s` in reverse. */
  ghost predicate ClassesReversed(s: seq<Rec>, t: seq<Rec>) {
    forall key :: Class(t, key) == Reverse(Class(s, key))
  }

  lemma SameClasses(s: seq<Rec>, t: seq<Rec>, u: seq<Rec>)
    requires ClassesReversed(s, t) && ClassesReversed(s, u) && Sorted(t) && Sorted(u)
    ensures t == u
  {
    forall key
      ensures Class(t, key) == Class(u, key)
    {
      assert Class(t, key) == Reverse(Class(s, key)) && Class(u, key) == Reverse(Class(s, key));
    }
    ClassesDetermine(t, u);
  }

  lemma MSortReverses(s: seq<Rec>)
    ensures Sorted(MSort(s)) && ClassesReversed(s, MSort(s))
  {
    MSortSorts(s);
    forall key
      ensures Class(MSort(s), key) == Reverse(Class(s, key))
    {
      MSortReversesClasses(s, key);
    }
  }

  /** The result is the one sorted sequence in which every class is reversed. */
  lemma ExactResult(s: seq<Rec>, t: seq<Rec>)
    ensures t == MSort(s) <==> Sorted(t) && ClassesReversed(s, t)
  {
    MSortReverses(s);
    if Sorted(t) && ClassesReversed(s, t) {
      SameClasses(s, t, MSort(s));
    }
  }

  /** Two records with one key change places, so the sort is not stable. */
  lemma NotStable()
    ensures MSort([Rec(0, 1), Rec(0, 2)]) == [Rec(0, 2), Rec(0, 1)]
    ensures Class(MSort([Rec(0, 1), Rec(0, 2)]), 0) != Class([Rec(0, 1), Rec(0, 2)], 0)
  {
    var a, b := Rec(0, 1), Rec(0, 2);
    var s := [a, b];
    assert s[..Half(2)] == [a] && s[Half(2)..] == [b];
    assert MSort(s) == Merge([a], [b]);
    MergeCons([a], [b]);
    assert Merge([a], []) == [a];
    assert Class([b, a], 0)[0] == b && Class(s, 0)[0] == a;
  }
}
