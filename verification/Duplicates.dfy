/** findDuplicates of lc/vectors.cpp (lines 14-31): the sign of slot v-1 records that v has been seen. */
module Duplicates {
  import opened Common

  /** The occurrences, in order, of values that have occurred before. */
  function Repeats(s: seq<int>): (r: seq<int>)
    decreases |s|
  {
    if s == [] then []
    else
      var init := s[..|s| - 1];
      if s[|s| - 1] in init then Repeats(init) + [s[|s| - 1]] else Repeats(init)
  }

  function Abs(x: int): int { if x < 0 then -x else x }

  /** After the values of `seen`: the absolute values are the input, and slot v-1 is negative exactly when v was seen. */
  ghost predicate Marked(input: seq<int>, now: seq<int>, seen: seq<int>) {
    && |now| == |input|
    && forall k :: 0 <= k < |input| ==> now[k] == if k + 1 in seen then -input[k] else input[k]
  }

  predicate InRange(s: seq<int>) { forall k :: 0 <= k < |s| ==> 1 <= s[k] <= |s| }

  lemma MarkedMore(input: seq<int>, now: seq<int>, next: seq<int>, seen: seq<int>, x: int)
    requires InRange(input) && Marked(input, now, seen) && 1 <= x <= |input|
    requires next == if now[x - 1] > 0 then now[x - 1 := -now[x - 1]] else now
    ensures Marked(input, next, seen + [x])
    ensures now[x - 1] > 0 <==> x !in seen
  {
  }

  lemma RepeatsMore(seen: seq<int>, x: int)
    ensures Repeats(seen + [x]) == if x in seen then Repeats(seen) + [x] else Repeats(seen)
  {
    assert (seen + [x])[..|seen|] == seen;
  }

  method FindDuplicates(nums: array<int>) returns (res: seq<int>)
    requires InRange(nums[..])
    modifies nums
    ensures res == Repeats(old(nums[..]))
    ensures Marked(old(nums[..]), nums[..], old(nums[..]))
  {
    ghost var input := nums[..];
    res := [];
    var i := 0;
    while i < nums.Length
      invariant 0 <= i <= nums.Length
      invariant Marked(input, nums[..], input[..i])
      invariant res == Repeats(input[..i])
    {
      var x := Abs(nums[i]);
      ghost var now := nums[..];
      assert x == input[i];
      if nums[x - 1] > 0 {
        nums[x - 1] := -nums[x - 1];
      } else {
        res := res + [x];
      }
      MarkedMore(input, now, nums[..], input[..i], x);
      RepeatsMore(input[..i], x);
      assert input[..i + 1] == input[..i] + [x];
      i := i + 1;
    }
    assert input[..i] == input;
  }

  // ---------- what it computes ----------

  function Count(s: seq<int>, v: int): (n: nat) {
    if s == [] then 0 else Count(s[..|s| - 1], v) + if s[|s| - 1] == v then 1 else 0
  }

  lemma {:induction false} CountPositive(s: seq<int>, v: int)
    ensures v in s <==> Count(s, v) > 0
    decreases |s|
  {
    if s != [] {
      CountPositive(s[..|s| - 1], v);
      assert s == s[..|s| - 1] + [s[|s| - 1]];
    }
  }

  lemma CountMore(s: seq<int>, x: int, v: int)
    ensures Count(s + [x], v) == Count(s, v) + if x == v then 1 else 0
  {
    assert (s + [x])[..|s|] == s;
  }

  /** A value is reported once for every occurrence but the first. */
  lemma {:induction false} RepeatsCount(s: seq<int>, v: int)
    ensures Count(Repeats(s), v) == if v in s then Count(s, v) - 1 else 0
    decreases |s|
  {
    if s != [] {
      var init, x := s[..|s| - 1], s[|s| - 1];
      assert s == init + [x];
      RepeatsCount(init, v);
      CountPositive(init, v);
      CountMore(Repeats(init), x, v);
    }
  }

  ghost predicate AtMost(s: seq<int>, n: nat) { forall v :: Count(s, v) <= n }

  lemma {:induction false} DistinctCounts(s: seq<int>)
    ensures Distinct(s) <==> AtMost(s, 1)
    decreases |s|
  {
    if s != [] {
      var init, x := s[..|s| - 1], s[|s| - 1];
      assert s == init + [x];
      DistinctCounts(init);
      DistinctMore(init, x);
      CountPositive(init, x);
      AtMostMore(init, x);
    }
  }

  lemma AtMostMore(s: seq<int>, x: int)
    ensures AtMost(s + [x], 1) <==> AtMost(s, 1) && Count(s, x) == 0
  {
    CountMore(s, x, x);
    if AtMost(s + [x], 1) {
      forall v
        ensures Count(s, v) <= 1
      {
        CountMore(s, x, v);
        assert Count(s + [x], v) <= 1;
      }
      assert Count(s + [x], x) <= 1;
    }
    if AtMost(s, 1) && Count(s, x) == 0 {
      forall v
        ensures Count(s + [x], v) <= 1
      {
        CountMore(s, x, v);
        assert Count(s, v) <= 1;
      }
    }
  }

  lemma DistinctMore(s: seq<int>, x: int)
    ensures Distinct(s + [x]) <==> Distinct(s) && x !in s
  {
    var t := s + [x];
    if Distinct(t) {
      assert forall i :: 0 <= i < |s| ==> s[i] == t[i] && t[i] != t[|s|];
    }
  }

  /** The reported values are distinct if and only if the input keeps to the stated "once or twice". */
  lemma DistinctIffAtMostTwice(s: seq<int>)
    ensures Distinct(Repeats(s)) <==> AtMost(s, 2)
  {
    DistinctCounts(Repeats(s));
    forall v
      ensures Count(Repeats(s), v) == if Count(s, v) > 0 then Count(s, v) - 1 else 0
    {
      RepeatsCount(s, v);
      CountPositive(s, v);
    }
    if AtMost(Repeats(s), 1) {
      forall v ensures Count(s, v) <= 2 { assert Count(Repeats(s), v) <= 1; }
    }
    if AtMost(s, 2) {
      forall v ensures Count(Repeats(s), v) <= 1 { assert Count(s, v) <= 2; }
    }
  }

  /** Under it, the report is the list of the values that occur twice, each once. */
  lemma ReportsExactlyTheTwice(s: seq<int>, v: int)
    requires AtMost(s, 2)
    ensures v in Repeats(s) <==> Count(s, v) == 2
    ensures Count(Repeats(s), v) <= 1
  {
    RepeatsCount(s, v);
    CountPositive(s, v);
    CountPositive(Repeats(s), v);
  }

  /** What the caller is left with: the input is still there in the absolute values, and the signs are its set of values. */
  lemma MarkedRecovers(input: seq<int>, now: seq<int>)
    requires InRange(input) && Marked(input, now, input)
    ensures input == seq(|now|, k requires 0 <= k < |now| => Abs(now[k]))
    ensures forall v :: 1 <= v <= |input| ==> (now[v - 1] < 0 <==> v in input)
  {
  }

  /** Position `i` repeats an earlier value. */
  predicate Again(s: seq<int>, i: nat)
    requires i < |s|
  {
    exists j :: 0 <= j < i && s[j] == s[i]
  }

  /** How many of the first `i` positions do. */
  function AgainBefore(s: seq<int>, i: nat): (n: nat)
    requires i <= |s|
    ensures n <= i
  {
    if i == 0 then 0 else AgainBefore(s, i - 1) + if Again(s, i - 1) then 1 else 0
  }

  lemma {:induction false} AgainInFront(s: seq<int>, t: seq<int>, i: nat)
    requires i <= |s|
    ensures AgainBefore(s + t, i) == AgainBefore(s, i)
    decreases i
  {
    if i > 0 {
      AgainInFront(s, t, i - 1);
      AgainSame(s, t, i - 1);
    }
  }

  lemma AgainSame(s: seq<int>, t: seq<int>, i: nat)
    requires i < |s|
    ensures Again(s + t, i) == Again(s, i)
  {
    assert forall j :: 0 <= j <= i ==> (s + t)[j] == s[j];
  }

  lemma LastAgain(s: seq<int>)
    requires s != []
    ensures Again(s, |s| - 1) <==> s[|s| - 1] in s[..|s| - 1]
  {
    assert forall j :: 0 <= j < |s| - 1 ==> s[..|s| - 1][j] == s[j];
  }

  /** The report is in reading order: a position that repeats a value is reported behind exactly the
      earlier ones that do, and nothing else is reported. */
  lemma {:induction false} ReportedInOrder(s: seq<int>)
    ensures |Repeats(s)| == AgainBefore(s, |s|)
    ensures forall i :: 0 <= i < |s| && Again(s, i) ==>
      AgainBefore(s, i) < |Repeats(s)| && Repeats(s)[AgainBefore(s, i)] == s[i]
    decreases |s|
  {
    if s != [] {
      var front, x := s[..|s| - 1], s[|s| - 1];
      assert s == front + [x];
      ReportedInOrder(front);
      LastAgain(s);
      AgainInFront(front, [x], |front|);
      forall i | 0 <= i < |s| && Again(s, i)
        ensures AgainBefore(s, i) < |Repeats(s)| && Repeats(s)[AgainBefore(s, i)] == s[i]
      {
        if i < |front| {
          AgainSame(front, [x], i);
          AgainInFront(front, [x], i);
        }
      }
    }
  }
}
