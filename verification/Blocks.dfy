/** The helper class `blocks` of the thread pool, which divides an index range for parallel loops. */
module LoopBlocks {
  import opened Common
  import opened PoolModel

  /** As the constructor leaves it.  `last` is the index after the last one. */
  datatype Blocks = Blocks(first: int, last: int, blockSize: nat, numBlocks: nat, remainder: nat) {

    function Start(k: nat): int {
      first + k * blockSize + if k < remainder then k else remainder
    }

    function End(k: nat): int {
      if k == numBlocks - 1 then last else Start(k + 1)
    }
  }

  /** The constructor, for a request of `num` blocks; the callers replace a request of 0 by the thread count. */
  function Split(first: int, last: int, num: nat): Blocks
    requires last > first ==> num >= 1
  {
    if last > first then
      var total := last - first;
      var n := if num > total then total else num;
      var size := total / n;
      if size == 0 then Blocks(first, last, 1, if total > 1 then total else 1, total % n)
      else Blocks(first, last, size, n, total % n)
    else
      Blocks(first, last, 0, 0, 0)
  }

  lemma SplitExact(first: int, last: int, num: nat)
    requires last > first && num >= 1
    ensures var b := Split(first, last, num);
      && 1 <= b.numBlocks <= num && b.numBlocks <= last - first && 1 <= b.blockSize
      && (b.numBlocks == num || b.numBlocks == last - first)
      && b.remainder < b.numBlocks
      && b.numBlocks * b.blockSize + b.remainder == last - first
  {
    var total := last - first;
    var n := if num > total then total else num;
    DivMod(total, n);
  }

  lemma DivMod(a: nat, b: nat)
    requires 1 <= b <= a
    ensures a / b >= 1 && b * (a / b) + a % b == a
  {
    var q := a / b;
    assert b * q + a % b == a;
    if q <= 0 { NonPositive(b, q); }
  }

  lemma NonPositive(b: nat, q: int)
    requires q <= 0
    ensures b * q <= 0
  {
  }

  /** Neighbouring starts are one block apart, and the end of each block is the start of the next. */
  lemma Step(b: Blocks, k: nat)
    ensures b.Start(k + 1) == b.Start(k) + b.blockSize + if k < b.remainder then 1 else 0
  {
    assert (k + 1) * b.blockSize == k * b.blockSize + b.blockSize;
  }

  /** The blocks are nonempty, contiguous, start and end with the range, and differ in size by at most one. */
  lemma BlocksPartition(first: int, last: int, num: nat, k: nat)
    requires last > first && num >= 1 && k < Split(first, last, num).numBlocks
    ensures var b := Split(first, last, num);
      && b.Start(0) == first && b.End(b.numBlocks - 1) == last
      && b.Start(k) < b.End(k)
      && b.End(k) == b.Start(k + 1)
      && b.blockSize <= b.End(k) - b.Start(k) <= b.blockSize + 1
      && first <= b.Start(k) && b.End(k) <= last
  {
    var b := Split(first, last, num);
    SplitExact(first, last, num);
    Step(b, k);
    StartsAt(b);
    assert b.Start(b.numBlocks) == last;
    StartMonotone(b, 0, k);
    StartMonotone(b, k + 1, b.numBlocks);
  }

  lemma StartsAt(b: Blocks)
    ensures b.Start(0) == b.first
  {
  }

  lemma {:induction false} StartMonotone(b: Blocks, j: nat, k: nat)
    requires j <= k
    ensures b.Start(j) <= b.Start(k)
    decreases k - j
  {
    if j < k {
      Step(b, j);
      StartMonotone(b, j + 1, k);
    }
  }

  /** Every index of the range is in exactly one block. */
  lemma {:induction false} BlockOf(b: Blocks, i: int, n: nat) returns (k: nat)
    requires b.Start(0) <= i < b.Start(n)
    ensures k < n && b.Start(k) <= i < b.Start(k + 1)
    ensures forall j: nat :: b.Start(j) <= i < b.Start(j + 1) ==> j == k
  {
    if i < b.Start(n - 1) {
      k := BlockOf(b, i, n - 1);
    } else {
      k := n - 1;
      forall j: nat | b.Start(j) <= i < b.Start(j + 1)
        ensures j == k
      {
        if j < k { StartMonotone(b, j + 1, k); }
        if k < j { StartMonotone(b, k + 1, j); }
      }
    }
  }

  // ---------- fixed-width arithmetic ----------

  /** The value of `x` in an integer type that covers tmin..tmax: itself, or reduced by the type's size. */
  function Wrap(x: int, tmin: int, tmax: int): int
    requires tmin <= tmax
  {
    if tmin <= x <= tmax then x else tmin + (x - tmin) % (tmax - tmin + 1)
  }

  /** `start` as the machine computes it, every operation in its own type. */
  function MachineStart(b: Blocks, k: nat, tmin: int, tmax: int): int
    requires tmin <= tmax
  {
    var offset := Wrap(Wrap(k * b.blockSize, 0, SIZE_MAX), tmin, tmax);
    var extra := Wrap(if k < b.remainder then k else b.remainder, tmin, tmax);
    Wrap(Wrap(b.first + offset, tmin, tmax) + extra, tmin, tmax)
  }

  /** Every value that the constructor and `start` compute on the way is inside its type: the length, the
      number of blocks, the offset, the share of the remainder, the sum of the first two, and the result. */
  ghost predicate StartFits(b: Blocks, k: nat, tmin: int, tmax: int) {
    && 0 <= b.last - b.first <= tmax && b.numBlocks <= SIZE_MAX
    && 0 <= k * b.blockSize <= tmax
    && b.remainder <= tmax && k <= SIZE_MAX
    && tmin <= b.first + k * b.blockSize <= tmax
    && tmin <= b.Start(k) <= tmax
  }

  /** When the range length fits the index type, no intermediate of any block overflows, so the machine
      computes the exact start. */
  lemma NoOverflow(first: int, last: int, num: nat, k: nat, tmin: int, tmax: int)
    requires tmin <= 0 && tmin <= first < last <= tmax <= SIZE_MAX && last - first <= tmax && num >= 1
    requires k < Split(first, last, num).numBlocks
    ensures Wrap(Wrap(last - first, tmin, tmax), 0, SIZE_MAX) == last - first
    ensures var b := Split(first, last, num);
      && StartFits(b, k, tmin, tmax) && tmin <= b.End(k) <= tmax
      && MachineStart(b, k, tmin, tmax) == b.Start(k)
  {
    var b := Split(first, last, num);
    SplitExact(first, last, num);
    BlocksPartition(first, last, num, k);
    Nonneg(k, b.blockSize);
  }

  lemma Nonneg(a: nat, b: nat)
    ensures a * b >= 0
  {
  }

  // ---------- detach_loop ----------

  /** The first `n` jobs of a split range. */
  function PlanPrefix(b: Blocks, n: nat): (jobs: seq<Job>)
    ensures |jobs| == n
    ensures forall k :: 0 <= k < n ==> jobs[k] == Loop(b.Start(k), b.End(k))
  {
    if n == 0 then [] else PlanPrefix(b, n - 1) + [Loop(b.Start(n - 1), b.End(n - 1))]
  }

  /** What detach_loop submits. */
  function LoopPlan(first: int, last: int, num: nat, threadCount: nat): seq<Job>
    requires threadCount >= 1
  {
    if last > first then
      var b := Split(first, last, if num > 0 then num else threadCount);
      PlanPrefix(b, b.numBlocks)
    else []
  }

  /** Contiguous loops that cover first..last, the lengths as even as they can be and the longer ones first. */
  ghost predicate EvenLoops(plan: seq<Job>, first: int, last: int) {
    plan != [] && forall k :: 0 <= k < |plan| ==> EvenAt(plan, first, last, k)
  }

  /** Loop `k` starts where the one before ends, the first with the range, and the last ends with it. */
  predicate EvenAt(plan: seq<Job>, first: int, last: int, k: nat)
    requires k < |plan|
  {
    && plan[k].Loop? && (k > 0 ==> plan[k - 1].Loop?)
    && plan[k].start == (if k == 0 then first else plan[k - 1].end)
    && (k == |plan| - 1 ==> plan[k].end == last)
    && plan[k].end - plan[k].start == (last - first) / |plan| + if k < (last - first) % |plan| then 1 else 0
  }

  /** What the callers of detach_loop are promised: as many tasks as requested, or as there are threads when
      nothing is requested, but never more than indices; none for an empty range. */
  lemma PlanShape(first: int, last: int, num: nat, threadCount: nat)
    requires threadCount >= 1
    ensures var plan := LoopPlan(first, last, num, threadCount);
      && (last <= first ==> plan == [])
      && (last > first ==>
           |plan| == Min(if num > 0 then num else threadCount, last - first) && EvenLoops(plan, first, last))
  {
    if last > first { SplitShape(first, last, if num > 0 then num else threadCount); }
  }

  lemma SplitShape(first: int, last: int, num: nat)
    requires last > first && num >= 1
    ensures var b := Split(first, last, num);
      b.numBlocks == Min(num, last - first) && EvenLoops(PlanPrefix(b, b.numBlocks), first, last)
  {
    var b := Split(first, last, num);
    var plan := PlanPrefix(b, b.numBlocks);
    SplitCount(first, last, num);
    forall k | 0 <= k < |plan|
      ensures EvenAt(plan, first, last, k)
    {
      BlockJob(first, last, num, k);
    }
  }

  lemma BlockJob(first: int, last: int, num: nat, k: nat)
    requires last > first && num >= 1 && k < Split(first, last, num).numBlocks
    ensures var b := Split(first, last, num); EvenAt(PlanPrefix(b, b.numBlocks), first, last, k)
  {
    BlocksPartition(first, last, num, k);
    BlockLength(first, last, num, k);
    if k > 0 { BlocksPartition(first, last, num, k - 1); }
  }

  lemma SplitCount(first: int, last: int, num: nat)
    requires last > first && num >= 1
    ensures 1 <= Split(first, last, num).numBlocks == Min(num, last - first)
  {
    SplitExact(first, last, num);
  }

  /** The longer blocks come first. */
  lemma BlockLength(first: int, last: int, num: nat, k: nat)
    requires last > first && num >= 1 && k < Split(first, last, num).numBlocks
    ensures var b := Split(first, last, num);
      && b.End(k) == b.Start(k + 1)
      && b.End(k) - b.Start(k) == (last - first) / b.numBlocks + if k < (last - first) % b.numBlocks then 1 else 0
  {
    var b := Split(first, last, num);
    SplitExact(first, last, num);
    BlocksPartition(first, last, num, k);
    DivMod(last - first, b.numBlocks);
    Step(b, k);
  }

  predicate Calls(job: Job, i: int) { job.Loop? && job.start <= i < job.end }

  lemma PlanJob(first: int, last: int, num: nat, j: nat)
    requires last > first && num >= 1 && j < Split(first, last, num).numBlocks
    ensures var b := Split(first, last, num);
      && PlanPrefix(b, b.numBlocks)[j] == Loop(b.Start(j), b.Start(j + 1))
      && first <= b.Start(j) && b.Start(j + 1) <= last
  {
    BlocksPartition(first, last, num, j);
  }

  /** In a loop's plan each index of the range belongs to exactly one job, and no other index to any. */
  lemma PlanCoversOnce(first: int, last: int, num: nat, threadCount: nat, i: int) returns (k: nat)
    requires threadCount >= 1
    ensures var plan := LoopPlan(first, last, num, threadCount);
      && (first <= i < last ==> k < |plan| && forall j :: 0 <= j < |plan| ==> (Calls(plan[j], i) <==> j == k))
      && (!(first <= i < last) ==> forall j :: 0 <= j < |plan| ==> !Calls(plan[j], i))
  {
    k := 0;
    if last > first {
      k := SplitCoversOnce(first, last, if num > 0 then num else threadCount, i);
    }
  }

  lemma SplitCoversOnce(first: int, last: int, num: nat, i: int) returns (k: nat)
    requires last > first && num >= 1
    ensures var b := Split(first, last, num);
      && (first <= i < last ==> k < b.numBlocks)
      && (first <= i < last ==> forall j :: 0 <= j < b.numBlocks ==> (Calls(PlanPrefix(b, b.numBlocks)[j], i) <==> j == k))
      && (!(first <= i < last) ==> forall j :: 0 <= j < b.numBlocks ==> !Calls(PlanPrefix(b, b.numBlocks)[j], i))
  {
    var b := Split(first, last, num);
    k := 0;
    if first <= i < last {
      SplitExact(first, last, num);
      BlocksPartition(first, last, num, b.numBlocks - 1);
      k := BlockOf(b, i, b.numBlocks);
    }
    forall j | 0 <= j < b.numBlocks
      ensures Calls(PlanPrefix(b, b.numBlocks)[j], i) <==> first <= i < last && j == k
    {
      PlanJob(first, last, num, j);
    }
  }
}
