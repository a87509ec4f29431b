/** The packing that the placement loops promise, stated on the placed blocks alone: slots are numbered
    through the chip, blocks take them in rising order, and no room for a whole block is passed over. */
module PlacementPacking {
  import opened Common
  import opened PlacementSpec

  /** The slots of one cluster. */
  const CLUSTER_SLOTS := CORE_PER_CLUSTER * SUBCORE_PER_CORE * WARP_PER_SUBCORE

  /** The number of a slot: cluster by cluster, core by core, subcore by subcore, from index 0 up. */
  function Position(s: Slot): nat {
    ((s.cluster * CORE_PER_CLUSTER + s.core) * SUBCORE_PER_CORE + s.subcore) * WARP_PER_SUBCORE + s.index
  }

  /** A whole block has room from position `p` on: in one subcore, or from the start of a subcore in one core. */
  predicate Fits(wpb: nat, p: nat) {
    if wpb <= WARP_PER_SUBCORE then p % WARP_PER_SUBCORE + wpb <= WARP_PER_SUBCORE
    else
      && p % WARP_PER_SUBCORE == 0
      && p % (SUBCORE_PER_CORE * WARP_PER_SUBCORE) + wpb <= SUBCORE_PER_CORE * WARP_PER_SUBCORE
  }

  ghost predicate NoRoom(wpb: nat, from: nat, to: nat) { forall p: nat :: from <= p < to ==> !Fits(wpb, p) }

  /** The block's warps are in consecutive slots from `start` on. */
  ghost predicate Occupies(b: Placed, wpb: nat, start: nat) {
    |b.slots| == wpb && forall w :: 0 <= w < wpb ==> Position(b.slots[w]) == start + w
  }

  function StartOf(b: Placed): nat { if b.slots == [] then 0 else Position(b.slots[0]) }

  /** Cluster of the last block so far: it has its cta_num blocks. */
  predicate Full(blocks: seq<Placed>)
    requires blocks != []
  {
    BlocksIn(blocks, blocks[|blocks| - 1].cluster) == CTA_NUM
  }

  /** Where the block after the first `k` ones starts: at the first place with room behind the last of them, or,
      when its cluster has cta_num blocks, at the next cluster. */
  ghost predicate Follows(wpb: nat, blocks: seq<Placed>, k: nat)
    requires 0 < k < |blocks|
  {
    var end, start := StartOf(blocks[k - 1]) + wpb, StartOf(blocks[k]);
    && end <= start && Fits(wpb, start)
    && if Full(blocks[..k]) then start == (blocks[k - 1].cluster + 1) * CLUSTER_SLOTS else NoRoom(wpb, end, start)
  }

  /** Blocks left over mean that the last cluster is reached and is full or has no room. */
  ghost predicate UsedUp(wpb: nat, blocks: seq<Placed>) {
    && blocks != [] && blocks[|blocks| - 1].cluster == CLUSTER_NUM - 1
    && (Full(blocks) || NoRoom(wpb, StartOf(blocks[|blocks| - 1]) + wpb, CLUSTER_NUM * CLUSTER_SLOTS))
  }

  /** The whole promise; it determines every slot.  Blocks without warps only count for their cluster. */
  ghost predicate Packed(wpb: nat, blocks: seq<Placed>, left: nat) {
    if wpb == 0 then
      && (forall k :: 0 <= k < |blocks| ==> blocks[k].slots == [] && blocks[k].core == 0 && blocks[k].cluster == k / CTA_NUM)
      && (left > 0 ==> |blocks| == CLUSTER_NUM * CTA_NUM)
    else
      && (forall k :: 0 <= k < |blocks| ==> Occupies(blocks[k], wpb, StartOf(blocks[k])))
      && (blocks != [] ==> StartOf(blocks[0]) == 0)
      && (forall k :: 0 < k < |blocks| ==> Follows(wpb, blocks, k))
      && (left > 0 ==> UsedUp(wpb, blocks))
  }

  // ---------- the closed form is packed ----------

  function Width(wpb: nat): nat { if OneSubcore(wpb) then 1 else 2 }

  /** Where group `g` of cluster `c` begins. */
  function Base(wpb: nat, c: nat, g: nat): nat { (c * 20 + Width(wpb) * g) * WARP_PER_SUBCORE }

  lemma GroupPosition(g: nat)
    ensures (g / 4) * 4 + g % 4 == g && (g / 2) * 4 + 2 * (g % 2) == 2 * g
  {
  }

  lemma PositionIn(wpb: nat, c: nat, g: nat, r: nat, w: nat)
    requires w < wpb <= MAX_WARP_NUM_BLOCK && (OneSubcore(wpb) || r == 0)
    ensures Position(SlotIn(wpb, c, g, r, w)) == Base(wpb, c, g) + r * wpb + w
  {
    GroupPosition(g);
  }

  function StartAt(wpb: nat, k: nat): nat {
    Base(wpb, ClusterOf(wpb, k), GroupOf(wpb, k)) + PlaceOf(wpb, k) * wpb
  }

  lemma OccupiesAt(grid: Triplet, wpb: nat, k: nat)
    requires grid.x >= 1 && grid.y >= 1 && 0 < wpb <= MAX_WARP_NUM_BLOCK
    ensures Occupies(BlockAt(grid, wpb, k), wpb, StartAt(wpb, k)) && StartOf(BlockAt(grid, wpb, k)) == StartAt(wpb, k)
  {
    PositionDecodes(wpb, k);
    forall w | 0 <= w < wpb
      ensures Position(BlockAt(grid, wpb, k).slots[w]) == StartAt(wpb, k) + w
    {
      PositionIn(wpb, ClusterOf(wpb, k), GroupOf(wpb, k), PlaceOf(wpb, k), w);
    }
  }

  lemma Residue16(a: nat, o: nat)
    requires o < 16
    ensures (a * 16 + o) % 16 == o
  {
  }

  lemma Residue64(c: nat, g: nat)
    ensures (c * 20 + 2 * g) * 16 % 64 == 32 * (g % 2)
  {
    assert (c * 20 + 2 * g) * 16 == 64 * (5 * c + g / 2) + 32 * (g % 2);
  }

  lemma StartFits(wpb: nat, k: nat)
    requires 0 < wpb <= MAX_WARP_NUM_BLOCK
    ensures Fits(wpb, StartAt(wpb, k))
  {
    var c, g, r := ClusterOf(wpb, k), GroupOf(wpb, k), PlaceOf(wpb, k);
    PositionDecodes(wpb, k);
    if OneSubcore(wpb) {
      MulLe(r + 1, PerGroup(wpb), wpb);
      assert (r + 1) * wpb == r * wpb + wpb;
      Residue16(c * 20 + g, r * wpb);
    } else {
      Residue16(c * 20 + 2 * g, 0);
      Residue64(c, g);
    }
  }

  /** Behind a full group there is no room until the next one. */
  lemma GroupHasNoRoom(wpb: nat, c: nat, g: nat)
    requires 0 < wpb <= MAX_WARP_NUM_BLOCK
    ensures NoRoom(wpb, Base(wpb, c, g) + PerGroup(wpb) * wpb, Base(wpb, c, g) + Width(wpb) * WARP_PER_SUBCORE)
  {
    forall p: nat | Base(wpb, c, g) + PerGroup(wpb) * wpb <= p < Base(wpb, c, g) + Width(wpb) * WARP_PER_SUBCORE
      ensures !Fits(wpb, p)
    {
      NoFit(wpb, c * 20 + Width(wpb) * g, p - Base(wpb, c, g));
    }
  }

  lemma NoFit(wpb: nat, a: nat, o: nat)
    requires 0 < wpb <= MAX_WARP_NUM_BLOCK && PerGroup(wpb) * wpb <= o < Width(wpb) * WARP_PER_SUBCORE
    ensures !Fits(wpb, a * 16 + o)
  {
    if OneSubcore(wpb) {
      assert (PerGroup(wpb) + 1) * wpb == PerGroup(wpb) * wpb + wpb;
      Residue16(a, o);
    } else {
      assert a * 16 + o == (a + 1) * 16 + (o - 16);
      Residue16(a + 1, o - 16);
    }
  }

  /** The next place of the same cluster. */
  lemma NextInCluster(wpb: nat, k: nat)
    requires 0 < wpb <= MAX_WARP_NUM_BLOCK && k % PerCluster(wpb) + 1 < PerCluster(wpb)
    ensures ClusterOf(wpb, k + 1) == ClusterOf(wpb, k)
    ensures if PlaceOf(wpb, k) + 1 < PerGroup(wpb) then GroupOf(wpb, k + 1) == GroupOf(wpb, k) && PlaceOf(wpb, k + 1) == PlaceOf(wpb, k) + 1
            else GroupOf(wpb, k + 1) == GroupOf(wpb, k) + 1 && PlaceOf(wpb, k + 1) == 0
  {
    var c, g, r, n, m := ClusterOf(wpb, k), GroupOf(wpb, k), PlaceOf(wpb, k), PerGroup(wpb), PerCluster(wpb);
    PositionDecodes(wpb, k);
    SamePlace(k, m, c, g * n + r);
    if r + 1 < n {
      PositionUnique(wpb, c, g, r + 1, k + 1);
    } else {
      NextGroup(g, g + 1, n);
      PositionUnique(wpb, c, g + 1, 0, k + 1);
    }
  }

  lemma SamePlace(k: nat, m: nat, c: nat, j: int)
    requires m > 0 && c == k / m && k == c * m + j
    ensures j == k % m
  {
    TwoDigits(k, m);
  }

  lemma StepInCluster(wpb: nat, k: nat)
    requires 0 < wpb <= MAX_WARP_NUM_BLOCK && k % PerCluster(wpb) + 1 < PerCluster(wpb)
    ensures StartAt(wpb, k) + wpb <= StartAt(wpb, k + 1) && NoRoom(wpb, StartAt(wpb, k) + wpb, StartAt(wpb, k + 1))
  {
    NextInCluster(wpb, k);
    PositionDecodes(wpb, k);
    StepFrom(wpb, ClusterOf(wpb, k), GroupOf(wpb, k), PlaceOf(wpb, k));
  }

  /** The next place of a group, or the next group. */
  lemma StepFrom(wpb: nat, c: nat, g: nat, r: nat)
    requires 0 < wpb <= MAX_WARP_NUM_BLOCK && r < PerGroup(wpb)
    ensures var end := Base(wpb, c, g) + r * wpb + wpb;
      if r + 1 < PerGroup(wpb) then end == Base(wpb, c, g) + (r + 1) * wpb
      else end <= Base(wpb, c, g + 1) && NoRoom(wpb, end, Base(wpb, c, g + 1))
  {
    NextGroup(r, r + 1, wpb);
    if r + 1 == PerGroup(wpb) {
      GroupHasNoRoom(wpb, c, g);
      GroupRoom(wpb);
      NextBase(wpb, c, g);
    }
  }

  lemma NextBase(wpb: nat, c: nat, g: nat)
    ensures Base(wpb, c, g + 1) == Base(wpb, c, g) + Width(wpb) * WARP_PER_SUBCORE
  {
  }

  lemma GroupRoom(wpb: nat)
    requires 0 < wpb <= MAX_WARP_NUM_BLOCK
    ensures PerGroup(wpb) * wpb <= Width(wpb) * WARP_PER_SUBCORE
  {
  }

  /** The last place of a cluster. */
  lemma LastInCluster(wpb: nat, k: nat)
    requires 0 < wpb <= MAX_WARP_NUM_BLOCK && k % PerCluster(wpb) + 1 == PerCluster(wpb)
    ensures var next := (ClusterOf(wpb, k) + 1) * CLUSTER_SLOTS;
      && StartAt(wpb, k) + wpb <= next
      && (PerCluster(wpb) < CTA_NUM ==> NoRoom(wpb, StartAt(wpb, k) + wpb, next))
  {
    var c, g, r, n, groups := ClusterOf(wpb, k), GroupOf(wpb, k), PlaceOf(wpb, k), PerGroup(wpb), GroupsPerCluster(wpb);
    PositionDecodes(wpb, k);
    GroupRoom(wpb);
    MulLe(r + 1, n, wpb);
    assert (r + 1) * wpb == r * wpb + wpb;
    ClusterBase(wpb, c, g);
    if PerCluster(wpb) < CTA_NUM {
      TwoDigits(k % PerCluster(wpb), n);
      LastPlace(groups, n, g, r);
      GroupHasNoRoom(wpb, c, g);
    }
  }

  lemma ClusterBase(wpb: nat, c: nat, g: nat)
    requires g < GroupsPerCluster(wpb)
    ensures Base(wpb, c, g) + Width(wpb) * WARP_PER_SUBCORE <= (c + 1) * CLUSTER_SLOTS
    ensures g == GroupsPerCluster(wpb) - 1 ==> Base(wpb, c, g) + Width(wpb) * WARP_PER_SUBCORE == (c + 1) * CLUSTER_SLOTS
  {
  }

  lemma LastPlace(groups: nat, n: nat, g: nat, r: nat)
    requires g < groups && r < n && g * n + r + 1 == groups * n
    ensures g == groups - 1 && r == n - 1
  {
    if g + 1 < groups { MulLe(g + 2, groups, n); }
    assert (g + 1) * n == g * n + n;
  }

  lemma ClusterBegins(wpb: nat, k: nat)
    requires 0 < wpb <= MAX_WARP_NUM_BLOCK && k % PerCluster(wpb) + 1 == PerCluster(wpb)
    ensures StartAt(wpb, k + 1) == (ClusterOf(wpb, k) + 1) * CLUSTER_SLOTS
  {
    var c, m := ClusterOf(wpb, k), PerCluster(wpb);
    TwoDigits(k, m);
    assert (c + 1) * m == c * m + m;
    PositionUnique(wpb, c + 1, 0, 0, k + 1);
  }

  lemma FullIff(wpb: nat, blocks: seq<Placed>)
    requires blocks != [] && forall k :: 0 <= k < |blocks| ==> blocks[k].cluster == ClusterOf(wpb, k)
    ensures var k := |blocks| - 1;
      Full(blocks) <==> k % PerCluster(wpb) + 1 == PerCluster(wpb) == CTA_NUM
  {
    var k, m := |blocks| - 1, PerCluster(wpb);
    BlocksInCluster(wpb, blocks, ClusterOf(wpb, k));
    TwoDigits(k, m);
  }

  /** What matters of the blocks: where they start. */
  ghost predicate AtStarts(wpb: nat, blocks: seq<Placed>) {
    forall j :: 0 <= j < |blocks| ==> StartOf(blocks[j]) == StartAt(wpb, j) && blocks[j].cluster == ClusterOf(wpb, j)
  }

  lemma FollowsAt(wpb: nat, blocks: seq<Placed>, k: nat)
    requires 0 < wpb <= MAX_WARP_NUM_BLOCK && 0 < k < |blocks| && AtStarts(wpb, blocks)
    ensures Follows(wpb, blocks, k)
  {
    StartFits(wpb, k);
    PrefixFull(wpb, blocks, k);
    NextStart(wpb, k - 1);
    FollowsFrom(wpb, blocks, k, StartAt(wpb, k - 1), StartAt(wpb, k), ClusterOf(wpb, k - 1), LastOfFull(wpb, k - 1));
  }

  /** Block `k` is the last one that its cluster may hold. */
  predicate LastOfFull(wpb: nat, k: nat) { k % PerCluster(wpb) + 1 == PerCluster(wpb) == CTA_NUM }

  lemma FollowsFrom(wpb: nat, blocks: seq<Placed>, k: nat, a: nat, b: nat, c: nat, full: bool)
    requires 0 < k < |blocks| && StartOf(blocks[k - 1]) == a && StartOf(blocks[k]) == b && blocks[k - 1].cluster == c
    requires (Full(blocks[..k]) <==> full) && Fits(wpb, b) && a + wpb <= b
    requires if full then b == (c + 1) * CLUSTER_SLOTS else NoRoom(wpb, a + wpb, b)
    ensures Follows(wpb, blocks, k)
  {
  }

  lemma PrefixFull(wpb: nat, blocks: seq<Placed>, k: nat)
    requires 0 < k <= |blocks| && AtStarts(wpb, blocks)
    ensures blocks[k - 1].cluster == ClusterOf(wpb, k - 1)
    ensures Full(blocks[..k]) <==> LastOfFull(wpb, k - 1)
  {
    FullIff(wpb, blocks[..k]);
  }

  /** From one block to the next, by what is left of the cluster. */
  lemma NextStart(wpb: nat, k: nat)
    requires 0 < wpb <= MAX_WARP_NUM_BLOCK
    ensures var end, start := StartAt(wpb, k) + wpb, StartAt(wpb, k + 1);
      && end <= start
      && if LastOfFull(wpb, k) then start == (ClusterOf(wpb, k) + 1) * CLUSTER_SLOTS
         else NoRoom(wpb, end, start)
  {
    TwoDigits(k, PerCluster(wpb));
    if k % PerCluster(wpb) + 1 < PerCluster(wpb) {
      StepInCluster(wpb, k);
    } else {
      LastInCluster(wpb, k);
      ClusterBegins(wpb, k);
    }
  }

  lemma LastUsesUp(wpb: nat, blocks: seq<Placed>)
    requires 0 < wpb <= MAX_WARP_NUM_BLOCK && |blocks| == CLUSTER_NUM * PerCluster(wpb) && AtStarts(wpb, blocks)
    ensures UsedUp(wpb, blocks)
  {
    var k, m := |blocks| - 1, PerCluster(wpb);
    assert k == (CLUSTER_NUM - 1) * m + (m - 1);
    DivUnique(k, m, CLUSTER_NUM - 1, m - 1);
    FullIff(wpb, blocks);
    LastInCluster(wpb, k);
  }

  /** Blocks that are where the closed form puts them are packed. */
  lemma ClosedFormIsPacked(grid: Triplet, wpb: nat, blocks: seq<Placed>, left: nat)
    requires wpb <= MAX_WARP_NUM_BLOCK && (blocks != [] ==> grid.x >= 1 && grid.y >= 1)
    requires forall j :: 0 <= j < |blocks| ==> blocks[j] == BlockAt(grid, wpb, j)
    requires left > 0 ==> grid.x >= 1 && grid.y >= 1 && |blocks| == CLUSTER_NUM * PerCluster(wpb)
    ensures Packed(wpb, blocks, left)
  {
    if wpb > 0 {
      forall k | 0 <= k < |blocks|
        ensures Occupies(blocks[k], wpb, StartOf(blocks[k])) && StartOf(blocks[k]) == StartAt(wpb, k)
        ensures blocks[k].cluster == ClusterOf(wpb, k)
      {
        OccupiesAt(grid, wpb, k);
      }
      forall k | 0 < k < |blocks|
        ensures Follows(wpb, blocks, k)
      {
        FollowsAt(wpb, blocks, k);
      }
      if left > 0 { LastUsesUp(wpb, blocks); }
      PositionUnique(wpb, 0, 0, 0, 0);
    } else {
      forall k | 0 <= k < |blocks|
        ensures blocks[k].slots == [] && blocks[k].core == 0 && blocks[k].cluster == k / CTA_NUM
      {
        assert k % CTA_NUM < CTA_NUM && (k % CTA_NUM) / CTA_NUM == 0;
      }
    }
  }
}
