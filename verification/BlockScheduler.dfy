/** The initial placement loops of BlockScheduler::SchedulerMode1 (lines 104-204), loop for loop, proved
    to place exactly the blocks of the closed form. */
module BlockSchedulers {
  import opened Common
  import opened PlacementSpec
  import opened PlacementPacking

  class BlockScheduler {
    const grid: Triplet          // param.nctaid
    const warpsPerBlock: nat
    const total: nat             // n_blocks on entry
    var nBlocks: nat
    var ctaid: Triplet
    var blocks: seq<Placed>
    var warp: map<Slot, (nat, nat)>  // which warp of which block was put in a slot last

    ghost predicate Valid()
      reads this
    {
      && warpsPerBlock <= MAX_WARP_NUM_BLOCK
      && total == (grid.x * grid.y * grid.z) % UINT32
      && (total > 0 ==> grid.x >= 1 && grid.y >= 1)
      && nBlocks + |blocks| == total
      && (total > 0 ==> ctaid == CtaidAt(grid, |blocks|))
      && (forall k :: 0 <= k < |blocks| ==> total > 0 && blocks[k] == BlockAt(grid, warpsPerBlock, k))
      && Warps(|blocks|, 0)
    }

    /** The slots written are those of the first `p` blocks and of the first `q` warps of block `p`,
        and each still holds the warp first put there. */
    ghost predicate Warps(p: nat, q: nat)
      reads this
    {
      && (forall k: nat, w: nat {:trigger SlotOf(warpsPerBlock, k, w)} :: WasPut(k, w, p, q) ==>
           SlotOf(warpsPerBlock, k, w) in warp && warp[SlotOf(warpsPerBlock, k, w)] == (k, w))
      && (forall s :: s in warp ==> WasPut(warp[s].0, warp[s].1, p, q) && SlotOf(warpsPerBlock, warp[s].0, warp[s].1) == s)
    }

    predicate WasPut(k: nat, w: nat, p: nat, q: nat)
      reads this
    {
      w < warpsPerBlock && (k < p || (k == p && w < q))
    }

    constructor (grid: Triplet, warpsPerBlock: nat)
      requires warpsPerBlock <= MAX_WARP_NUM_BLOCK
      ensures Valid() && blocks == [] && this.grid == grid && this.warpsPerBlock == warpsPerBlock
    {
      this.grid, this.warpsPerBlock := grid, warpsPerBlock;
      total := (grid.x * grid.y * grid.z) % UINT32;
      nBlocks := (grid.x * grid.y * grid.z) % UINT32;
      ctaid := Triplet(0, 0, 0);
      blocks, warp := [], map[];
      new;
      ZeroVolume(grid);
      if total > 0 { CtaidUnique(grid, 0, 0, 0, 0); }
    }

    /** Puts warp `w` of the block being placed in its slot. */
    method PutWarp(s: Slot, w: nat)
      requires warpsPerBlock <= MAX_WARP_NUM_BLOCK && w < warpsPerBlock
      requires Warps(|blocks|, w) && s == SlotOf(warpsPerBlock, |blocks|, w)
      modifies this`warp
      ensures Warps(|blocks|, w + 1)
      ensures s !in old(warp)
    {
      if s in warp { SlotsDistinct(warpsPerBlock, warp[s].0, warp[s].1, |blocks|, w); }
      forall k: nat, v: nat | WasPut(k, v, |blocks|, w)
        ensures SlotOf(warpsPerBlock, k, v) != s
      {
        SlotsDiffer(warpsPerBlock, k, v, |blocks|, w);
      }
      warp := warp[s := (|blocks|, w)];
    }

    /** Records the block and moves to the next one (lines 132-149). */
    method FinishBlock(block: Placed)
      requires nBlocks > 0 && grid.x >= 1 && grid.y >= 1
      requires block == BlockAt(grid, warpsPerBlock, |blocks|) && ctaid == CtaidAt(grid, |blocks|)
      requires warpsPerBlock <= MAX_WARP_NUM_BLOCK && total == (grid.x * grid.y * grid.z) % UINT32
      requires nBlocks + |blocks| == total
      requires forall k :: 0 <= k < |blocks| ==> blocks[k] == BlockAt(grid, warpsPerBlock, k)
      requires Warps(|blocks|, warpsPerBlock)
      modifies this`blocks, this`ctaid, this`nBlocks
      ensures Valid() && blocks == old(blocks) + [block]
    {
      OdometerSteps(grid, |blocks|);
      WarpsNext(|blocks|);
      blocks := blocks + [block];
      ctaid := ctaid.(x := ctaid.x + 1);
      if ctaid.x == grid.x { ctaid := ctaid.(x := 0, y := ctaid.y + 1); }
      if ctaid.y == grid.y { ctaid := ctaid.(y := 0, z := ctaid.z + 1); }
      nBlocks := nBlocks - 1;
    }

    lemma WarpsNext(p: nat)
      requires Warps(p, warpsPerBlock)
      ensures Warps(p + 1, 0)
    {
    }

    ghost predicate At(c: nat, g: nat, r: nat, running: nat)
      reads this
    {
      Valid() && Reached(total, warpsPerBlock, |blocks|, nBlocks, running, c, g, r)
    }

    /** `n` warps of the block being placed go to consecutive slots of one subcore (lines 126-131 and 166-171). */
    method PutWarps(c: nat, core: nat, sub: nat, base: nat, first: nat, n: nat, before: seq<Slot>) returns (slots: seq<Slot>)
      requires warpsPerBlock <= MAX_WARP_NUM_BLOCK && first + n <= warpsPerBlock
      requires Warps(|blocks|, first)
      requires forall v :: first <= v < first + n ==> SlotOf(warpsPerBlock, |blocks|, v) == Slot(c, core, sub, base + v - first)
      requires |before| == first && forall v :: 0 <= v < first ==> before[v] == SlotOf(warpsPerBlock, |blocks|, v)
      modifies this`warp
      ensures Warps(|blocks|, first + n)
      ensures |slots| == first + n && forall v :: 0 <= v < first + n ==> slots[v] == SlotOf(warpsPerBlock, |blocks|, v)
    {
      slots := before;
      var warpIndex := 0;
      while warpIndex < n
        invariant 0 <= warpIndex <= n
        invariant Warps(|blocks|, first + warpIndex)
        invariant |slots| == first + warpIndex
        invariant forall v :: 0 <= v < first + warpIndex ==> slots[v] == SlotOf(warpsPerBlock, |blocks|, v)
      {
        var s := Slot(c, core, sub, base + warpIndex);
        PutWarp(s, first + warpIndex);
        slots := slots + [s];
        warpIndex := warpIndex + 1;
      }
    }

    /** Lines 122-149: one block in one subcore. */
    method PlaceInSubcore(c: nat, core: nat, sub: nat, blockIndex: nat, running: nat)
      requires sub < SUBCORE_PER_CORE && OneSubcore(warpsPerBlock)
      requires core * 4 + sub < GroupsPerCluster(warpsPerBlock) && blockIndex < PerGroup(warpsPerBlock)
      requires At(c, core * 4 + sub, blockIndex, running) && nBlocks > 0 && running < CTA_NUM
      modifies this`warp, this`blocks, this`ctaid, this`nBlocks
      ensures At(c, core * 4 + sub, blockIndex + 1, running + 1)
      ensures nBlocks == old(nBlocks) - 1
    {
      NextPlace(total, warpsPerBlock, |blocks|, nBlocks, running, c, core * 4 + sub, blockIndex);
      var slots := PutWarps(c, core, sub, blockIndex * warpsPerBlock, 0, warpsPerBlock, []);
      FinishBlock(Placed(ctaid, c, core, slots));
    }

    /** Lines 117-151. */
    method FillSubcore(c: nat, core: nat, sub: nat, running0: nat) returns (running: nat)
      requires sub < SUBCORE_PER_CORE && OneSubcore(warpsPerBlock) && core * 4 + sub < GroupsPerCluster(warpsPerBlock)
      requires At(c, core * 4 + sub, 0, running0) && nBlocks > 0 && running0 < CTA_NUM
      modifies this`warp, this`blocks, this`ctaid, this`nBlocks
      ensures At(c, core * 4 + sub + 1, 0, running)
    {
      ghost var g := core * 4 + sub;
      running := running0;
      var blockIndex, warpNumTemp := 0, WARP_PER_SUBCORE;
      while warpNumTemp >= warpsPerBlock && running < CTA_NUM
        invariant At(c, g, blockIndex, running) && nBlocks > 0
        invariant blockIndex <= PerGroup(warpsPerBlock)
        invariant warpNumTemp == WARP_PER_SUBCORE - blockIndex * warpsPerBlock
        decreases CTA_NUM - running
      {
        RunningOffset(total, warpsPerBlock, |blocks|, nBlocks, running, c, g, blockIndex);
        RoomLeft(warpsPerBlock, blockIndex);
        assert (blockIndex + 1) * warpsPerBlock == blockIndex * warpsPerBlock + warpsPerBlock;
        PlaceInSubcore(c, core, sub, blockIndex, running);
        blockIndex := blockIndex + 1;
        warpNumTemp := warpNumTemp - warpsPerBlock;
        running := running + 1;
        if nBlocks <= 0 { break; }
      }
      if nBlocks > 0 && running < CTA_NUM { RoomOut(warpsPerBlock, blockIndex); }
      GroupDone(total, warpsPerBlock, |blocks|, nBlocks, running, c, g, blockIndex);
    }

    /** Lines 160-183: the warps of one block over as many subcores as it needs, from `sub0` on; `sub` is
        the last one used. */
    method PutOverSubcores(c: nat, core: nat, sub0: nat) returns (slots: seq<Slot>, sub: nat)
      requires sub0 < SUBCORE_PER_CORE && sub0 % 2 == 0 && !OneSubcore(warpsPerBlock) && warpsPerBlock <= MAX_WARP_NUM_BLOCK
      requires ClusterOf(warpsPerBlock, |blocks|) == c && GroupOf(warpsPerBlock, |blocks|) == core * 2 + sub0 / 2
      requires Warps(|blocks|, 0)
      modifies this`warp
      ensures Warps(|blocks|, warpsPerBlock) && sub == sub0 + 1
      ensures |slots| == warpsPerBlock && forall v :: 0 <= v < |slots| ==> slots[v] == SlotOf(warpsPerBlock, |blocks|, v)
    {
      slots, sub := [], sub0;
      var remainingWarps, coreIndex := warpsPerBlock, 0;
      while remainingWarps > 0 && sub < SUBCORE_PER_CORE
        invariant 0 <= remainingWarps <= warpsPerBlock
        invariant remainingWarps > 0 ==> remainingWarps == warpsPerBlock - 16 * coreIndex && sub == sub0 + coreIndex && coreIndex <= 1
        invariant remainingWarps == 0 ==> sub == sub0 + 1
        invariant Warps(|blocks|, warpsPerBlock - remainingWarps)
        invariant |slots| == warpsPerBlock - remainingWarps
        invariant forall v :: 0 <= v < |slots| ==> slots[v] == SlotOf(warpsPerBlock, |blocks|, v)
      {
        var warpsToUse := if remainingWarps < WARP_PER_SUBCORE then remainingWarps else WARP_PER_SUBCORE;
        SpanSlots(warpsPerBlock, |blocks|, c, core, sub0 / 2, coreIndex, warpsToUse);
        slots := PutWarps(c, core, sub, 0, coreIndex * WARP_PER_SUBCORE, warpsToUse, slots);
        remainingWarps := remainingWarps - warpsToUse;
        if remainingWarps > 0 { sub := sub + 1; }
        coreIndex := coreIndex + 1;
      }
    }

    /** Lines 153-199: one block over several subcores. */
    method SpanSubcores(c: nat, core: nat, sub0: nat, running: nat) returns (sub: nat)
      requires sub0 < SUBCORE_PER_CORE && sub0 % 2 == 0 && !OneSubcore(warpsPerBlock)
      requires core * 2 + sub0 / 2 < GroupsPerCluster(warpsPerBlock)
      requires At(c, core * 2 + sub0 / 2, 0, running) && nBlocks > 0 && running < CTA_NUM
      modifies this`warp, this`blocks, this`ctaid, this`nBlocks
      ensures sub == sub0 + 1
      ensures At(c, core * 2 + sub0 / 2 + 1, 0, running + 1)
    {
      ghost var g := core * 2 + sub0 / 2;
      NextPlace(total, warpsPerBlock, |blocks|, nBlocks, running, c, g, 0);
      GroupDone(total, warpsPerBlock, |blocks| + 1, nBlocks - 1, running + 1, c, g, 1);
      var slots;
      slots, sub := PutOverSubcores(c, core, sub0);
      FinishBlock(Placed(ctaid, c, core, slots));
    }

    /** Lines 114-200: one subcore, or one block over several; `sub` is the last subcore used. */
    method PlaceInGroup(c: nat, core: nat, sub0: nat, running0: nat, ghost g: nat) returns (sub: nat, running: nat)
      requires sub0 == GroupWidth() * g && sub0 < SUBCORE_PER_CORE && core < CORE_PER_CLUSTER
      requires At(c, core * GroupsPerCore(warpsPerBlock) + g, 0, running0) && nBlocks > 0 && running0 < CTA_NUM
      modifies this`warp, this`blocks, this`ctaid, this`nBlocks
      ensures sub == sub0 + GroupWidth() - 1
      ensures At(c, core * GroupsPerCore(warpsPerBlock) + g + 1, 0, running)
    {
      sub, running := sub0, running0;
      if WARP_PER_SUBCORE >= warpsPerBlock {
        running := FillSubcore(c, core, sub, running);
      } else {
        sub := SpanSubcores(c, core, sub, running);
        running := running + 1;
      }
    }

    /** Subcores per group. */
    function GroupWidth(): (k: nat)
      ensures k == 1 || k == 2
    {
      if OneSubcore(warpsPerBlock) then 1 else 2
    }

    /** Lines 112-202: the subcores of one core. */
    method PlaceInCore(c: nat, core: nat, running0: nat) returns (running: nat)
      requires core < CORE_PER_CLUSTER
      requires At(c, core * GroupsPerCore(warpsPerBlock), 0, running0) && nBlocks > 0 && running0 < CTA_NUM
      modifies this`warp, this`blocks, this`ctaid, this`nBlocks
      ensures At(c, (core + 1) * GroupsPerCore(warpsPerBlock), 0, running)
    {
      running := running0;
      var sub := 0;
      ghost var g := 0;
      while sub < SUBCORE_PER_CORE && nBlocks > 0 && running < CTA_NUM
        invariant 0 <= sub <= SUBCORE_PER_CORE && sub == GroupWidth() * g
        invariant At(c, core * GroupsPerCore(warpsPerBlock) + g, 0, running)
      {
        sub, running := PlaceInGroup(c, core, sub, running, g);
        sub := sub + 1;
        g := g + 1;
      }
      SkipGroups(total, warpsPerBlock, |blocks|, nBlocks, running, c, core * GroupsPerCore(warpsPerBlock) + g, (core + 1) * GroupsPerCore(warpsPerBlock));
    }

    /** Lines 106-203: the cores of one cluster. */
    method PlaceInCluster(c: nat)
      requires c < CLUSTER_NUM && Valid() && nBlocks > 0 && |blocks| == Upto(total, warpsPerBlock, c, 0, 0)
      modifies this`warp, this`blocks, this`ctaid, this`nBlocks
      ensures Valid() && |blocks| == Upto(total, warpsPerBlock, c + 1, 0, 0)
    {
      ClusterStart(total, warpsPerBlock, |blocks|, nBlocks, c);
      var running: nat, core: nat := 0, 0;
      ghost var done: nat := 0;
      while core < CORE_PER_CLUSTER && nBlocks > 0 && running < CTA_NUM
        invariant 0 <= core <= CORE_PER_CLUSTER
        invariant done == core * GroupsPerCore(warpsPerBlock)
        invariant At(c, done, 0, running)
      {
        running := PlaceInCore(c, core, running);
        core := core + 1;
        done := core * GroupsPerCore(warpsPerBlock);
      }
      GroupsBefore(warpsPerBlock, core);
      SkipGroups(total, warpsPerBlock, |blocks|, nBlocks, running, c, done, GroupsPerCluster(warpsPerBlock));
      ClusterEnd(total, warpsPerBlock, c);
    }

    /** Lines 104-204.  Exactly as many blocks are placed as there are, or as the chip holds under the
        limit of cta_num per cluster; block k is where and what the closed form says; and every slot
        still holds the one warp that was put there. */
    method PlaceInitial()
      requires Valid() && blocks == []
      modifies this`warp, this`blocks, this`ctaid, this`nBlocks
      ensures Valid()
      ensures |blocks| == Min(total, CLUSTER_NUM * PerCluster(warpsPerBlock))
      ensures nBlocks + |blocks| == total
      ensures SafelyPlaced(grid, warpsPerBlock, blocks)
      ensures Packed(warpsPerBlock, blocks, nBlocks)
      ensures forall k, w :: 0 <= k < |blocks| && 0 <= w < warpsPerBlock ==>
        blocks[k].slots[w] in warp && warp[blocks[k].slots[w]] == (k, w)
      ensures forall k :: 0 <= k < |blocks| ==> grid.x >= 1 && grid.y >= 1 && blocks[k].ctaid == CtaidAt(grid, k)
    {
      var cluster := 0;
      while cluster < CLUSTER_NUM && nBlocks > 0
        invariant 0 <= cluster <= CLUSTER_NUM
        invariant Valid() && |blocks| == Upto(total, warpsPerBlock, cluster, 0, 0)
      {
        PlaceInCluster(cluster);
        cluster := cluster + 1;
      }
      MulLe(cluster, CLUSTER_NUM, PerCluster(warpsPerBlock));
      AllSafe();
      ClosedFormIsPacked(grid, warpsPerBlock, blocks, nBlocks);
      WarpsInPlace();
    }

    lemma WarpsInPlace()
      requires Valid()
      ensures forall k, w :: 0 <= k < |blocks| && 0 <= w < warpsPerBlock ==>
        blocks[k].slots[w] in warp && warp[blocks[k].slots[w]] == (k, w)
    {
      forall k, w | 0 <= k < |blocks| && 0 <= w < warpsPerBlock
        ensures blocks[k].slots[w] in warp && warp[blocks[k].slots[w]] == (k, w)
      {
        assert blocks[k].slots[w] == SlotOf(warpsPerBlock, k, w) && WasPut(k, w, |blocks|, 0);
      }
    }

    lemma AllSafe()
      requires Valid() && |blocks| <= CLUSTER_NUM * PerCluster(warpsPerBlock)
      ensures SafelyPlaced(grid, warpsPerBlock, blocks)
    {
      VolumeBound(grid.x * grid.y * grid.z);
      PlacedSafely(grid, warpsPerBlock, blocks);
    }
  }

  lemma VolumeBound(volume: nat)
    ensures volume % UINT32 <= volume
  {
  }
}
