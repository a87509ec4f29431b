/** Where SchedulerMode1 puts the k-th block of a kernel, in closed form, and why that is safe. */
module PlacementSpec {
  import opened Common

  // header.h
  const CLUSTER_NUM := 16
  const CORE_PER_CLUSTER := 5
  const SUBCORE_PER_CORE := 4
  const WARP_PER_SUBCORE := 16
  const MAX_WARP_NUM_BLOCK := 32
  const CTA_NUM := 32
  const UINT32 := 0x1_0000_0000

  datatype Triplet = Triplet(x: nat, y: nat, z: nat)

  /** One warp slot of the chip. */
  datatype Slot = Slot(cluster: nat, core: nat, subcore: nat, index: nat)

  /** A placed block: its coordinates in the grid, its core and the slots of its warps in order. */
  datatype Placed = Placed(ctaid: Triplet, cluster: nat, core: nat, slots: seq<Slot>)

  // ---------- arithmetic ----------

  lemma DivUnique(a: int, m: int, q: int, r: int)
    requires 0 <= r < m && a == q * m + r
    ensures a / m == q && a % m == r
  {
    var d := a / m - q;
    assert (a / m) * m + a % m == a;
    assert d * m == (a / m) * m - q * m;
    SmallMultiple(d, m);
  }

  lemma SmallMultiple(d: int, m: int)
    requires -m < d * m < m
    ensures d == 0
  {
    if d >= 1 { MulLe(1, d, m); }
    if d <= -1 { MulLe(d, -1, m); }
  }

  lemma MulLe(a: int, b: int, m: int)
    requires a <= b && 0 <= m
    ensures a * m <= b * m
  {
  }

  lemma TwoDigits(a: nat, m: nat)
    requires m > 0
    ensures a == (a / m) * m + a % m && 0 <= a % m < m
  {
  }

  // ---------- the odometer ----------

  /** The k-th coordinates in the order x fastest, then y, then z. */
  function CtaidAt(grid: Triplet, k: nat): Triplet
    requires grid.x >= 1 && grid.y >= 1
  {
    Triplet(k % grid.x, (k / grid.x) % grid.y, k / (grid.x * grid.y))
  }

  /** Lines 137-147. */
  function NextCtaid(grid: Triplet, c: Triplet): Triplet {
    var c1 := c.(x := c.x + 1);
    var c2 := if c1.x == grid.x then c1.(x := 0, y := c1.y + 1) else c1;
    if c2.y == grid.y then c2.(y := 0, z := c2.z + 1) else c2
  }

  lemma DivTwice(k: nat, a: nat, b: nat)
    requires a >= 1 && b >= 1
    ensures a * b >= 1 && k / (a * b) == (k / a) / b
  {
    MulLe(1, a, b);
    TwoDigits(k, a);
    TwoDigits(k / a, b);
    var x, y, z := k % a, (k / a) % b, (k / a) / b;
    MulLe(y + 1, b, a);
    assert (y + 1) * a == y * a + a;
    assert (z * b + y) * a == z * (b * a) + y * a;
    assert b * a == a * b;
    DivUnique(k, a * b, z, y * a + x);
  }

  /** A position is rebuilt from its coordinates. */
  lemma CtaidDecodes(grid: Triplet, k: nat)
    requires grid.x >= 1 && grid.y >= 1
    ensures var c := CtaidAt(grid, k);
      && c.x < grid.x && c.y < grid.y && c.z == (k / grid.x) / grid.y
      && k == c.x + grid.x * (c.y + grid.y * c.z)
  {
    DivTwice(k, grid.x, grid.y);
    TwoDigits(k, grid.x);
    TwoDigits(k / grid.x, grid.y);
    Commute(grid.x, k / grid.x);
    Commute(grid.y, (k / grid.x) / grid.y);
  }

  lemma Commute(a: int, b: int)
    ensures a * b == b * a
  {
  }

  lemma CtaidUnique(grid: Triplet, k: nat, x: nat, y: nat, z: nat)
    requires grid.x >= 1 && grid.y >= 1 && x < grid.x && y < grid.y
    requires k == x + grid.x * (y + grid.y * z)
    ensures CtaidAt(grid, k) == Triplet(x, y, z)
  {
    DivTwice(k, grid.x, grid.y);
    TwoSteps(k, grid.x, grid.y, x, y + grid.y * z, y, z);
  }

  lemma TwoSteps(k: nat, a: nat, b: nat, x: nat, r: nat, y: nat, z: nat)
    requires x < a && y < b && k == x + a * r && r == y + b * z
    ensures k % a == x && k / a == r && r % b == y && r / b == z
  {
    Commute(a, r);
    Commute(b, z);
    DivUnique(k, a, r, x);
    DivUnique(r, b, z, y);
  }

  /** The odometer steps from each position to the next. */
  lemma OdometerSteps(grid: Triplet, k: nat)
    requires grid.x >= 1 && grid.y >= 1
    ensures NextCtaid(grid, CtaidAt(grid, k)) == CtaidAt(grid, k + 1)
  {
    CtaidDecodes(grid, k);
    var c := CtaidAt(grid, k);
    var n := NextCtaid(grid, c);
    Carries(grid, c);
    CtaidUnique(grid, k + 1, n.x, n.y, n.z);
  }

  /** Read as a number with the digits x, y, z, the next coordinates are one more. */
  function Number(grid: Triplet, c: Triplet): int { c.x + grid.x * (c.y + grid.y * c.z) }

  lemma Carries(grid: Triplet, c: Triplet)
    requires c.x < grid.x && c.y < grid.y
    ensures var n := NextCtaid(grid, c);
      n.x < grid.x && n.y < grid.y && Number(grid, n) == Number(grid, c) + 1
  {
    if c.x + 1 == grid.x {
      CarryOne(grid.x, c.y + grid.y * c.z);
      if c.y + 1 == grid.y { CarryOne(grid.y, c.z); }
    }
  }

  lemma CarryOne(m: int, a: int)
    ensures m * (a + 1) == m * a + m
  {
  }

  /** Positions below the grid's volume lie inside the grid, and no two have the same coordinates. */
  lemma CtaidsInGridAndDistinct(grid: Triplet, j: nat, k: nat)
    requires j < grid.x * grid.y * grid.z && k < grid.x * grid.y * grid.z
    ensures grid.x >= 1 && grid.y >= 1
    ensures InGrid(grid, CtaidAt(grid, k))
    ensures j != k ==> CtaidAt(grid, j) != CtaidAt(grid, k)
  {
    ZeroVolume(grid);
    CtaidDecodes(grid, j);
    CtaidDecodes(grid, k);
    PlanesBefore(grid, k);
  }

  predicate InGrid(grid: Triplet, c: Triplet) { c.x < grid.x && c.y < grid.y && c.z < grid.z }

  lemma PlanesBefore(grid: Triplet, k: nat)
    requires grid.x >= 1 && grid.y >= 1 && k < grid.x * grid.y * grid.z
    ensures k / (grid.x * grid.y) < grid.z
  {
    var plane := grid.x * grid.y;
    assert plane >= 1 by { MulLe(1, grid.x, grid.y); }
    TwoDigits(k, plane);
    assert plane * grid.z == grid.z * plane;
    if k / plane >= grid.z { MulLe(grid.z, k / plane, plane); }
  }

  lemma ZeroVolume(grid: Triplet)
    ensures grid.x == 0 || grid.y == 0 ==> grid.x * grid.y * grid.z == 0
  {
  }

  // ---------- placement ----------

  /** Blocks one subcore holds at once.  A block without warps takes no room, so only the block limit counts. */
  function PerSubcore(wpb: nat): nat
    requires wpb <= WARP_PER_SUBCORE
  {
    if wpb == 0 then CTA_NUM else WARP_PER_SUBCORE / wpb
  }

  predicate OneSubcore(wpb: nat) { wpb <= WARP_PER_SUBCORE }

  /** The groups of subcores that blocks are placed in, and how many blocks go in one: single subcores,
      or the pairs that a block of more than 16 warps spans. */
  function GroupsPerCore(wpb: nat): nat { if OneSubcore(wpb) then SUBCORE_PER_CORE else SUBCORE_PER_CORE / 2 }

  function PerGroup(wpb: nat): (n: nat)
    ensures n >= 1
    ensures OneSubcore(wpb) && wpb > 0 ==> n * wpb <= WARP_PER_SUBCORE < (n + 1) * wpb
  {
    if OneSubcore(wpb) && wpb > 0 then
      PerSubcoreFits(wpb);
      PerSubcore(wpb)
    else if wpb == 0 then CTA_NUM else 1
  }

  lemma PerSubcoreFits(wpb: nat)
    requires 1 <= wpb <= WARP_PER_SUBCORE
    ensures var n := PerSubcore(wpb); n >= 1 && n * wpb <= WARP_PER_SUBCORE < (n + 1) * wpb
  {
    var n := WARP_PER_SUBCORE / wpb;
    assert n * wpb + WARP_PER_SUBCORE % wpb == WARP_PER_SUBCORE;
    assert (n + 1) * wpb == n * wpb + wpb;
    if n <= 0 { MulLe(n, 0, wpb); }
  }

  function GroupsPerCluster(wpb: nat): nat { CORE_PER_CLUSTER * GroupsPerCore(wpb) }

  /** Blocks one cluster receives when there are enough: what fits, but at most cta_num. */
  function PerCluster(wpb: nat): (n: nat)
    ensures 1 <= n <= CTA_NUM
  {
    Min(CTA_NUM, GroupsPerCluster(wpb) * PerGroup(wpb))
  }

  /** The slot of warp `w` of the block in place `r` of group `g` of a cluster. */
  function SlotIn(wpb: nat, cluster: nat, g: nat, r: nat, w: nat): Slot {
    if OneSubcore(wpb) then Slot(cluster, g / 4, g % 4, r * wpb + w)
    else Slot(cluster, g / 2, 2 * (g % 2) + w / 16, w % 16)
  }

  function SlotsIn(wpb: nat, cluster: nat, g: nat, r: nat, n: nat): (s: seq<Slot>)
    ensures |s| == n && forall w :: 0 <= w < n ==> s[w] == SlotIn(wpb, cluster, g, r, w)
  {
    if n == 0 then [] else SlotsIn(wpb, cluster, g, r, n - 1) + [SlotIn(wpb, cluster, g, r, n - 1)]
  }

  function ClusterOf(wpb: nat, k: nat): nat { k / PerCluster(wpb) }

  function GroupOf(wpb: nat, k: nat): nat { (k % PerCluster(wpb)) / PerGroup(wpb) }

  function PlaceOf(wpb: nat, k: nat): nat { (k % PerCluster(wpb)) % PerGroup(wpb) }

  /** The slot of warp `w` of the k-th block. */
  function SlotOf(wpb: nat, k: nat, w: nat): Slot {
    SlotIn(wpb, ClusterOf(wpb, k), GroupOf(wpb, k), PlaceOf(wpb, k), w)
  }

  /** The k-th block. */
  function BlockAt(grid: Triplet, wpb: nat, k: nat): Placed
    requires grid.x >= 1 && grid.y >= 1
  {
    Placed(CtaidAt(grid, k), ClusterOf(wpb, k), GroupOf(wpb, k) / GroupsPerCore(wpb),
           SlotsIn(wpb, ClusterOf(wpb, k), GroupOf(wpb, k), PlaceOf(wpb, k), wpb))
  }

  /** A position is rebuilt from where its block is placed. */
  lemma PositionDecodes(wpb: nat, k: nat)
    ensures k == ClusterOf(wpb, k) * PerCluster(wpb) + GroupOf(wpb, k) * PerGroup(wpb) + PlaceOf(wpb, k)
    ensures PlaceOf(wpb, k) < PerGroup(wpb) && GroupOf(wpb, k) < GroupsPerCluster(wpb)
  {
    var m, p := PerCluster(wpb), PerGroup(wpb);
    var j := k % m;
    TwoDigits(k, m);
    TwoDigits(j, p);
    if GroupOf(wpb, k) >= GroupsPerCluster(wpb) { MulLe(GroupsPerCluster(wpb), j / p, p); }
  }

  lemma PositionUnique(wpb: nat, cluster: nat, g: nat, r: nat, k: nat)
    requires r < PerGroup(wpb) && g * PerGroup(wpb) + r < PerCluster(wpb)
    requires k == cluster * PerCluster(wpb) + g * PerGroup(wpb) + r
    ensures ClusterOf(wpb, k) == cluster && GroupOf(wpb, k) == g && PlaceOf(wpb, k) == r
  {
    MulLe(0, g, PerGroup(wpb));
    DivUnique(k, PerCluster(wpb), cluster, g * PerGroup(wpb) + r);
    DivUnique(g * PerGroup(wpb) + r, PerGroup(wpb), g, r);
  }

  /** Every slot handed out exists on the chip, all slots of a block lie in its core, and a cluster gets
      at most cta_num blocks. */
  lemma SlotsExist(wpb: nat, k: nat, w: nat)
    requires w < wpb <= MAX_WARP_NUM_BLOCK && k < CLUSTER_NUM * PerCluster(wpb)
    ensures var s := SlotOf(wpb, k, w);
      && s.cluster == ClusterOf(wpb, k) < CLUSTER_NUM
      && s.core == GroupOf(wpb, k) / GroupsPerCore(wpb) < CORE_PER_CLUSTER
      && s.subcore < SUBCORE_PER_CORE && s.index < WARP_PER_SUBCORE
    ensures k % PerCluster(wpb) < CTA_NUM
  {
    PositionDecodes(wpb, k);
    if ClusterOf(wpb, k) >= CLUSTER_NUM { MulLe(CLUSTER_NUM, ClusterOf(wpb, k), PerCluster(wpb)); }
    SlotFits(wpb, ClusterOf(wpb, k), GroupOf(wpb, k), PlaceOf(wpb, k), w);
  }

  /** Cluster `c` gets one contiguous share of the blocks, never more than cta_num of them. */
  lemma ClusterShare(wpb: nat, k: nat, c: nat)
    ensures ClusterOf(wpb, k) == c <==> c * PerCluster(wpb) <= k < (c + 1) * PerCluster(wpb)
    ensures (c + 1) * PerCluster(wpb) - c * PerCluster(wpb) == PerCluster(wpb) <= CTA_NUM
  {
    var m, d := PerCluster(wpb), ClusterOf(wpb, k);
    TwoDigits(k, m);
    assert (c + 1) * m == c * m + m;
    if d < c { MulLe(d + 1, c, m); assert (d + 1) * m == d * m + m; }
    if c < d { MulLe(c + 1, d, m); }
  }

  lemma SlotFits(wpb: nat, cluster: nat, g: nat, r: nat, w: nat)
    requires w < wpb <= MAX_WARP_NUM_BLOCK && r < PerGroup(wpb) && g < GroupsPerCluster(wpb)
    ensures var s := SlotIn(wpb, cluster, g, r, w);
      && s.cluster == cluster && s.core == g / GroupsPerCore(wpb) < CORE_PER_CLUSTER
      && s.subcore < SUBCORE_PER_CORE && s.index < WARP_PER_SUBCORE
  {
    if OneSubcore(wpb) {
      MulLe(r + 1, PerGroup(wpb), wpb);
      assert (r + 1) * wpb == r * wpb + wpb;
    }
  }

  /** No slot is handed out twice: not to two blocks, and not to two warps of one block. */
  lemma SlotsDistinct(wpb: nat, j: nat, v: nat, k: nat, w: nat)
    requires v < wpb && w < wpb && wpb <= MAX_WARP_NUM_BLOCK
    requires SlotOf(wpb, j, v) == SlotOf(wpb, k, w)
    ensures j == k && v == w
  {
    PositionDecodes(wpb, j);
    PositionDecodes(wpb, k);
    if OneSubcore(wpb) {
      DivUnique(SlotOf(wpb, j, v).index, wpb, PlaceOf(wpb, j), v);
      DivUnique(SlotOf(wpb, k, w).index, wpb, PlaceOf(wpb, k), w);
    }
  }

  lemma SlotsDiffer(wpb: nat, j: nat, v: nat, k: nat, w: nat)
    requires v < wpb && w < wpb && wpb <= MAX_WARP_NUM_BLOCK && (j, v) != (k, w)
    ensures SlotOf(wpb, j, v) != SlotOf(wpb, k, w)
  {
    if SlotOf(wpb, j, v) == SlotOf(wpb, k, w) { SlotsDistinct(wpb, j, v, k, w); }
  }

  // ---------- counting ----------

  /** How many of `total` blocks are placed once the clusters before `c`, the groups before `g` of cluster
      `c` and `r` places of group `g` have had their turn. */
  function Upto(total: nat, wpb: nat, c: nat, g: nat, r: nat): int {
    Min(total, c * PerCluster(wpb) + Min(CTA_NUM, g * PerGroup(wpb) + r))
  }

  /** `n` blocks are placed, `left` are not, and curCoreRunningBlock is `running`, at that point. */
  predicate Reached(total: nat, wpb: nat, n: nat, left: nat, running: nat, c: nat, g: nat, r: nat) {
    ReachedAt(total, n, left, running, c * PerCluster(wpb), g * PerGroup(wpb) + r, GroupsPerCluster(wpb) * PerGroup(wpb))
  }

  /** The same, with `before` blocks in earlier clusters, `here` places of this one gone by, and `limit` places in it. */
  predicate ReachedAt(total: nat, n: nat, left: nat, running: nat, before: int, here: int, limit: int) {
    && n + left == total && n == Min(total, before + Min(CTA_NUM, here))
    && here <= limit
    && (left > 0 ==> running == n - before)
  }

  /** Once the cluster or the grid is exhausted, places may go by. */
  lemma Onward(total: nat, n: nat, left: nat, running: nat, before: nat, here: int, there: int, limit: int)
    requires ReachedAt(total, n, left, running, before, here, limit) && here <= there <= limit
    requires here == there || left == 0 || running >= CTA_NUM
    ensures ReachedAt(total, n, left, running, before, there, limit)
  {
  }

  /** Unless the grid or the cluster is exhausted, the next block is number g * PerGroup + r of its cluster. */
  lemma NextPlace(total: nat, wpb: nat, n: nat, left: nat, running: nat, c: nat, g: nat, r: nat)
    requires Reached(total, wpb, n, left, running, c, g, r) && left > 0 && running < CTA_NUM
    requires g < GroupsPerCluster(wpb) && r < PerGroup(wpb)
    ensures running == g * PerGroup(wpb) + r < PerCluster(wpb)
    ensures ClusterOf(wpb, n) == c && GroupOf(wpb, n) == g && PlaceOf(wpb, n) == r
    ensures Reached(total, wpb, n + 1, left - 1, running + 1, c, g, r + 1)
  {
    MulLe(g + 1, GroupsPerCluster(wpb), PerGroup(wpb));
    assert (g + 1) * PerGroup(wpb) == g * PerGroup(wpb) + PerGroup(wpb);
    PositionUnique(wpb, c, g, r, n);
  }

  /** A group that is full, or a cluster or grid that is exhausted, leaves the state of the next group. */
  lemma GroupDone(total: nat, wpb: nat, n: nat, left: nat, running: nat, c: nat, g: nat, r: nat)
    requires Reached(total, wpb, n, left, running, c, g, r) && g < GroupsPerCluster(wpb) && r <= PerGroup(wpb)
    requires r == PerGroup(wpb) || left == 0 || running >= CTA_NUM
    ensures Reached(total, wpb, n, left, running, c, g + 1, 0)
  {
    var p, groups := PerGroup(wpb), GroupsPerCluster(wpb);
    NextGroup(g, groups, p);
    MulLe(0, c, PerCluster(wpb));
    Onward(total, n, left, running, c * PerCluster(wpb), g * p + r, (g + 1) * p, groups * p);
  }

  lemma NextGroup(g: nat, groups: nat, p: nat)
    requires g < groups
    ensures (g + 1) * p == g * p + p && (g + 1) * p <= groups * p
  {
    MulLe(g + 1, groups, p);
  }

  /** A cluster or grid that is exhausted stays so over the groups that are skipped. */
  lemma SkipGroups(total: nat, wpb: nat, n: nat, left: nat, running: nat, c: nat, g: nat, h: nat)
    requires Reached(total, wpb, n, left, running, c, g, 0) && g <= h <= GroupsPerCluster(wpb)
    requires g == h || left == 0 || running >= CTA_NUM
    ensures Reached(total, wpb, n, left, running, c, h, 0)
  {
    var p, groups := PerGroup(wpb), GroupsPerCluster(wpb);
    MulLe(g, h, p);
    MulLe(h, groups, p);
    MulLe(0, c, PerCluster(wpb));
    Onward(total, n, left, running, c * PerCluster(wpb), g * p, h * p, groups * p);
  }

  lemma ClusterStart(total: nat, wpb: nat, n: nat, left: nat, c: nat)
    requires n + left == total && n == Upto(total, wpb, c, 0, 0) && left > 0
    ensures Reached(total, wpb, n, left, 0, c, 0, 0)
  {
    MulLe(0, GroupsPerCluster(wpb), PerGroup(wpb));
  }

  lemma ClusterEnd(total: nat, wpb: nat, c: nat)
    ensures Upto(total, wpb, c, GroupsPerCluster(wpb), 0) == Upto(total, wpb, c + 1, 0, 0)
  {
    assert (c + 1) * PerCluster(wpb) == c * PerCluster(wpb) + PerCluster(wpb);
  }

  /** In a subcore with room for another block there is a place left; in one without there is none. */
  lemma RoomLeft(wpb: nat, r: nat)
    requires OneSubcore(wpb) && (wpb > 0 || r < CTA_NUM)
    requires r * wpb + wpb <= WARP_PER_SUBCORE
    ensures r < PerGroup(wpb)
  {
    if wpb > 0 && r >= PerGroup(wpb) { MulLe(PerGroup(wpb) + 1, r + 1, wpb); }
  }

  lemma RoomOut(wpb: nat, r: nat)
    requires OneSubcore(wpb) && r <= PerGroup(wpb)
    requires r * wpb + wpb > WARP_PER_SUBCORE
    ensures r == PerGroup(wpb)
  {
    if r < PerGroup(wpb) { MulLe(r + 1, PerGroup(wpb), wpb); }
  }

  /** The warps that a block over two subcores has in each of them. */
  lemma SpanSlots(wpb: nat, k: nat, c: nat, core: nat, pair: nat, half: nat, n: nat)
    requires !OneSubcore(wpb) && pair <= 1 && half <= 1 && n <= WARP_PER_SUBCORE
    requires ClusterOf(wpb, k) == c && GroupOf(wpb, k) == core * 2 + pair
    ensures forall v :: 16 * half <= v < 16 * half + n ==>
      SlotOf(wpb, k, v) == Slot(c, core, 2 * pair + half, v - 16 * half)
  {
  }

  lemma GroupsBefore(wpb: nat, core: nat)
    requires core <= CORE_PER_CLUSTER
    ensures core * GroupsPerCore(wpb) <= GroupsPerCluster(wpb)
    ensures core == CORE_PER_CLUSTER ==> core * GroupsPerCore(wpb) == GroupsPerCluster(wpb)
  {
    MulLe(core, CORE_PER_CLUSTER, GroupsPerCore(wpb));
  }

  lemma RunningOffset(total: nat, wpb: nat, n: nat, left: nat, running: nat, c: nat, g: nat, r: nat)
    requires Reached(total, wpb, n, left, running, c, g, r) && left > 0 && running < CTA_NUM
    ensures r <= running
  {
    MulLe(0, g, PerGroup(wpb));
  }

  // ---------- the placed blocks ----------

  /** One placed block: inside the grid, with exactly its warps in different slots of one existing core. */
  ghost predicate BlockSafe(grid: Triplet, wpb: nat, b: Placed) {
    && InGrid(grid, b.ctaid) && b.cluster < CLUSTER_NUM && b.core < CORE_PER_CLUSTER
    && |b.slots| == wpb
    && (forall w :: 0 <= w < wpb ==> SlotInCore(b.slots[w], b.cluster, b.core))
    && (forall v, w :: 0 <= v < w < wpb ==> b.slots[v] != b.slots[w])
  }

  predicate SlotInCore(s: Slot, cluster: nat, core: nat) {
    s.cluster == cluster && s.core == core && s.subcore < SUBCORE_PER_CORE && s.index < WARP_PER_SUBCORE
  }

  /** Two placed blocks: different coordinates and no common slot. */
  ghost predicate Apart(a: Placed, b: Placed) {
    a.ctaid != b.ctaid && forall v, w :: 0 <= v < |a.slots| && 0 <= w < |b.slots| ==> a.slots[v] != b.slots[w]
  }

  function BlocksIn(blocks: seq<Placed>, c: nat): (n: nat)
    ensures n <= |blocks|
  {
    if blocks == [] then 0
    else BlocksIn(blocks[..|blocks| - 1], c) + if blocks[|blocks| - 1].cluster == c then 1 else 0
  }

  ghost predicate SafelyPlaced(grid: Triplet, wpb: nat, blocks: seq<Placed>) {
    && (forall k :: 0 <= k < |blocks| ==> BlockSafe(grid, wpb, blocks[k]))
    && (forall j, k :: 0 <= j < k < |blocks| ==> Apart(blocks[j], blocks[k]))
    && (forall c: nat :: BlocksIn(blocks, c) <= CTA_NUM)
  }

  lemma BlockAtSafe(grid: Triplet, wpb: nat, k: nat)
    requires wpb <= MAX_WARP_NUM_BLOCK && k < grid.x * grid.y * grid.z && k < CLUSTER_NUM * PerCluster(wpb)
    ensures grid.x >= 1 && grid.y >= 1 && BlockSafe(grid, wpb, BlockAt(grid, wpb, k))
  {
    CtaidsInGridAndDistinct(grid, k, k);
    PositionDecodes(wpb, k);
    WhereBlock(wpb, k);
    forall w | 0 <= w < wpb
      ensures SlotInCore(BlockAt(grid, wpb, k).slots[w], ClusterOf(wpb, k), GroupOf(wpb, k) / GroupsPerCore(wpb))
    {
      SlotsExist(wpb, k, w);
    }
    forall v, w | 0 <= v < w < wpb
      ensures BlockAt(grid, wpb, k).slots[v] != BlockAt(grid, wpb, k).slots[w]
    {
      SlotsDiffer(wpb, k, v, k, w);
    }
  }

  lemma WhereBlock(wpb: nat, k: nat)
    requires k < CLUSTER_NUM * PerCluster(wpb)
    ensures ClusterOf(wpb, k) < CLUSTER_NUM && GroupOf(wpb, k) / GroupsPerCore(wpb) < CORE_PER_CLUSTER
  {
    PositionDecodes(wpb, k);
    TwoDigits(k, PerCluster(wpb));
    if ClusterOf(wpb, k) >= CLUSTER_NUM { MulLe(CLUSTER_NUM, ClusterOf(wpb, k), PerCluster(wpb)); }
  }

  lemma BlocksApart(grid: Triplet, wpb: nat, j: nat, k: nat)
    requires wpb <= MAX_WARP_NUM_BLOCK && j < k < grid.x * grid.y * grid.z
    ensures grid.x >= 1 && grid.y >= 1 && Apart(BlockAt(grid, wpb, j), BlockAt(grid, wpb, k))
  {
    CtaidsInGridAndDistinct(grid, j, k);
    forall v, w | 0 <= v < wpb && 0 <= w < wpb
      ensures BlockAt(grid, wpb, j).slots[v] != BlockAt(grid, wpb, k).slots[w]
    {
      SlotsDiffer(wpb, j, v, k, w);
    }
  }

  /** Cluster `c` has what is left of the blocks after the clusters before it, up to its share. */
  lemma {:induction false} BlocksInCluster(wpb: nat, blocks: seq<Placed>, c: nat)
    requires forall k :: 0 <= k < |blocks| ==> blocks[k].cluster == ClusterOf(wpb, k)
    ensures BlocksIn(blocks, c) == Max0(Min(|blocks| - c * PerCluster(wpb), PerCluster(wpb)))
    decreases |blocks|
  {
    if blocks != [] {
      var n := |blocks| - 1;
      BlocksInCluster(wpb, blocks[..n], c);
      ClusterShare(wpb, n, c);
    } else {
      MulLe(0, c, PerCluster(wpb));
    }
  }

  function Max0(a: int): nat { if a < 0 then 0 else a }

  /** Blocks that are where the closed form puts them are safely placed. */
  lemma PlacedSafely(grid: Triplet, wpb: nat, blocks: seq<Placed>)
    requires wpb <= MAX_WARP_NUM_BLOCK && |blocks| <= CLUSTER_NUM * PerCluster(wpb)
    requires |blocks| <= grid.x * grid.y * grid.z && (blocks != [] ==> grid.x >= 1 && grid.y >= 1)
    requires forall k :: 0 <= k < |blocks| ==> blocks[k] == BlockAt(grid, wpb, k)
    ensures SafelyPlaced(grid, wpb, blocks)
  {
    forall k | 0 <= k < |blocks|
      ensures BlockSafe(grid, wpb, blocks[k])
    {
      BlockAtSafe(grid, wpb, k);
    }
    forall j, k | 0 <= j < k < |blocks|
      ensures Apart(blocks[j], blocks[k])
    {
      BlocksApart(grid, wpb, j, k);
    }
    forall c: nat
      ensures BlocksIn(blocks, c) <= CTA_NUM
    {
      BlocksInCluster(wpb, blocks, c);
    }
  }

  // ---------- other chips ----------

  /** Lines 160-183 on a chip with `subcores` subcores of `width` slots per core: how many of the
      `remaining` warps of a block find a slot from subcore `sub` on. */
  function Spanned(subcores: nat, width: nat, remaining: nat, sub: nat): nat
    decreases subcores - sub
  {
    if remaining == 0 || sub >= subcores then 0
    else Min(remaining, width) + Spanned(subcores, width, remaining - Min(remaining, width), sub + 1)
  }

  lemma {:induction false} SpannedIs(subcores: nat, width: nat, remaining: nat, sub: nat)
    requires sub <= subcores
    ensures Spanned(subcores, width, remaining, sub) == Min(remaining, (subcores - sub) * width)
    decreases subcores - sub
  {
    if sub < subcores {
      assert (subcores - sub) * width == (subcores - (sub + 1)) * width + width;
      MulLe(0, subcores - (sub + 1), width);
      if remaining > 0 { SpannedIs(subcores, width, remaining - Min(remaining, width), sub + 1); }
    }
  }

  /** The subcores that one block takes. */
  function Needs(width: nat, wpb: nat): (n: nat)
    requires width > 0 && wpb > 0
    ensures n > 0 && (n - 1) * width < wpb <= n * width
  {
    TwoDigits(wpb - 1, width);
    var n := (wpb - 1) / width + 1;
    assert n * width == (n - 1) * width + width;
    n
  }

  lemma SpannedWholeIff(subcores: nat, width: nat, wpb: nat, sub: nat)
    requires width > 0 && wpb > 0 && sub <= subcores
    ensures Spanned(subcores, width, wpb, sub) == wpb <==> sub + Needs(width, wpb) <= subcores
  {
    SpannedIs(subcores, width, wpb, sub);
    var n, d := Needs(width, wpb), subcores - sub;
    if d >= n { MulLe(n, d, width); } else { MulLe(d, n - 1, width); }
  }

  /** The blocks of a core start at the multiples of what one block needs.  All of them get all their
      warps if and only if that number divides the number of subcores. */
  lemma WholeBlocksIff(subcores: nat, width: nat, wpb: nat)
    requires width > 0 && wpb > 0
    ensures var n := Needs(width, wpb);
      (forall m: nat :: m * n < subcores ==> Spanned(subcores, width, wpb, m * n) == wpb) <==> subcores % n == 0
  {
    var n := Needs(width, wpb);
    TwoDigits(subcores, n);
    var q := subcores / n;
    if subcores % n == 0 {
      forall m: nat | m * n < subcores
        ensures Spanned(subcores, width, wpb, m * n) == wpb
      {
        NextMultiple(m, q, n);
        SpannedWholeIff(subcores, width, wpb, m * n);
      }
    } else {
      SpannedWholeIff(subcores, width, wpb, q * n);
    }
  }

  lemma NextMultiple(m: nat, q: nat, n: nat)
    requires n > 0 && m * n < q * n
    ensures m * n + n <= q * n
  {
    if m >= q { MulLe(q, m, n); }
    MulLe(m + 1, q, n);
    assert (m + 1) * n == m * n + n;
  }

  /** This chip: every block of up to 32 warps fits. */
  lemma HeaderFits(wpb: nat)
    requires 1 <= wpb <= MAX_WARP_NUM_BLOCK
    ensures SUBCORE_PER_CORE % Needs(WARP_PER_SUBCORE, wpb) == 0
  {
    assert Needs(WARP_PER_SUBCORE, wpb) == 1 || Needs(WARP_PER_SUBCORE, wpb) == 2;
  }
}
