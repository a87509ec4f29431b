/** Addresses and memories behind the router of SystemC/TLM2.0/test2.cpp, without any DMI. */
module DmiSpec {

  const TARGETS := 4
  const SIZE := 256        // words per memory
  const BYTES := 1024      // the same in bytes

  datatype Command = Read | Write

  // ---------- the router's address map ----------

  /** (address >> 8) & 0x3 */
  function Target(address: nat): nat { (address / 256) % TARGETS }

  /** address & 0xFF */
  function Masked(address: nat): nat { address % 256 }

  /** (target << 8) | (address & 0xFF) */
  function Compose(target: nat, address: nat): nat { target * 256 + address % 256 }

  /** An address is its target and its masked part, modulo the 1024 addresses of the system map. */
  lemma SystemAddress(address: nat)
    ensures address % BYTES == 256 * Target(address) + Masked(address)
  {
    var q, r := address / 256, address % 256;
    Digit(address, 256);
    Digit(q, TARGETS);
    Residue(address, q / TARGETS, 256 * (q % TARGETS) + r);
  }

  lemma Digit(a: nat, m: nat)
    requires m > 0
    ensures a == m * (a / m) + a % m && a % m < m
  {
  }

  lemma Residue(a: nat, z: nat, r: nat)
    requires a == BYTES * z + r && r < BYTES
    ensures a % BYTES == r
  {
  }

  lemma Digits(a: nat, q: nat, r: nat)
    requires a == q * 256 + r && r < 256
    ensures a / 256 == q && a % 256 == r
  {
  }

  /** Decoding and composing are inverse. */
  lemma ComposeDecodes(target: nat, address: nat)
    requires target < TARGETS
    ensures Target(Compose(target, address)) == target && Masked(Compose(target, address)) == Masked(address)
    ensures Compose(Target(address), Masked(address)) == address % BYTES
  {
    SystemAddress(address);
    Digit(address, 256);
    Digits(Compose(target, address), target, address % 256);
  }

  // ---------- the byte a transaction touches ----------

  /** Through transport a memory sees the word that holds the address; through DMI the address itself. */
  function TransportOffset(address: nat): (off: nat)
    ensures off <= 252
  {
    AlignDown(Masked(address));
    4 * (Masked(address) / 4)
  }

  lemma AlignDown(m: nat)
    requires m < 256
    ensures 4 * (m / 4) <= 252
  {
  }

  function DmiOffset(address: nat): (off: nat)
    ensures off <= 255
  {
    Masked(address)
  }

  /** The two paths touch the same bytes exactly for word-aligned addresses. */
  lemma PathsAgreeIffAligned(address: nat)
    ensures TransportOffset(address) == DmiOffset(address) <==> address % 4 == 0
  {
    Digit(address, 256);
    SameMod4(address, address / 256, Masked(address));
    Digit(Masked(address), 4);
  }

  lemma SameMod4(a: nat, q: nat, r: nat)
    requires a == 256 * q + r
    ensures a % 4 == r % 4
  {
    Digit(r, 4);
    Residue4(a, 64 * q + r / 4, r % 4);
  }

  lemma Residue4(a: nat, z: nat, r: nat)
    requires a == 4 * z + r && r < 4
    ensures a % 4 == r
  {
  }

  // ---------- memories as values ----------

  type Bytes = seq<bv8>

  predicate Shaped(ms: seq<Bytes>) { |ms| == TARGETS && forall t :: 0 <= t < TARGETS ==> |ms[t]| == BYTES }

  function Put(m: Bytes, off: nat, data: Bytes): (r: Bytes)
    requires off + |data| <= |m|
    ensures |r| == |m|
    ensures forall k :: 0 <= k < |m| ==> r[k] == if off <= k < off + |data| then data[k - off] else m[k]
  {
    m[..off] + data + m[off + |data|..]
  }

  datatype Access = Access(cmd: Command, address: nat, data: Bytes)

  /** What an access returns in its data, and the memories it leaves, when its bytes start at `off`. */
  function AccessAt(ms: seq<Bytes>, a: Access, off: nat): (r: (Bytes, seq<Bytes>))
    requires Shaped(ms) && |a.data| == 4 && off + 4 <= BYTES
    ensures Shaped(r.1) && |r.0| == 4
  {
    var t := Target(a.address);
    if a.cmd == Read then (ms[t][off..off + 4], ms) else (a.data, ms[t := Put(ms[t], off, a.data)])
  }

  /** The access through transport. */
  function Transport(ms: seq<Bytes>, a: Access): (r: (Bytes, seq<Bytes>))
    requires Shaped(ms) && |a.data| == 4
    ensures Shaped(r.1) && |r.0| == 4
  {
    AccessAt(ms, a, TransportOffset(a.address))
  }

  function Copies(m: Bytes, n: nat): (ms: seq<Bytes>)
    ensures |ms| == n && forall t :: 0 <= t < n ==> ms[t] == m
  {
    seq(n, _ => m)
  }

  lemma ReadSlice(ms: seq<Bytes>, address: nat, off: nat)
    requires Shaped(ms) && off + 4 <= BYTES
    ensures AccessAt(ms, Access(Read, address, [0, 0, 0, 0]), off).0 == ms[Target(address)][off..off + 4]
  {
  }

  lemma SlicesDiffer(m: Bytes, d: nat, t: nat)
    requires d + 4 <= |m| && t + 4 <= |m| && m[d] != m[t]
    ensures m[d..d + 4] != m[t..t + 4]
  {
    assert m[d..d + 4][0] == m[d] && m[t..t + 4][0] == m[t];
  }

  /** For an unaligned address there are memories on which the two paths read different data. */
  lemma UnalignedPathsDiffer(address: nat) returns (ms: seq<Bytes>)
    requires address % 4 != 0
    ensures Shaped(ms)
    ensures var a := Access(Read, address, [0, 0, 0, 0]);
      AccessAt(ms, a, DmiOffset(address)).0 != AccessAt(ms, a, TransportOffset(address)).0
  {
    PathsAgreeIffAligned(address);
    ms := OneByteSet(DmiOffset(address));
    ReadsDiffer(ms, address, DmiOffset(address), TransportOffset(address));
  }

  lemma ReadsDiffer(ms: seq<Bytes>, address: nat, d: nat, t: nat)
    requires Shaped(ms) && d + 4 <= BYTES && t + 4 <= BYTES && ms[Target(address)][d] != ms[Target(address)][t]
    ensures var a := Access(Read, address, [0, 0, 0, 0]); AccessAt(ms, a, d).0 != AccessAt(ms, a, t).0
  {
    ReadSlice(ms, address, d);
    ReadSlice(ms, address, t);
    SlicesDiffer(ms[Target(address)], d, t);
  }

  /** Memories of zeros but for a 1 at `d` in each. */
  lemma OneByteSet(d: nat) returns (ms: seq<Bytes>)
    requires d < BYTES
    ensures Shaped(ms) && forall t, k :: 0 <= t < TARGETS && 0 <= k < BYTES ==> ms[t][k] == if k == d then 1 else 0
  {
    ms := Copies(Put(Zeros(BYTES), d, [1]), TARGETS);
  }

  function Zeros(n: nat): (r: Bytes)
    ensures |r| == n && forall k :: 0 <= k < n ==> r[k] == 0
  {
    seq(n, _ => 0)
  }

  // ---------- one flat memory ----------

  /** The 1024 bytes that the system map can reach. */
  function Flat(ms: seq<Bytes>): (f: Bytes)
    requires Shaped(ms)
    ensures |f| == BYTES && forall k :: 0 <= k < BYTES ==> f[k] == ms[k / 256][k % 256]
  {
    ms[0][..256] + ms[1][..256] + ms[2][..256] + ms[3][..256]
  }

  /** What no transaction can reach: the rest of each memory. */
  predicate SameRest(ms: seq<Bytes>, ms': seq<Bytes>)
    requires Shaped(ms) && Shaped(ms')
  {
    forall t :: 0 <= t < TARGETS ==> ms'[t][256..] == ms[t][256..]
  }

  lemma FlatSlice(ms: seq<Bytes>, t: nat, off: nat)
    requires Shaped(ms) && t < TARGETS && off <= 252
    ensures Flat(ms)[256 * t + off..256 * t + off + 4] == ms[t][off..off + 4]
  {
    FlatAt(ms, t, off);
    FlatAt(ms, t, off + 1);
    FlatAt(ms, t, off + 2);
    FlatAt(ms, t, off + 3);
    FourEqual(Flat(ms), ms[t], 256 * t + off, off);
  }

  lemma FourEqual(a: Bytes, b: Bytes, i: nat, j: nat)
    requires i + 4 <= |a| && j + 4 <= |b|
    requires a[i] == b[j] && a[i + 1] == b[j + 1] && a[i + 2] == b[j + 2] && a[i + 3] == b[j + 3]
    ensures a[i..i + 4] == b[j..j + 4]
  {
  }

  lemma FlatAt(ms: seq<Bytes>, t: nat, o: nat)
    requires Shaped(ms) && t < TARGETS && o < 256
    ensures 256 * t + o < BYTES && Flat(ms)[256 * t + o] == ms[t][o]
  {
    Digits(256 * t + o, t, o);
  }

  lemma FlatPut(ms: seq<Bytes>, t: nat, off: nat, data: Bytes)
    requires Shaped(ms) && t < TARGETS && off <= 252 && |data| == 4
    ensures Flat(ms[t := Put(ms[t], off, data)]) == Put(Flat(ms), 256 * t + off, data)
    ensures SameRest(ms, ms[t := Put(ms[t], off, data)])
  {
    var m' := Put(ms[t], off, data);
    assert m'[256..] == ms[t][256..];
    var l, r := Flat(ms[t := m']), Put(Flat(ms), 256 * t + off, data);
    forall k | 0 <= k < BYTES
      ensures l[k] == r[k]
    {
    }
  }

  lemma WordFits(address: nat)
    requires address % 4 == 0
    ensures address % BYTES + 4 <= BYTES
  {
  }

  /** The access to one flat memory, addressed modulo its size. */
  function FlatAccess(f: Bytes, a: Access): (r: (Bytes, Bytes))
    requires |f| == BYTES && |a.data| == 4 && a.address % 4 == 0
    ensures |r.1| == BYTES
  {
    WordFits(a.address);
    var p := a.address % BYTES;
    if a.cmd == Read then (f[p..p + 4], f) else (a.data, Put(f, p, a.data))
  }

  /** A word access through transport is an access to a flat memory addressed modulo 1024. */
  lemma TransportIsFlat(ms: seq<Bytes>, a: Access)
    requires Shaped(ms) && |a.data| == 4 && a.address % 4 == 0
    ensures var r := Transport(ms, a); (r.0, Flat(r.1)) == FlatAccess(Flat(ms), a) && SameRest(ms, r.1)
  {
    var t, off := Target(a.address), TransportOffset(a.address);
    AlignedOffset(a.address);
    if a.cmd == Read { FlatSlice(ms, t, off); } else { FlatPut(ms, t, off, a.data); }
  }

  lemma AlignedOffset(address: nat)
    requires address % 4 == 0
    ensures TransportOffset(address) <= 252 && address % BYTES == 256 * Target(address) + TransportOffset(address)
  {
    SystemAddress(address);
    PathsAgreeIffAligned(address);
  }

  // ---------- sequences of accesses ----------

  datatype Op = Do(access: Access) | Invalidate

  predicate AlignedOp(op: Op) { op.Do? ==> |op.access.data| == 4 && op.access.address % 4 == 0 }

  predicate Aligned(ops: seq<Op>) { forall i :: 0 <= i < |ops| ==> AlignedOp(ops[i]) }

  /** The results so far and the memories, or the one flat memory. */
  datatype Outcome = Outcome(results: seq<Bytes>, memories: seq<Bytes>)
  datatype FlatOutcome = FlatOutcome(results: seq<Bytes>, memory: Bytes)

  function Step(r: Outcome, op: Op): (r': Outcome)
    requires Shaped(r.memories) && AlignedOp(op)
    ensures Shaped(r'.memories)
  {
    match op
    case Do(a) => var t := Transport(r.memories, a); Outcome(r.results + [t.0], t.1)
    case Invalidate => r
  }

  function FlatStep(f: FlatOutcome, op: Op): (f': FlatOutcome)
    requires |f.memory| == BYTES && AlignedOp(op)
    ensures |f'.memory| == BYTES
  {
    match op
    case Do(a) => var t := FlatAccess(f.memory, a); FlatOutcome(f.results + [t.0], t.1)
    case Invalidate => f
  }

  /** All results and the final memories when every access uses transport. */
  function Results(ms: seq<Bytes>, ops: seq<Op>): (r: Outcome)
    requires Shaped(ms) && Aligned(ops)
    ensures Shaped(r.memories)
  {
    if ops == [] then Outcome([], ms) else Step(Results(ms, ops[..|ops| - 1]), ops[|ops| - 1])
  }

  /** The same on one flat memory. */
  function FlatResults(f: Bytes, ops: seq<Op>): (r: FlatOutcome)
    requires |f| == BYTES && Aligned(ops)
    ensures |r.memory| == BYTES
  {
    if ops == [] then FlatOutcome([], f) else FlatStep(FlatResults(f, ops[..|ops| - 1]), ops[|ops| - 1])
  }

  /** Both sides agree, and what no transaction can reach is as it was in `start`. */
  ghost predicate Mirrors(start: seq<Bytes>, r: Outcome, f: FlatOutcome)
    requires Shaped(start)
  {
    && Shaped(r.memories) && |f.memory| == BYTES
    && r.results == f.results && Flat(r.memories) == f.memory && SameRest(start, r.memories)
  }

  lemma MirrorStep(start: seq<Bytes>, r: Outcome, f: FlatOutcome, op: Op)
    requires Shaped(start) && Mirrors(start, r, f) && AlignedOp(op)
    ensures Mirrors(start, Step(r, op), FlatStep(f, op))
  {
    if op.Do? {
      TransportIsFlat(r.memories, op.access);
      SameRestTwice(start, r.memories, Transport(r.memories, op.access).1);
    }
  }

  lemma SameRestTwice(a: seq<Bytes>, b: seq<Bytes>, c: seq<Bytes>)
    requires Shaped(a) && Shaped(b) && Shaped(c) && SameRest(a, b) && SameRest(b, c)
    ensures SameRest(a, c)
  {
  }

  /** Four routed memories behave as one flat memory, over every sequence of word accesses. */
  lemma {:induction false} ResultsAreFlat(ms: seq<Bytes>, ops: seq<Op>)
    requires Shaped(ms) && Aligned(ops)
    ensures Mirrors(ms, Results(ms, ops), FlatResults(Flat(ms), ops))
  {
    if ops != [] {
      ResultsAreFlat(ms, ops[..|ops| - 1]);
      MirrorStep(ms, Results(ms, ops[..|ops| - 1]), FlatResults(Flat(ms), ops[..|ops| - 1]), ops[|ops| - 1]);
    }
  }
}
