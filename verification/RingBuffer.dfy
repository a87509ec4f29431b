/** RingBuffer of cp_model/ringbuffer.h (lines 6-43): a ring of 64-bit words that overwrites its oldest
    entry, refined to the list of the words added. */
module RingBuffers {
  import opened Common

  /** What a caller may still read: one place always stays free, so at most `size - 1` words. */
  function Live(log: seq<bv64>, size: int): (r: seq<bv64>) {
    if size < 1 then [] else log[|log| - Min(|log|, size - 1)..]
  }

  lemma LiveIsSuffix(log: seq<bv64>, size: nat)
    ensures |Live(log, size)| == (if size == 0 then 0 else Min(|log|, size - 1))
    ensures log == log[..|log| - |Live(log, size)|] + Live(log, size)
  {
  }

  /** `x`, at most one turn too far, back in the ring. */
  function Once(x: int, size: int): int { if x < size then x else x - size }

  lemma OnceIsMod(x: nat, size: nat)
    requires x < 2 * size
    ensures x % size == Once(x, size)
  {
  }

  /** The slot of word number `n`. */
  function SlotOf(n: nat, size: nat): (p: nat)
    requires size > 0
    ensures p < size
  {
    if n == 0 then 0 else Once(SlotOf(n - 1, size) + 1, size)
  }

  lemma {:induction false} SlotAhead(n: nat, d: nat, size: nat)
    requires d <= size && size > 0
    ensures SlotOf(n + d, size) == Once(SlotOf(n, size) + d, size)
  {
    if d > 0 { SlotAhead(n, d - 1, size); }
  }

  /** The slot of the oldest live word. */
  function Head(added: nat, size: nat): int
    requires size > 0
  {
    if added < size then 0 else SlotOf(added + 1, size)
  }

  /** The head moves with the tail once the ring is full, and only then do they meet. */
  lemma HeadMoves(added: nat, size: nat)
    requires size > 0
    ensures Head(added + 1, size) ==
      if SlotOf(added + 1, size) == Head(added, size) then Once(Head(added, size) + 1, size) else Head(added, size)
  {
    if added + 1 <= size { SlotAhead(0, added + 1, size); }
  }

  /** Live word `index` lies `index` places after the head. */
  lemma LiveAt(log: seq<bv64>, size: nat, index: nat) returns (n: nat)
    requires size > 0 && index < |Live(log, size)|
    ensures n == |log| - |Live(log, size)| + index < |log| && n >= |log| - size
    ensures Live(log, size)[index] == log[n] && Once(Head(|log|, size) + index, size) == SlotOf(n, size)
  {
    if |log| >= size {
      n := |log| + 1 - size + index;
      SlotAhead(n, size, size);
      SlotAhead(|log| + 1, index, size);
    } else {
      n := index;
      SlotAhead(0, index, size);
    }
  }

  /** The ring is empty to its readers exactly when nothing is live. */
  lemma EmptyIff(log: seq<bv64>, size: nat)
    requires size > 0
    ensures Head(|log|, size) == SlotOf(|log|, size) <==> Live(log, size) == []
  {
    if |log| >= size {
      SlotAhead(|log|, 1, size);
    } else {
      SlotAhead(0, |log|, size);
    }
  }

  function CountOf(w: bv64): bv32 { (w & 0xFFFF_FFFF) as bv32 }
  function AddrOf(w: bv64): bv64 { w >> 32 }

  /** The two readings are 32 bits each and together give the stored word back. */
  lemma HalvesJoin(w: bv64)
    ensures AddrOf(w) <= 0xFFFF_FFFF
    ensures AddrOf(w) * 0x1_0000_0000 + CountOf(w) as bv64 == w
  {
  }

  /** What slot `p` holds: the latest word whose slot it is, or the initial 0. */
  function InSlot(log: seq<bv64>, size: nat, p: int): bv64
    requires size > 0
  {
    if log == [] then 0
    else if SlotOf(|log| - 1, size) == p then log[|log| - 1]
    else InSlot(log[..|log| - 1], size, p)
  }

  /** None of the last `size` words has been overwritten. */
  lemma {:induction false} RecentInSlot(log: seq<bv64>, size: nat, n: nat)
    requires size > 0 && n < |log| && |log| - size <= n
    ensures InSlot(log, size, SlotOf(n, size)) == log[n]
    decreases |log|
  {
    if n < |log| - 1 {
      SlotAhead(n, |log| - 1 - n, size);
      RecentInSlot(log[..|log| - 1], size, n);
    }
  }

  ghost predicate Slots(log: seq<bv64>, ring: seq<bv64>)
    requires ring != []
  {
    forall p :: 0 <= p < |ring| ==> ring[p] == InSlot(log, |ring|, p)
  }

  lemma SlotsMore(log: seq<bv64>, ring: seq<bv64>, w: bv64)
    requires ring != [] && Slots(log, ring)
    ensures Slots(log + [w], ring[SlotOf(|log|, |ring|) := w])
  {
    assert (log + [w])[..|log|] == log;
  }

  lemma ReadLive(log: seq<bv64>, ring: seq<bv64>, index: nat)
    requires ring != [] && Slots(log, ring) && index < |Live(log, |ring|)|
    ensures var p := Once(Head(|log|, |ring|) + index, |ring|);
      0 <= p < |ring| && ring[p] == Live(log, |ring|)[index]
  {
    var n := LiveAt(log, |ring|, index);
    SlotHolds(log, ring, n, Once(Head(|log|, |ring|) + index, |ring|));
  }

  lemma SlotHolds(log: seq<bv64>, ring: seq<bv64>, n: nat, p: int)
    requires ring != [] && Slots(log, ring) && n < |log| && |log| - |ring| <= n && p == SlotOf(n, |ring|)
    ensures 0 <= p < |ring| && ring[p] == log[n]
  {
    RecentInSlot(log, |ring|, n);
  }

  class RingBuffer {
    const size: int
    const buffer: array<bv64>
    var head: int
    var tail: int
    ghost var log: seq<bv64>

    ghost predicate Valid()
      reads this, buffer
    {
      && 0 <= size == buffer.Length
      && (size == 0 ==> log == [] && head == tail == 0)
      && (size > 0 ==> Slots(log, buffer[..]) && tail == SlotOf(|log|, size) && head == Head(|log|, size))
    }

    constructor (n: nat)
      ensures Valid() && fresh(buffer) && size == n && log == []
    {
      size, head, tail, log := n, 0, 0, [];
      buffer := new bv64[n](_ => 0);
    }

    /** Lines 18-24. With size 0 the source divides by zero, so its callers must not. */
    method Add(value: bv64)
      requires Valid() && size > 0
      modifies this, buffer
      ensures Valid() && log == old(log) + [value]
    {
      SlotsMore(log, buffer[..], value);
      HeadMoves(|log|, size);
      OnceIsMod(tail + 1, size);
      OnceIsMod(head + 1, size);
      buffer[tail] := value;
      tail := (tail + 1) % size;
      if tail == head {
        head := (head + 1) % size;
      }
      log := log + [value];
    }

    /** Lines 27-33: 0 for an empty ring; otherwise the low half of the word in the slot, which for a live
        index is the live word. */
    method GetCount(index: nat) returns (count: bv32)
      requires Valid() && (head != tail ==> head + index < 0x8000_0000)
      ensures Live(log, size) == [] ==> count == 0
      ensures index < |Live(log, size)| ==> count == CountOf(Live(log, size)[index])
      ensures Live(log, size) != [] ==> count == CountOf(InSlot(log, size, (Head(|log|, size) + index) % size))
    {
      if size > 0 { EmptyIff(log, size); }
      if head == tail { return 0; }
      if index < |Live(log, size)| {
        ReadLive(log, buffer[..], index);
        OnceIsMod(head + index, size);
      }
      count := CountOf(buffer[(head + index) % size]);
    }

    /** Lines 35-42. */
    method GetAddr(index: nat) returns (addr: bv64)
      requires Valid() && (head != tail ==> head + index < 0x8000_0000)
      ensures Live(log, size) == [] ==> addr == 0
      ensures index < |Live(log, size)| ==> addr == AddrOf(Live(log, size)[index])
      ensures Live(log, size) != [] ==> addr == AddrOf(InSlot(log, size, (Head(|log|, size) + index) % size))
      ensures addr <= 0xFFFF_FFFF
    {
      if size > 0 { EmptyIff(log, size); }
      if head == tail { return 0; }
      if index < |Live(log, size)| {
        ReadLive(log, buffer[..], index);
        OnceIsMod(head + index, size);
      }
      HalvesJoin(buffer[(head + index) % size]);
      addr := AddrOf(buffer[(head + index) % size]);
    }
  }
}
