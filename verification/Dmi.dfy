/** Initiator, router and memories of SystemC/TLM2.0/test2.cpp, with the direct memory interface of
    section 11.2 of IEEE Std 1666-2011: the DMI pointer aliases a memory's own array. */
module Dmi {
  import opened DmiSpec

  datatype Response = Ok | AddressError | ByteEnableError | BurstError

  class Memory {
    const mem: array<bv8>

    constructor ()
      ensures fresh(mem) && mem.Length == BYTES
    {
      mem := new bv8[BYTES];
    }

    /** b_transport of the memory; `dmi` is the DMI hint. */
    method BTransport(cmd: Command, address: nat, data: Bytes, byteEnable: bool, width: nat)
      returns (response: Response, out: Bytes, dmi: bool)
      requires mem.Length == BYTES
      modifies mem
      ensures response == if address / 4 >= SIZE then AddressError else if byteEnable then ByteEnableError
                          else if |data| > 4 || width < |data| then BurstError else Ok
      ensures dmi == (response == Ok)
      ensures response != Ok ==> out == data && mem[..] == old(mem[..])
      ensures response == Ok && cmd == Read ==>
        out == old(mem[..])[4 * (address / 4)..4 * (address / 4) + |data|] && mem[..] == old(mem[..])
      ensures response == Ok && cmd == Write ==> out == data && mem[..] == Put(old(mem[..]), 4 * (address / 4), data)
    {
      var adr := address / 4;
      out, dmi := data, false;
      if adr >= SIZE { return AddressError, out, dmi; }
      if byteEnable { return ByteEnableError, out, dmi; }
      if |data| > 4 || width < |data| { return BurstError, out, dmi; }
      if cmd == Read {
        out := mem[4 * adr..4 * adr + |data|];
      } else {
        CopyIn(mem, 4 * adr, data);
      }
      dmi := true;
      response := Ok;
    }
  }

  /** memcpy into an array. */
  method CopyIn(a: array<bv8>, off: nat, data: Bytes)
    requires off + |data| <= a.Length
    modifies a
    ensures a[..] == Put(old(a[..]), off, data)
  {
    var k := 0;
    while k < |data|
      invariant 0 <= k <= |data|
      invariant forall j :: 0 <= j < a.Length ==> a[j] == if off <= j < off + k then data[j - off] else old(a[j])
    {
      a[off + k] := data[k];
      k := k + 1;
    }
  }

  datatype DmiData = DmiData(ptr: array<bv8>, start: nat, end: nat, readAllowed: bool, writeAllowed: bool)

  class Router {
    const memories: seq<Memory>

    ghost predicate Valid() {
      && |memories| == TARGETS
      && (forall t :: 0 <= t < TARGETS ==> memories[t].mem.Length == BYTES)
      && (forall s, t :: 0 <= s < t < TARGETS ==> memories[s].mem != memories[t].mem)
    }

    ghost function Arrays(): set<object> { set t | 0 <= t < |memories| :: memories[t].mem }

    ghost function Contents(): (ms: seq<Bytes>)
      requires Valid()
      reads Arrays()
      ensures Shaped(ms) && forall t :: 0 <= t < TARGETS ==> ms[t] == memories[t].mem[..]
    {
      [memories[0].mem[..], memories[1].mem[..], memories[2].mem[..], memories[3].mem[..]]
    }

    constructor ()
      ensures Valid() && fresh(Arrays())
    {
      var m0 := new Memory();
      var m1 := new Memory();
      var m2 := new Memory();
      var m3 := new Memory();
      memories := [m0, m1, m2, m3];
    }

    /** b_transport of the router: the memory sees the masked address. */
    method BTransport(a: Access) returns (response: Response, out: Bytes, dmi: bool)
      requires Valid() && |a.data| == 4
      modifies Arrays()
      ensures response == Ok && dmi
      ensures (out, Contents()) == Transport(old(Contents()), a)
    {
      var t := Target(a.address);
      response, out, dmi := memories[t].BTransport(a.cmd, Masked(a.address), a.data, false, 4);
      OthersSame(t, old(Contents()));
    }

    /** If only the array of memory `t` changed, the contents changed in that place. */
    lemma OthersSame(t: nat, before: seq<Bytes>)
      requires Valid() && Shaped(before) && t < TARGETS
      requires forall s :: 0 <= s < TARGETS && s != t ==> memories[s].mem[..] == before[s]
      ensures Contents() == before[t := memories[t].mem[..]]
    {
    }

    /** get_direct_mem_ptr of the router: the memory grants everything it has, but composing its end
        address keeps only the low eight bits, so the window is the 256 bytes of the target. */
    method GetDirectMemPtr(address: nat) returns (status: bool, dmi: DmiData)
      requires Valid()
      ensures status && Grants(dmi, Target(address))
    {
      var t := Target(address);
      dmi := DmiData(memories[t].mem, 0, SIZE * 4 - 1, true, true);
      dmi := dmi.(start := Compose(t, dmi.start), end := Compose(t, dmi.end));
      status := true;
    }

    ghost predicate Grants(dmi: DmiData, t: nat)
      requires Valid()
    {
      && t < TARGETS && dmi.ptr == memories[t].mem && dmi.readAllowed && dmi.writeAllowed
      && dmi.start == 256 * t && dmi.end == 256 * t + 255
    }
  }

  /** How an access went: what lines 59 and 105 print. */
  datatype Path = Direct | Routed | NoAccess

  /** The target whose window the initiator holds after `ops`, or -1: an access leaves it with the window of
      its own target, an invalidation with none. */
  function HeldAfter(held: int, ops: seq<Op>): int {
    if ops == [] then held
    else match ops[|ops| - 1]
      case Do(a) => Target(a.address)
      case Invalidate => -1
  }

  predicate Covers(held: int, address: nat) { held >= 0 && 256 * held <= address <= 256 * held + 255 }

  /** The path of the i-th operation: direct exactly when the window then held covers the address. */
  function PathOf(held: int, ops: seq<Op>, i: nat): Path
    requires i < |ops|
  {
    match ops[i]
    case Do(a) => if Covers(HeldAfter(held, ops[..i]), a.address) then Direct else Routed
    case Invalidate => NoAccess
  }

  /** Each operation went its path. */
  ghost predicate Went(held: int, ops: seq<Op>, paths: seq<Path>) {
    |paths| == |ops| && forall i :: 0 <= i < |ops| ==> paths[i] == PathOf(held, ops, i)
  }

  lemma WentMore(held: int, ops: seq<Op>, paths: seq<Path>, op: Op, path: Path)
    requires Went(held, ops, paths) && path == PathOf(HeldAfter(held, ops), [op], 0)
    ensures Went(held, ops + [op], paths + [path])
    ensures HeldAfter(held, ops + [op]) == HeldAfter(HeldAfter(held, ops), [op])
  {
    var all := ops + [op];
    forall i | 0 <= i < |all|
      ensures (paths + [path])[i] == PathOf(held, all, i)
    {
      if i < |ops| { assert all[..i] == ops[..i]; } else { assert all[..i] == ops; }
    }
  }

  class Initiator {
    const router: Router
    var dmiPtrValid: bool
    var dmiData: DmiData

    ghost predicate Valid()
      reads this
    {
      && router.Valid()
      && (dmiPtrValid ==> exists t :: 0 <= t < TARGETS && router.Grants(dmiData, t))
    }

    constructor (router: Router)
      requires router.Valid()
      ensures Valid() && this.router == router && !dmiPtrValid
    {
      this.router := router;
      dmiPtrValid := false;
      dmiData := DmiData(router.memories[0].mem, 0, 0, false, false);
    }

    /** invalidate_direct_mem_ptr ignores the range. */
    method InvalidateDirectMemPtr(startRange: nat, endRange: nat)
      requires Valid()
      modifies this`dmiPtrValid
      ensures Valid() && !dmiPtrValid
    {
      dmiPtrValid := false;
    }

    predicate UsesDmi(address: nat)
      reads this
    {
      dmiPtrValid && dmiData.start <= address <= dmiData.end
    }

    /** The target whose window is held, or -1. */
    function Held(): int
      reads this
    {
      if dmiPtrValid then dmiData.start / 256 else -1
    }

    lemma HeldCovers(address: nat)
      requires Valid()
      ensures UsesDmi(address) <==> Covers(Held(), address)
      ensures UsesDmi(address) ==> Held() == Target(address) && router.Grants(dmiData, Target(address))
    {
      if dmiPtrValid {
        var t :| 0 <= t < TARGETS && router.Grants(dmiData, t);
        if UsesDmi(address) { Digits(address, t, address - 256 * t); }
      }
    }

    /** One iteration of thread_process: DMI when it covers the address, transport otherwise; after either
        the window of the target is held. */
    method Transfer(a: Access) returns (out: Bytes, path: Path)
      requires Valid() && |a.data| == 4
      modifies this`dmiPtrValid, this`dmiData, router.Arrays()
      ensures Valid()
      ensures (out, router.Contents())
           == AccessAt(old(router.Contents()), a, if old(UsesDmi(a.address)) then DmiOffset(a.address) else TransportOffset(a.address))
      ensures path == if old(UsesDmi(a.address)) then Direct else Routed
      ensures dmiPtrValid && router.Grants(dmiData, Target(a.address)) && Held() == Target(a.address)
    {
      HeldCovers(a.address);
      if dmiPtrValid && a.address >= dmiData.start && a.address <= dmiData.end {
        out := DirectTransfer(a);
        path := Direct;
      } else {
        path := Routed;
        var response, dmi;
        response, out, dmi := router.BTransport(a);
        if dmi { dmiPtrValid, dmiData := router.GetDirectMemPtr(a.address); }
      }
    }

    /** Lines 44-57. */
    method DirectTransfer(a: Access) returns (out: Bytes)
      requires Valid() && |a.data| == 4 && UsesDmi(a.address)
      modifies router.Arrays()
      ensures (out, router.Contents()) == AccessAt(old(router.Contents()), a, DmiOffset(a.address))
    {
      ghost var t :| 0 <= t < TARGETS && router.Grants(dmiData, t);
      var off := a.address - dmiData.start;
      assert t == Target(a.address) && off == DmiOffset(a.address);
      if a.cmd == Read {
        assert dmiData.readAllowed;
        out := dmiData.ptr[off..off + 4];
      } else {
        assert dmiData.writeAllowed;
        CopyIn(dmiData.ptr, off, a.data);
        out := a.data;
      }
      router.OthersSame(t, old(router.Contents()));
    }

    /** Any sequence of word accesses, with invalidations anywhere: the results and the memories are
        those of an initiator that always uses transport, and the direct path is taken exactly when the
        last operation was an access to the same window. */
    method Run(ops: seq<Op>) returns (outs: seq<Bytes>, paths: seq<Path>)
      requires Valid() && Aligned(ops)
      modifies this`dmiPtrValid, this`dmiData, router.Arrays()
      ensures Valid()
      ensures Outcome(outs, router.Contents()) == Results(old(router.Contents()), ops)
      ensures Went(old(Held()), ops, paths)
      ensures Held() == HeldAfter(old(Held()), ops)
    {
      outs, paths := [], [];
      ghost var start, held := router.Contents(), Held();
      var i := 0;
      while i < |ops|
        invariant 0 <= i <= |ops| && Valid()
        invariant Outcome(outs, router.Contents()) == Results(start, ops[..i])
        invariant Went(held, ops[..i], paths)
        invariant Held() == HeldAfter(held, ops[..i])
      {
        var path;
        outs, path := RunOne(ops[i], outs, start, ops[..i]);
        WentMore(held, ops[..i], paths, ops[i], path);
        assert ops[..i + 1] == ops[..i] + [ops[i]];
        paths := paths + [path];
        i := i + 1;
      }
      assert ops[..i] == ops;
    }

    method RunOne(op: Op, before: seq<Bytes>, ghost start: seq<Bytes>, ghost ops: seq<Op>) returns (outs: seq<Bytes>, path: Path)
      requires Valid() && Shaped(start) && Aligned(ops) && AlignedOp(op)
      requires Outcome(before, router.Contents()) == Results(start, ops)
      modifies this`dmiPtrValid, this`dmiData, router.Arrays()
      ensures Valid() && Outcome(outs, router.Contents()) == Results(start, ops + [op])
      ensures Held() == HeldAfter(old(Held()), [op])
      ensures path == PathOf(old(Held()), [op], 0)
    {
      outs := before;
      ResultsMore(start, ops, op);
      match op {
        case Do(a) =>
          PathsAgreeIffAligned(a.address);
          HeldCovers(a.address);
          var out;
          out, path := Transfer(a);
          outs := outs + [out];
        case Invalidate =>
          InvalidateDirectMemPtr(0, 0);
          path := NoAccess;
      }
    }
  }

  lemma ResultsMore(start: seq<Bytes>, ops: seq<Op>, op: Op)
    requires Shaped(start) && Aligned(ops) && AlignedOp(op)
    ensures Results(start, ops + [op]) == Step(Results(start, ops), op)
  {
    assert (ops + [op])[..|ops|] == ops;
  }
}
