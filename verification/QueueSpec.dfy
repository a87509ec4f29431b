/** Packets in an indirect buffer, and what one activation of a command queue does with them
    (cp_model/ajqueue.cpp). */
module QueueSpec {

  const CP_QUEUE_FREE := 0
  const CP_DEVICE_SYNC := 1

  // ---------- words ----------

  /** A word of the buffer as the header extractors see it. */
  datatype Word = Word(packetType: nat, dst: nat, cmdType: nat, bodyDws: nat)

  predicate IsSync(h: Word) { h.dst == 3 && h.cmdType == 2 }

  // ---------- one uninterrupted walk ----------

  /** The headers met from `off` on, each packet being its header and as many words as the header says. */
  function Headers(buf: seq<Word>, size: nat, off: nat): seq<Word>
    requires size <= |buf|
    decreases size - off
  {
    if off >= size then [] else [buf[off]] + Headers(buf, size, off + buf[off].bodyDws + 1)
  }

  /** Where that walk ends: at `size`, or beyond it if the last packet is cut off. */
  function End(buf: seq<Word>, size: nat, off: nat): nat
    requires size <= |buf|
    decreases size - off
  {
    if off >= size then off else End(buf, size, off + buf[off].bodyDws + 1)
  }

  // ---------- a walk that stops at sync packets ----------

  datatype Walk = Walk(headers: seq<Word>, next: nat)

  /** The loop of CpIndirectBuffer; `armed` says that queue_sync was CP_DEVICE_SYNC on entry. */
  function WalkFrom(buf: seq<Word>, size: nat, off: nat, armed: bool): Walk
    requires size <= |buf|
    decreases size - off
  {
    if off >= size then Walk([], off)
    else
      var h, next := buf[off], off + buf[off].bodyDws + 1;
      if armed || IsSync(h) then Walk([h], next)
      else
        var rest := WalkFrom(buf, size, next, armed);
        Walk([h] + rest.headers, rest.next)
  }

  predicate EndsInSync(hs: seq<Word>) { hs != [] && IsSync(hs[|hs| - 1]) }

  /** The interrupted walk is a prefix of the uninterrupted one, and resuming where it stopped gives the rest. */
  lemma {:induction false} WalkIsPrefix(buf: seq<Word>, size: nat, off: nat, armed: bool)
    requires size <= |buf|
    ensures var w := WalkFrom(buf, size, off, armed);
      && w.headers + Headers(buf, size, w.next) == Headers(buf, size, off)
      && End(buf, size, w.next) == End(buf, size, off)
      && (off < size ==> w.headers != [] && off < w.next)
      && (w.next < size ==> armed || EndsInSync(w.headers))
    decreases size - off
  {
    if off < size {
      var h, next := buf[off], off + buf[off].bodyDws + 1;
      WalkUnfolds(buf, size, off, armed);
      if !(armed || IsSync(h)) {
        WalkIsPrefix(buf, size, next, armed);
        var rest := WalkFrom(buf, size, next, armed);
        Prepended(h, rest.headers, Headers(buf, size, rest.next), Headers(buf, size, next));
      }
    }
  }

  /** One packet of each walk. */
  lemma WalkUnfolds(buf: seq<Word>, size: nat, off: nat, armed: bool)
    requires size <= |buf| && off < size
    ensures var h, next := buf[off], off + buf[off].bodyDws + 1;
      && Headers(buf, size, off) == [h] + Headers(buf, size, next)
      && End(buf, size, off) == End(buf, size, next)
      && WalkFrom(buf, size, off, armed)
         == (if armed || IsSync(h) then Walk([h], next)
             else Walk([h] + WalkFrom(buf, size, next, armed).headers, WalkFrom(buf, size, next, armed).next))
  {
  }

  /** Putting one header in front of a stretch and of the whole. */
  lemma Prepended(h: Word, stretch: seq<Word>, rest: seq<Word>, whole: seq<Word>)
    requires stretch + rest == whole
    ensures ([h] + stretch) + rest == [h] + whole
    ensures EndsInSync(stretch) ==> EndsInSync([h] + stretch)
  {
    assert stretch != [] ==> ([h] + stretch)[|stretch|] == stretch[|stretch| - 1];
  }

  /** Unarmed, a walk handles nothing after a sync packet: only its last header can be one. */
  lemma {:induction false} SyncOnlyLast(buf: seq<Word>, size: nat, off: nat, i: nat)
    requires size <= |buf| && i + 1 < |WalkFrom(buf, size, off, false).headers|
    ensures !IsSync(WalkFrom(buf, size, off, false).headers[i])
    decreases size - off
  {
    var next := off + buf[off].bodyDws + 1;
    if i > 0 { SyncOnlyLast(buf, size, next, i - 1); }
  }

  // ---------- encoding ----------

  datatype Packet = Packet(header: Word, body: seq<Word>)

  predicate WellFormed(ps: seq<Packet>) { forall i :: 0 <= i < |ps| ==> |ps[i].body| == ps[i].header.bodyDws }

  function Encode(ps: seq<Packet>): seq<Word> {
    if ps == [] then [] else [ps[0].header] + ps[0].body + Encode(ps[1..])
  }

  function HeadersOf(ps: seq<Packet>): seq<Word> {
    if ps == [] then [] else [ps[0].header] + HeadersOf(ps[1..])
  }

  lemma HeadersStep(buf: seq<Word>, size: nat, off: nat, p: Packet)
    requires off < size <= |buf| && buf[off] == p.header && |p.body| == p.header.bodyDws
    ensures Headers(buf, size, off) == [p.header] + Headers(buf, size, off + 1 + |p.body|)
    ensures End(buf, size, off) == End(buf, size, off + 1 + |p.body|)
  {
  }

  /** The words from `off` to `size` split into the first packet and the rest. */
  lemma FirstPacket(buf: seq<Word>, size: nat, off: nat, ps: seq<Packet>)
    requires off <= size <= |buf| && ps != [] && buf[off..size] == Encode(ps)
    ensures var next := off + 1 + |ps[0].body|;
      off < next <= size && buf[off] == ps[0].header && buf[next..size] == Encode(ps[1..])
  {
    var first, rest := [ps[0].header] + ps[0].body, Encode(ps[1..]);
    assert buf[off..size] == first + rest;
    assert buf[off..size][0] == first[0];
    assert buf[off..size][|first|..] == rest;
  }

  lemma {:induction false} WalkDecodesAt(buf: seq<Word>, size: nat, off: nat, ps: seq<Packet>)
    requires off <= size <= |buf| && WellFormed(ps) && buf[off..size] == Encode(ps)
    ensures Headers(buf, size, off) == HeadersOf(ps) && End(buf, size, off) == size
    decreases |ps|
  {
    if ps != [] {
      var next := off + 1 + |ps[0].body|;
      FirstPacket(buf, size, off, ps);
      HeadersStep(buf, size, off, ps[0]);
      WalkDecodesAt(buf, size, next, ps[1..]);
      assert HeadersOf(ps) == [ps[0].header] + HeadersOf(ps[1..]);
    }
  }

  /** Walking an encoded packet list, wherever it lies in memory, gives back its headers and ends at its end. */
  lemma WalkDecodes(before: seq<Word>, ps: seq<Packet>, after: seq<Word>)
    requires WellFormed(ps)
    ensures var buf, size := before + Encode(ps) + after, |before + Encode(ps)|;
      && Headers(buf, size, |before|) == HeadersOf(ps)
      && End(buf, size, |before|) == size
  {
    var buf, size := before + Encode(ps) + after, |before + Encode(ps)|;
    assert buf[|before|..size] == Encode(ps);
    WalkDecodesAt(buf, size, |before|, ps);
  }

  // ---------- one activation ----------

  datatype Message = Message(queueId: int, queueStatus: int, queueSync: int, ibSize: nat, addr: nat)

  datatype Queue = Queue(queueId: int, queueStatus: int, queueSync: int, mes: Message,
                         buf: seq<Word>, ibSize: nat, ibOffset: nat, queuePause: int,
                         handled: seq<Word>, reports: seq<Message>)

  type AddrMap = map<nat, seq<Word>>

  /** b_transport. */
  function Receive(q: Queue, m: Message): Queue {
    q.(mes := m, queueId := m.queueId, queueStatus := m.queueStatus, queueSync := m.queueSync)
  }

  /** QueueReportCp. */
  function Report(q: Queue, toCp: int): Queue {
    var q1 :=
      if toCp == 1 then q.(queueSync := CP_DEVICE_SYNC)
      else if toCp == 0 then q.(queueSync := 0, queueStatus := CP_QUEUE_FREE)
      else q;
    var mes := Message(q.queueId, if toCp == 0 || toCp == 1 then q1.queueStatus else q.mes.queueStatus,
                       if toCp == 0 || toCp == 1 then q1.queueSync else q.mes.queueSync, 0, 0);
    q1.(mes := mes, reports := q.reports + [mes])
  }

  /** CpDeviceSync. */
  function DeviceSync(q: Queue): Queue { Report(q.(queuePause := 1, queueSync := 1), 1) }

  /** CpQueueRelease. */
  function Release(q: Queue): Queue { Report(q.(queuePause := 0, queueStatus := CP_QUEUE_FREE, ibOffset := 0), 0) }

  /** CpCommandHeader: only sync packets have an effect. */
  function Handle(q: Queue, h: Word): Queue {
    var q1 := q.(handled := q.handled + [h]);
    if IsSync(h) then DeviceSync(q1) else q1
  }

  predicate Readable(q: Queue) { q.ibSize <= |q.buf| }

  /** One packet: its header is handled, and the offset moves past its body. */
  function ParsePacket(q: Queue): Queue
    requires Readable(q) && q.ibOffset < q.ibSize
  {
    var h := q.buf[q.ibOffset];
    Handle(q, h).(ibOffset := q.ibOffset + h.bodyDws + 1)
  }

  /** The loop of CpIndirectBuffer. */
  function Parse(q: Queue): Queue
    requires Readable(q)
    decreases q.ibSize - q.ibOffset
  {
    if q.ibOffset >= q.ibSize then q
    else
      var q2 := ParsePacket(q);
      if q2.queueSync == CP_DEVICE_SYNC then q2 else Parse(q2)
  }

  /** Whether the activation finds a buffer; otherwise getIbufPtr throws. */
  predicate Found(q: Queue, m: Message, addrs: AddrMap) { q.queuePause == 0 ==> m.addr in addrs }

  /** The memory behind the address must hold what the message announces. */
  predicate Backed(q: Queue, m: Message, addrs: AddrMap) {
    if q.queuePause == 0 then m.addr in addrs ==> m.ibSize <= |addrs[m.addr]| else Readable(q)
  }

  function LoadBuffer(q: Queue, addrs: AddrMap): Queue
    requires Found(q, q.mes, addrs)
  {
    if q.queuePause == 0 then q.(buf := addrs[q.mes.addr], ibSize := q.mes.ibSize, ibOffset := 0) else q
  }

  function Load(q: Queue, m: Message, addrs: AddrMap): Queue
    requires Found(q, m, addrs)
  {
    LoadBuffer(Receive(q, m), addrs)
  }

  /** One round of Thread_Queue. */
  function Activate(q: Queue, m: Message, addrs: AddrMap): Queue
    requires Found(q, m, addrs) && Backed(q, m, addrs)
  {
    var q1 := Parse(Load(q, m, addrs));
    Report(if q1.ibOffset == q1.ibSize then Release(q1) else q1, 1)
  }

  /** What the loop leaves, given the walk it made. */
  ghost predicate Parsed(q: Queue, r: Queue, w: Walk) {
    && r.handled == q.handled + w.headers && r.ibOffset == w.next
    && r.buf == q.buf && r.ibSize == q.ibSize && r.queueId == q.queueId && r.queueStatus == q.queueStatus
    && (if EndsInSync(w.headers) then
          r.queuePause == 1 && r.queueSync == 1 && r.reports == q.reports + [Message(q.queueId, q.queueStatus, 1, 0, 0)]
        else
          r.queuePause == q.queuePause && r.queueSync == q.queueSync && r.reports == q.reports)
  }

  lemma ParsedStep(q: Queue, h: Word, next: nat, r: Queue, rest: Walk)
    requires !IsSync(h) && Parsed(Handle(q, h).(ibOffset := next), r, rest)
    ensures Parsed(q, r, Walk([h] + rest.headers, rest.next))
  {
    assert q.handled + [h] + rest.headers == q.handled + ([h] + rest.headers);
    if rest.headers != [] {
      assert ([h] + rest.headers)[|rest.headers|] == rest.headers[|rest.headers| - 1];
    }
  }

  lemma ParsedOnce(q: Queue, h: Word, next: nat)
    ensures Parsed(q, Handle(q, h).(ibOffset := next), Walk([h], next))
  {
  }

  lemma HandleFacts(q: Queue, h: Word)
    ensures var r := Handle(q, h);
      r.buf == q.buf && r.ibSize == q.ibSize && r.queueSync == if IsSync(h) then CP_DEVICE_SYNC else q.queueSync
  {
  }

  /** The loop handles exactly the headers of the interruptible walk, and pauses the queue exactly when
      that walk met a sync packet. */
  lemma {:induction false} ParseWalks(q: Queue, armed: bool)
    requires Readable(q) && armed == (q.queueSync == CP_DEVICE_SYNC)
    ensures Parsed(q, Parse(q), WalkFrom(q.buf, q.ibSize, q.ibOffset, armed))
    decreases q.ibSize - q.ibOffset, 1
  {
    if q.ibOffset < q.ibSize {
      ParseWalksOn(q, armed, q.buf[q.ibOffset], q.buf[q.ibOffset].bodyDws);
    }
  }

  lemma {:induction false} ParseWalksOn(q: Queue, armed: bool, h: Word, dws: nat)
    requires Readable(q) && armed == (q.queueSync == CP_DEVICE_SYNC)
    requires q.ibOffset < q.ibSize && h == q.buf[q.ibOffset] && dws == h.bodyDws
    ensures Parsed(q, Parse(q), WalkFrom(q.buf, q.ibSize, q.ibOffset, armed))
    decreases q.ibSize - q.ibOffset, 0
  {
    var next := q.ibOffset + dws + 1;
    var q2 := Handle(q, h).(ibOffset := next);
    HandleFacts(q, h);
    if armed || IsSync(h) {
      ParsedOnce(q, h, next);
    } else {
      ParseWalks(q2, false);
      ParsedStep(q, h, next, Parse(q2), WalkFrom(q.buf, q.ibSize, next, false));
    }
  }
}
