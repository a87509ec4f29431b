/** The class AJQueue of cp_model/ajqueue.cpp: its fields, and its methods as they update them. */
module AJQueues {
  import opened QueueSpec
  import opened QueueResume

  // ---------- header fields ----------

  function GetHeaderPacketType(h: bv32): bv32 { (h & 0x80000000) >> 31 }

  function GetHeaderDst(h: bv32): bv32 { (h & 0x70000000) >> 28 }

  function GetHeaderCmdType(h: bv32): bv32 { (h & 0x0F000000) >> 24 }

  function GetHeaderBodydws(h: bv32): bv32 { (h & 0x000FFFC0) >> 6 }

  function Decode(h: bv32): Word {
    Word(GetHeaderPacketType(h) as nat, GetHeaderDst(h) as nat, GetHeaderCmdType(h) as nat, GetHeaderBodydws(h) as nat)
  }

  function MakeHeader(packetType: bv32, dst: bv32, cmdType: bv32, bodyDws: bv32, flags: bv32): bv32 {
    (packetType << 31) | (dst << 28) | (cmdType << 24) | (bodyDws << 6) | flags
  }

  /** The four extractors take a header apart into the fields it was made of. */
  lemma FieldsOfHeader(packetType: bv32, dst: bv32, cmdType: bv32, bodyDws: bv32, flags: bv32)
    requires packetType < 2 && dst < 8 && cmdType < 16 && bodyDws < 0x4000 && flags < 64
    ensures var h := MakeHeader(packetType, dst, cmdType, bodyDws, flags);
      && GetHeaderPacketType(h) == packetType && GetHeaderDst(h) == dst
      && GetHeaderCmdType(h) == cmdType && GetHeaderBodydws(h) == bodyDws
  {
  }

  /** A header word is its fields in their places: the type in bit 31, the destination in bits 28 to 30, the
      command type in 24 to 27, the body length in 6 to 19, with four unused bits and six flag bits. */
  lemma PlacesOfFields(h: bv32)
    ensures GetHeaderPacketType(h) < 2 && GetHeaderDst(h) < 8 && GetHeaderCmdType(h) < 16 && GetHeaderBodydws(h) < 0x4000
    ensures h == GetHeaderPacketType(h) * 0x8000_0000 + GetHeaderDst(h) * 0x1000_0000 + GetHeaderCmdType(h) * 0x100_0000
                 + ((h >> 20) & 0xF) * 0x10_0000 + GetHeaderBodydws(h) * 0x40 + (h & 0x3F)
  {
  }

  /** The sync packets are the headers whose bits 24 to 30 are 0x32. */
  lemma SyncHeaders(h: bv32)
    ensures IsSync(Decode(h)) <==> h & 0x7F00_0000 == 0x3200_0000
  {
    assert GetHeaderDst(h) == 3 <==> h & 0x7000_0000 == 0x3000_0000;
    assert GetHeaderCmdType(h) == 2 <==> h & 0x0F00_0000 == 0x0200_0000;
  }

  /** No packet is longer than 2^14 words, so one step never moves the offset far beyond the buffer. */
  lemma BodyBound(h: bv32)
    ensures Decode(h).bodyDws < 0x4000
  {
    assert GetHeaderBodydws(h) < 0x4000;
  }

  function DecodeAll(words: seq<bv32>): (r: seq<Word>)
    ensures |r| == |words| && forall i :: 0 <= i < |words| ==> r[i] == Decode(words[i])
  {
    if words == [] then [] else [Decode(words[0])] + DecodeAll(words[1..])
  }

  lemma {:induction false} DecodeAppend(words: seq<bv32>, h: bv32)
    ensures DecodeAll(words + [h]) == DecodeAll(words) + [Decode(h)]
  {
  }

  function Addrs(memory: map<nat, seq<bv32>>): AddrMap { map a | a in memory :: DecodeAll(memory[a]) }

  class AJQueue {
    var queueId: int
    var queueStatus: int
    var queueSync: int
    var mes: Message
    var ibuf: seq<bv32>       // what ibuf_ptr points to
    var ibSize: nat
    var ibOffset: nat
    var queuePause: int
    var handled: seq<bv32>    // the headers given to CpCommandHeader
    var reports: seq<Message> // the messages sent to the command processor

    function View(): Queue
      reads this
    {
      Queue(queueId, queueStatus, queueSync, mes, DecodeAll(ibuf), ibSize, ibOffset, queuePause, DecodeAll(handled), reports)
    }

    constructor (id: int)
      ensures View() == Queue(id, CP_QUEUE_FREE, 0, Message(0, 0, 0, 0, 0), [], 0, 0, 0, [], [])
    {
      queueId, queueStatus, queueSync, mes := id, CP_QUEUE_FREE, 0, Message(0, 0, 0, 0, 0);
      ibuf, ibSize, ibOffset, queuePause := [], 0, 0, 0;
      handled, reports := [], [];
    }

    method BTransport(m: Message)
      modifies this
      ensures View() == Receive(old(View()), m)
      ensures mes == m && queueId == m.queueId && queueStatus == m.queueStatus && queueSync == m.queueSync
    {
      mes := m;
      queueId := mes.queueId;
      queueStatus := mes.queueStatus;
      queueSync := mes.queueSync;
    }

    method QueueReportCp(statusToCp: int)
      modifies this
      ensures ibuf == old(ibuf) && View() == Report(old(View()), statusToCp)
      ensures reports == old(reports) + [mes] && queueId == old(queueId)
      ensures statusToCp == 0 ==> mes == Message(queueId, CP_QUEUE_FREE, 0, 0, 0)
      ensures statusToCp == 1 ==> mes == Message(queueId, old(queueStatus), CP_DEVICE_SYNC, 0, 0)
      ensures statusToCp != 0 && statusToCp != 1 ==> mes == old(mes).(queueId := queueId, ibSize := 0, addr := 0)
    {
      mes := mes.(queueId := queueId, ibSize := 0, addr := 0);
      if statusToCp == 1 {
        queueSync := CP_DEVICE_SYNC;
        mes := mes.(queueSync := queueSync, queueStatus := queueStatus);
      } else if statusToCp == 0 {
        queueSync := 0;
        queueStatus := CP_QUEUE_FREE;
        mes := mes.(queueSync := queueSync, queueStatus := queueStatus);
      }
      reports := reports + [mes];
    }

    method CpDeviceSync()
      modifies this
      ensures ibuf == old(ibuf) && View() == DeviceSync(old(View()))
      ensures queuePause == 1 && reports == old(reports) + [Message(queueId, queueStatus, CP_DEVICE_SYNC, 0, 0)]
    {
      queuePause := 1;
      queueSync := 1;
      QueueReportCp(1);
    }

    method CpQueueRelease()
      modifies this
      ensures View() == Release(old(View()))
      ensures queuePause == 0 && ibOffset == 0 && queueStatus == CP_QUEUE_FREE
      ensures reports == old(reports) + [Message(queueId, CP_QUEUE_FREE, 0, 0, 0)]
    {
      queuePause := 0;
      queueStatus := CP_QUEUE_FREE;
      ibOffset := 0;
      QueueReportCp(0);
    }

    method CpCommandHeader(commandHeader: bv32)
      modifies this
      ensures View() == Handle(old(View()), Decode(commandHeader)) && ibuf == old(ibuf)
    {
      DecodeAppend(handled, commandHeader);
      handled := handled + [commandHeader];
      if GetHeaderDst(commandHeader) as nat == 3 {
        if GetHeaderCmdType(commandHeader) as nat == 2 { CpDeviceSync(); }
      }
    }

    method ParseOne()
      requires ibOffset < ibSize <= |ibuf|
      modifies this
      ensures View() == ParsePacket(old(View())) && ibuf == old(ibuf) && old(ibOffset) < ibOffset
    {
      var commandHeader := ibuf[ibOffset];
      assert View().buf[ibOffset] == Decode(commandHeader);
      var headerBodyDws := GetHeaderBodydws(commandHeader) as nat;
      CpCommandHeader(commandHeader);
      ibOffset := ibOffset + headerBodyDws + 1;
    }

    /** The loop of CpIndirectBuffer. */
    method ParseLoop()
      requires ibSize <= |ibuf|
      modifies this
      ensures View() == Parse(old(View()))
    {
      ghost var start := View();
      while ibOffset < ibSize
        invariant ibSize <= |ibuf| && Parse(View()) == Parse(start)
        decreases ibSize - ibOffset
      {
        ghost var before := View();
        ParseOne();
        assert View() == ParsePacket(before);
        if queueSync == CP_DEVICE_SYNC { break; }
      }
    }

    /** `found` is false when getIbufPtr throws, which leaves the queue as it was. */
    method CpIndirectBuffer(memory: map<nat, seq<bv32>>) returns (found: bool)
      requires Backed(View(), mes, Addrs(memory))
      modifies this
      ensures found == Found(old(View()), old(mes), Addrs(memory)) == (old(queuePause) != 0 || old(mes).addr in memory)
      ensures !found ==> View() == old(View())
      ensures found ==>
        var p := Parse(LoadBuffer(old(View()), Addrs(memory)));
        View() == if p.ibOffset == p.ibSize then Release(p) else p
    {
      if queuePause == 0 {
        if mes.addr !in memory { return false; }
        ibuf := memory[mes.addr];
        ibSize := mes.ibSize;
        ibOffset := 0;
      }
      found := true;
      ParseLoop();
      if ibOffset == ibSize { CpQueueRelease(); }
    }

    /** One message and the round of Thread_Queue that it wakes. */
    method OnMessage(m: Message, memory: map<nat, seq<bv32>>) returns (found: bool)
      requires Backed(View(), m, Addrs(memory))
      modifies this
      ensures found == Found(old(View()), m, Addrs(memory)) == (old(queuePause) != 0 || m.addr in memory)
      ensures View() == if found then Activate(old(View()), m, Addrs(memory)) else Receive(old(View()), m)
      ensures found ==>
        var l := Load(old(View()), m, Addrs(memory));
        Activated(old(View()), m, l, WalkFrom(l.buf, l.ibSize, l.ibOffset, m.queueSync == CP_DEVICE_SYNC), View())
    {
      ghost var q := View();
      BTransport(m);
      found := CpIndirectBuffer(memory);
      if found {
        QueueReportCp(1);
        ActivationFacts(q, m, Addrs(memory));
      }
    }
  }
}
