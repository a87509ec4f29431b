/** Stopping at sync packets and resuming is the same as walking without stopping. */
module QueueResume {
  import opened QueueSpec

  // ---------- one activation ----------

  /** A report on which the command processor marks the queue as free (cp_model/cp.cpp:89). */
  predicate IsRelease(m: Message) { m.queueStatus == CP_QUEUE_FREE && m.queueSync == 0 }

  function Releases(reports: seq<Message>): nat {
    if reports == [] then 0
    else Releases(reports[..|reports| - 1]) + if IsRelease(reports[|reports| - 1]) then 1 else 0
  }

  lemma ReleasesAppend(reports: seq<Message>, m: Message)
    ensures Releases(reports + [m]) == Releases(reports) + if IsRelease(m) then 1 else 0
  {
    assert (reports + [m])[..|reports|] == reports;
  }

  lemma {:induction false} ReleasesConcat(a: seq<Message>, b: seq<Message>)
    ensures Releases(a + b) == Releases(a) + Releases(b)
    decreases |b|
  {
    if b == [] {
      assert a + b == a;
    } else {
      var front := b[..|b| - 1];
      ReleasesConcat(a, front);
      assert (a + b)[..|a + b| - 1] == a + front;
    }
  }

  /** Everything that one activation of queue `id` with status `status` sends: that it paused at a sync
      packet, that it is free, and at the end of the round where it stands. */
  function RoundReports(id: int, status: int, synced: bool, free: bool): (reports: seq<Message>)
    ensures Releases(reports) == if free then 1 else 0
  {
    var sync := if synced then [Message(id, status, CP_DEVICE_SYNC, 0, 0)] else [];
    var release := if free then [Message(id, CP_QUEUE_FREE, 0, 0, 0)] else [];
    var last := [Message(id, if free then CP_QUEUE_FREE else status, CP_DEVICE_SYNC, 0, 0)];
    ReleasesConcat(sync, release);
    ReleasesConcat(sync + release, last);
    sync + release + last
  }

  /** What an activation by message `m` leaves when its walk from the loaded state is `w`. */
  ghost predicate Activated(q: Queue, m: Message, l: Queue, w: Walk, r: Queue) {
    var free := w.next == l.ibSize;
    && r.handled == q.handled + w.headers
    && r.buf == l.buf && r.ibSize == l.ibSize
    && r.queueId == m.queueId && r.queueStatus == (if free then CP_QUEUE_FREE else m.queueStatus)
    && r.queueSync == CP_DEVICE_SYNC
    && r.queuePause == (if free then 0 else if EndsInSync(w.headers) then 1 else q.queuePause)
    && r.ibOffset == (if free then 0 else w.next)
    && r.reports == q.reports + RoundReports(m.queueId, m.queueStatus, EndsInSync(w.headers), free)
    && Releases(r.reports) == Releases(q.reports) + if free then 1 else 0
  }

  lemma RoundEnds(p: Queue, before: seq<Message>, synced: bool)
    requires p.reports == before + if synced then [Message(p.queueId, p.queueStatus, CP_DEVICE_SYNC, 0, 0)] else []
    ensures var free := p.ibOffset == p.ibSize;
      var r := Report(if free then Release(p) else p, 1);
      && r.handled == p.handled && r.buf == p.buf && r.ibSize == p.ibSize && r.queueId == p.queueId
      && r.queueStatus == (if free then CP_QUEUE_FREE else p.queueStatus) && r.queueSync == CP_DEVICE_SYNC
      && r.queuePause == (if free then 0 else p.queuePause) && r.ibOffset == (if free then 0 else p.ibOffset)
      && r.reports == before + RoundReports(p.queueId, p.queueStatus, synced, free)
  {
  }

  lemma ActivationFacts(q: Queue, m: Message, addrs: AddrMap)
    requires Found(q, m, addrs) && Backed(q, m, addrs)
    ensures var l := Load(q, m, addrs);
      Activated(q, m, l, WalkFrom(l.buf, l.ibSize, l.ibOffset, m.queueSync == CP_DEVICE_SYNC), Activate(q, m, addrs))
  {
    var l := Load(q, m, addrs);
    var w := WalkFrom(l.buf, l.ibSize, l.ibOffset, m.queueSync == CP_DEVICE_SYNC);
    ParseWalks(l, m.queueSync == CP_DEVICE_SYNC);
    RoundEnds(Parse(l), q.reports, EndsInSync(w.headers));
    ReleasesConcat(q.reports, RoundReports(m.queueId, m.queueStatus, EndsInSync(w.headers), w.next == l.ibSize));
  }

  // ---------- sessions ----------

  /** A sequence of activations. */
  ghost predicate Session(qs: seq<Queue>, ms: seq<Message>, addrs: AddrMap) {
    && |qs| == |ms| + 1
    && forall i :: 0 <= i < |ms| ==>
         Found(qs[i], ms[i], addrs) && Backed(qs[i], ms[i], addrs) && qs[i + 1] == Activate(qs[i], ms[i], addrs)
  }

  ghost predicate Unarmed(ms: seq<Message>) { forall i :: 0 <= i < |ms| ==> ms[i].queueSync != CP_DEVICE_SYNC }

  /** How many unarmed activations a walk takes. */
  function Stops(buf: seq<Word>, size: nat, off: nat): nat
    requires size <= |buf|
    decreases size - off
  {
    if off >= size then 1
    else
      WalkIsPrefix(buf, size, off, false);
      var next := WalkFrom(buf, size, off, false).next;
      if next >= size then 1 else 1 + Stops(buf, size, next)
  }

  function SyncCount(hs: seq<Word>): nat {
    if hs == [] then 0 else (if IsSync(hs[0]) then 1 else 0) + SyncCount(hs[1..])
  }

  /** One activation per sync packet before the last packet, and one more. */
  lemma {:induction false} StopsCountsSyncs(buf: seq<Word>, size: nat, off: nat)
    requires size <= |buf| && off < size
    ensures var hs := Headers(buf, size, off); hs != [] && Stops(buf, size, off) == 1 + SyncCount(hs[..|hs| - 1])
    decreases size - off
  {
    var h, next := buf[off], off + buf[off].bodyDws + 1;
    WalkUnfolds(buf, size, off, false);
    StopsStep(buf, size, off);
    if next < size {
      StopsCountsSyncs(buf, size, next);
      FrontCount(h, Headers(buf, size, next));
    } else {
      LastHeader(buf, size, off);
    }
  }

  lemma FrontCount(h: Word, rest: seq<Word>)
    requires rest != []
    ensures var hs := [h] + rest;
      SyncCount(hs[..|hs| - 1]) == SyncCount(rest[..|rest| - 1]) + if IsSync(h) then 1 else 0
  {
    var front := rest[..|rest| - 1];
    assert ([h] + rest)[..|rest|] == [h] + front && ([h] + front)[1..] == front;
  }

  lemma LastHeader(buf: seq<Word>, size: nat, off: nat)
    requires off < size <= |buf| && off + buf[off].bodyDws + 1 >= size
    ensures Headers(buf, size, off) == [buf[off]] && SyncCount(Headers(buf, size, off)[..0]) == 0
  {
    assert Headers(buf, size, off)[..0] == [];
  }

  lemma StopsStep(buf: seq<Word>, size: nat, off: nat)
    requires size <= |buf| && off < size
    ensures var next := off + buf[off].bodyDws + 1;
      Stops(buf, size, off) == if next < size then Stops(buf, size, next) + if IsSync(buf[off]) then 1 else 0 else 1
  {
    WalkUnfolds(buf, size, off, false);
  }

  /** Where a suspended or fresh queue stands in the walk of `buf`. */
  ghost predicate Suspended(q: Queue, buf: seq<Word>, size: nat) {
    size <= |buf| && q.queuePause == 1 && q.buf == buf && q.ibSize == size
  }

  /** The next stretch of the walk of `buf` starts at `off`: the queue is suspended there, or free and sent there. */
  ghost predicate Due(q: Queue, m: Message, addrs: AddrMap, buf: seq<Word>, size: nat, off: nat) {
    && Found(q, m, addrs) && Backed(q, m, addrs) && m.queueSync != CP_DEVICE_SYNC && size <= |buf|
    && if q.queuePause == 0 then buf == addrs[m.addr] && size == m.ibSize && off == 0
       else Suspended(q, buf, size) && q.ibOffset == off
  }

  lemma OneStretch(q: Queue, m: Message, addrs: AddrMap, buf: seq<Word>, size: nat, off: nat)
    requires Due(q, m, addrs, buf, size, off)
    ensures var w, r := WalkFrom(buf, size, off, false), Activate(q, m, addrs);
      && r.handled == q.handled + w.headers
      && Releases(r.reports) == Releases(q.reports) + (if w.next == size then 1 else 0)
      && (w.next == size ==> r.queuePause == 0)
      && (w.next < size || (w.next > size && q.queuePause == 1) ==> Suspended(r, buf, size) && r.ibOffset == w.next)
  {
    ActivationFacts(q, m, addrs);
    WalkIsPrefix(buf, size, off, false);
  }

  lemma JoinWalks(handled: seq<Word>, buf: seq<Word>, size: nat, off: nat)
    requires size <= |buf|
    ensures var w := WalkFrom(buf, size, off, false);
      && (handled + w.headers) + Headers(buf, size, w.next) == handled + Headers(buf, size, off)
      && End(buf, size, w.next) == End(buf, size, off)
      && (w.next >= size ==> handled + w.headers == handled + Headers(buf, size, off) && End(buf, size, off) == w.next)
  {
    WalkIsPrefix(buf, size, off, false);
  }

  /** Resuming: each further activation handles the next stretch of the walk, and the last one, which is
      the one after `Stops` of them, releases the queue if and only if the buffer is consumed exactly. */
  lemma {:induction false} Resumes(qs: seq<Queue>, ms: seq<Message>, addrs: AddrMap, buf: seq<Word>, size: nat)
    requires Session(qs, ms, addrs) && Unarmed(ms) && Suspended(qs[0], buf, size)
    requires |ms| == Stops(buf, size, qs[0].ibOffset) && qs[0].ibOffset != size
    ensures var q := qs[|ms|];
      && q.handled == qs[0].handled + Headers(buf, size, qs[0].ibOffset)
      && (q.queuePause == 0 <==> End(buf, size, qs[0].ibOffset) == size)
      && Releases(q.reports) == Releases(qs[0].reports) + if End(buf, size, qs[0].ibOffset) == size then 1 else 0
    ensures forall k :: 0 < k < |ms| ==> Suspended(qs[k], buf, size)
    ensures End(buf, size, qs[0].ibOffset) != size ==> Suspended(qs[|ms|], buf, size) && qs[|ms|].ibOffset > size
    decreases |ms|
  {
    var off := qs[0].ibOffset;
    var w := WalkFrom(buf, size, off, false);
    assert qs[0 + 1] == Activate(qs[0], ms[0], addrs);
    OneStretch(qs[0], ms[0], addrs, buf, size, off);
    JoinWalks(qs[0].handled, buf, size, off);
    if off < size && w.next < size {
      SessionTail(qs, ms, addrs);
      Resumes(qs[1..], ms[1..], addrs, buf, size);
      assert qs[|ms|] == qs[1..][|ms[1..]|];
      forall k | 0 < k < |ms|
        ensures Suspended(qs[k], buf, size)
      {
        if k > 1 { assert qs[k] == qs[1..][k - 1]; }
      }
    }
  }

  lemma SessionTail(qs: seq<Queue>, ms: seq<Message>, addrs: AddrMap)
    requires Session(qs, ms, addrs) && ms != []
    ensures Session(qs[1..], ms[1..], addrs) && (Unarmed(ms) ==> Unarmed(ms[1..]))
  {
    forall i | 0 <= i < |ms[1..]|
      ensures Found(qs[1..][i], ms[1..][i], addrs) && Backed(qs[1..][i], ms[1..][i], addrs)
      ensures qs[1..][i + 1] == Activate(qs[1..][i], ms[1..][i], addrs)
    {
      assert qs[1..][i] == qs[i + 1] && ms[1..][i] == ms[i + 1];
      assert qs[(i + 1) + 1] == Activate(qs[i + 1], ms[i + 1], addrs);
    }
  }

  /** The whole story of a buffer: started on a free queue and resumed with whatever messages whose
      queue_sync is not CP_DEVICE_SYNC, its headers are handled exactly as by one uninterrupted walk. */
  lemma SuspendResumeIsOneWalk(qs: seq<Queue>, ms: seq<Message>, addrs: AddrMap)
    requires Session(qs, ms, addrs) && Unarmed(ms) && qs[0].queuePause == 0 && |ms| > 0
    requires var buf, size := addrs[ms[0].addr], ms[0].ibSize; |ms| == Stops(buf, size, 0)
    ensures var buf, size, q := addrs[ms[0].addr], ms[0].ibSize, qs[|ms|];
      && q.handled == qs[0].handled + Headers(buf, size, 0)
      && Releases(q.reports) == Releases(qs[0].reports) + (if End(buf, size, 0) == size then 1 else 0)
      && (End(buf, size, 0) == size ==> q.queuePause == 0)
    ensures forall k :: 0 < k < |ms| ==> qs[k].queuePause == 1
  {
    var buf, size := addrs[ms[0].addr], ms[0].ibSize;
    var w := WalkFrom(buf, size, 0, false);
    assert qs[0 + 1] == Activate(qs[0], ms[0], addrs);
    OneStretch(qs[0], ms[0], addrs, buf, size, 0);
    JoinWalks(qs[0].handled, buf, size, 0);
    if w.next < size {
      SessionTail(qs, ms, addrs);
      Resumes(qs[1..], ms[1..], addrs, buf, size);
      assert qs[|ms|] == qs[1..][|ms[1..]|];
      forall k | 0 < k < |ms|
        ensures qs[k].queuePause == 1
      {
        if k > 1 { assert Suspended(qs[1..][k - 1], buf, size); }
      }
    }
  }

  /** For an encoded packet list that fills the buffer, in terms of packets: every header handled once, in
      order, and one release. */
  lemma EncodedStream(qs: seq<Queue>, ms: seq<Message>, addrs: AddrMap, ps: seq<Packet>)
    requires WellFormed(ps) && Session(qs, ms, addrs) && Unarmed(ms) && qs[0].queuePause == 0 && |ms| > 0
    requires addrs[ms[0].addr] == Encode(ps) && ms[0].ibSize == |Encode(ps)|
    requires |ms| == Stops(Encode(ps), |Encode(ps)|, 0)
    ensures var q := qs[|ms|];
      && q.handled == qs[0].handled + HeadersOf(ps)
      && q.queuePause == 0 && Releases(q.reports) == Releases(qs[0].reports) + 1
  {
    SuspendResumeIsOneWalk(qs, ms, addrs);
    WalkDecodes([], ps, []);
    assert [] + Encode(ps) + [] == Encode(ps);
    assert [] + Encode(ps) == Encode(ps);
  }

  // ---------- malformed buffers ----------

  /** A queue suspended beyond the end of its buffer is lost: whatever it is sent, it handles nothing
      more and is never released. */
  lemma {:induction false} OverrunIsForGood(qs: seq<Queue>, ms: seq<Message>, addrs: AddrMap, buf: seq<Word>, size: nat)
    requires Session(qs, ms, addrs) && Suspended(qs[0], buf, size) && qs[0].ibOffset > size
    ensures var q := qs[|ms|];
      && Suspended(q, buf, size) && q.ibOffset == qs[0].ibOffset
      && q.handled == qs[0].handled && Releases(q.reports) == Releases(qs[0].reports)
    decreases |ms|
  {
    if ms != [] {
      assert qs[0 + 1] == Activate(qs[0], ms[0], addrs);
      OverrunOnce(qs[0], ms[0], addrs, buf, size);
      SessionTail(qs, ms, addrs);
      OverrunIsForGood(qs[1..], ms[1..], addrs, buf, size);
      assert qs[|ms|] == qs[1..][|ms[1..]|];
    }
  }

  lemma OverrunOnce(q: Queue, m: Message, addrs: AddrMap, buf: seq<Word>, size: nat)
    requires Found(q, m, addrs) && Backed(q, m, addrs) && Suspended(q, buf, size) && q.ibOffset > size
    ensures var r := Activate(q, m, addrs);
      && Suspended(r, buf, size) && r.ibOffset == q.ibOffset
      && r.handled == q.handled && Releases(r.reports) == Releases(q.reports)
  {
    ActivationFacts(q, m, addrs);
  }

  /** A first stretch is a single packet if and only if that packet is a sync packet or the last one. */
  lemma FirstStretch(buf: seq<Word>, size: nat)
    requires 0 < size <= |buf|
    ensures WalkFrom(buf, size, 0, true).headers == [buf[0]]
    ensures |WalkFrom(buf, size, 0, false).headers| == 1 <==> IsSync(buf[0]) || buf[0].bodyDws + 1 >= size
    ensures |WalkFrom(buf, size, 0, false).headers| == 1 ==> WalkFrom(buf, size, 0, false).headers == [buf[0]]
  {
    if !IsSync(buf[0]) { WalkIsPrefix(buf, size, buf[0].bodyDws + 1, false); }
  }

  /** Why queue_sync must not arrive as CP_DEVICE_SYNC: a fresh queue then handles one packet only, and this
      agrees with an ordinary first stretch if and only if that packet is a sync packet or the last one. */
  lemma ArmedStopsAtOnce(q: Queue, m: Message, addrs: AddrMap)
    requires q.queuePause == 0 && m.addr in addrs && 0 < m.ibSize <= |addrs[m.addr]|
    requires m.queueSync == CP_DEVICE_SYNC
    ensures var buf := addrs[m.addr];
      var armed, unarmed := Activate(q, m, addrs), Activate(q, m.(queueSync := 0), addrs);
      && armed.handled == q.handled + [buf[0]]
      && (armed.handled == unarmed.handled <==> IsSync(buf[0]) || buf[0].bodyDws + 1 >= m.ibSize)
  {
    FirstStretch(addrs[m.addr], m.ibSize);
    ActivationHandles(q, m, addrs);
    ActivationHandles(q, m.(queueSync := 0), addrs);
  }

  lemma ActivationHandles(q: Queue, m: Message, addrs: AddrMap)
    requires q.queuePause == 0 && m.addr in addrs && m.ibSize <= |addrs[m.addr]|
    ensures var hs := WalkFrom(addrs[m.addr], m.ibSize, 0, m.queueSync == CP_DEVICE_SYNC).headers;
      Activate(q, m, addrs).handled == q.handled + hs && |Activate(q, m, addrs).handled| == |q.handled| + |hs|
  {
    ActivationFacts(q, m, addrs);
  }
}
