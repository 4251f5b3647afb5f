/** The NIC side of the receive path, and the receiver's poll loop on the application side. */
module ReceivePath {
  import opened Wrappers
  import opened Bits
  import opened LittleEndian
  import opened SpscRing
  import opened NicSpec
  import opened VirtualInterface
  import N = NicSteps

  /** Acquire, copy, complete. */
  function Received(c: NicConfig, v: Vi, pkt: seq<byte>): Vi
    requires Fits(c, v) && v.rx != [] && v.rx[0] < c.count
  {
    Completed(c, Dma(c, Acquired(v), v.rx[0], pkt), v.rx[0], Min(|pkt|, c.size))
  }

  // ---------- synthetic packets ----------

  /** Packet number i of a synthetic run: its number, if it fits, then zeros. */
  function FakePacket(i: nat, payload: nat): (r: seq<byte>)
    ensures |r| == payload
    ensures forall k :: (if payload >= 8 then 8 else 0) <= k < payload ==> r[k] == 0
  {
    if payload >= 8 then LeBytes(i, 8) + seq(payload - 8, _ => 0) else seq(payload, _ => 0)
  }

  /** Synthetic packets are numbered from 0. */
  lemma FakePacketsNumbered(i: nat, payload: nat)
    requires i < WORD && payload >= 8
    ensures N.Seq(FakePacket(i, payload)) == i
  {
    WordIsPow2();
    LeRoundTrip(i, 8);
    assert FakePacket(i, payload)[..8] == LeBytes(i, 8);
  }

  class Nic {
    const vi: Interface

    constructor (vi: Interface)
      ensures this.vi == vi
    {
      this.vi := vi;
    }

    /** memcpy into a pool buffer. */
    method CopyIn(id: nat, pkt: seq<byte>)
      requires vi.Valid() && id < vi.count
      modifies vi.slab
      ensures vi.Valid()
      ensures vi.Abs() == Dma(vi.Cfg(), old(vi.Abs()), id, pkt)
    {
      hide Ring.Valid;
      InSlab(vi.Cfg(), id);
      var n := Min(|pkt|, vi.size);
      var at := id * vi.stride;
      forall i | 0 <= i < n {
        vi.slab[at + i] := pkt[i];
      }
      assert vi.slab[..] == old(vi.slab[..at]) + pkt[..n] + old(vi.slab[at + n..]);
    }

    /** Receive one packet into the oldest posted buffer, or count it as lost. */
    method DmaOrDrop(pkt: seq<byte>, ghost held: seq<nat>) returns (ok: bool)
      requires vi.Valid() && Owned(vi.Cfg(), vi.Abs(), [], held)
      modifies vi`completed, vi`overrun, vi`dropped, vi.ownership, vi.slab, vi.rxRing, vi.evq, vi.evq.slots
      ensures vi.Valid() && Owned(vi.Cfg(), vi.Abs(), [], held)
      ensures var v := old(vi.Abs());
              && (ok <==> v.rx != [])
              && (ok ==> v.rx[0] < vi.count && vi.Abs() == Received(vi.Cfg(), v, pkt))
              && (!ok ==> vi.Abs() == Overrun(v))
    {
      hide Owned, Ring.Valid;
      ghost var v := vi.Abs();
      if v.rx != [] {
        AcquireOwned(vi.Cfg(), v, held);
        DmaOwned(vi.Cfg(), Acquired(v), held, v.rx[0], pkt);
        CompleteOwned(vi.Cfg(), Dma(vi.Cfg(), Acquired(v), v.rx[0], pkt), held, v.rx[0], Min(|pkt|, vi.size));
      } else {
        OverrunOwned(vi.Cfg(), v, [], held);
      }
      var id := vi.TryAcquireRx();
      if id == None {
        vi.RecordOverrun();
        return false;
      }
      CopyIn(id.value, pkt);
      vi.CompleteRx(id.value, Min(|pkt|, vi.size));
      return true;
    }

    /** Produce packets without waiting while the application does nothing: exactly as many complete
        as there are descriptors, in order and intact, and the rest are counted as overruns. */
    method RunFake(packetCount: nat, payloadSize: nat, ghost held: seq<nat>)
      requires vi.Valid() && Owned(vi.Cfg(), vi.Abs(), [], held)
      modifies vi`completed, vi`overrun, vi`dropped, vi.ownership, vi.slab, vi.rxRing, vi.evq, vi.evq.slots
      ensures vi.Valid() && Owned(vi.Cfg(), vi.Abs(), [], held)
      ensures var v, n := old(vi.Abs()), Min(packetCount, |old(vi.Abs()).rx|);
              && vi.completed == v.completed + n && vi.overrun == v.overrun + (packetCount - n)
                 && vi.dropped == v.dropped + (packetCount - n)
              && vi.Abs().rx == v.rx[n..] && |vi.Abs().evq| == |v.evq| + n && vi.Abs().evq[..|v.evq|] == v.evq
      ensures var v, n := old(vi.Abs()), Min(packetCount, |old(vi.Abs()).rx|);
              var payload := if payloadSize == 0 then 16 else payloadSize;
              forall i :: 0 <= i < n ==>
                  Carries(vi.Cfg(), vi.Abs().slab, vi.Abs().evq[|v.evq| + i], FakePacket(i, payload))
    {
      hide Owned, Carries, FakePacket, Ring.Valid;
      var payload := if payloadSize == 0 then MIN_PAYLOAD else payloadSize;
      ghost var v := vi.Abs();
      for k := 0 to packetCount
        invariant vi.Valid() && Owned(vi.Cfg(), vi.Abs(), [], held)
        invariant Produced(vi.Cfg(), v, vi.Abs(), k, payload)
      {
        ghost var before := vi.Abs();
        var ok := DmaOrDrop(FakePacket(k, payload), held);
        ProducedOne(vi.Cfg(), v, before, k, payload, held);
      }
    }
  }

  /** The state after k synthetic packets, started from v. */
  ghost predicate Produced(c: NicConfig, v: Vi, w: Vi, k: nat, payload: nat) {
    var n := Min(k, |v.rx|);
    && w.completed == v.completed + n && w.overrun == v.overrun + (k - n) && w.dropped == v.dropped + (k - n)
    && w.rx == v.rx[n..] && |w.evq| == |v.evq| + n && w.evq[..|v.evq|] == v.evq
    && (forall i :: 0 <= i < n ==> Carries(c, w.slab, w.evq[|v.evq| + i], FakePacket(i, payload)))
  }

  /** The next posted buffer has no event queued. */
  lemma FrontApart(c: NicConfig, w: Vi, held: seq<nat>)
    requires Owned(c, w, [], held) && w.rx != []
    ensures w.rx[0] < c.count && Fits(c, w)
    ensures forall i :: 0 <= i < |w.evq| && w.evq[i].bufferId < c.count ==> w.evq[i].bufferId != w.rx[0]
  {
    InNic(c, w, [], held, w.rx[0]);
    forall i | 0 <= i < |w.evq| && w.evq[i].bufferId < c.count
      ensures w.evq[i].bufferId != w.rx[0]
    {
      assert EvIds(w.evq)[i] == w.evq[i].bufferId;
      InApp(c, w, [], held, w.evq[i].bufferId);
    }
  }

  lemma ProducedNone(c: NicConfig, v: Vi, w: Vi, k: nat, payload: nat)
    requires Produced(c, v, w, k, payload) && w.rx == []
    ensures Produced(c, v, Overrun(w), k + 1, payload)
  {
    hide Carries, FakePacket;
  }

  lemma ProducedOne(c: NicConfig, v: Vi, w: Vi, k: nat, payload: nat, held: seq<nat>)
    requires Produced(c, v, w, k, payload) && Owned(c, w, [], held)
    ensures w.rx == [] ==> Produced(c, v, Overrun(w), k + 1, payload)
    ensures w.rx != [] ==> w.rx[0] < c.count && Fits(c, w)
    ensures w.rx != [] ==> Produced(c, v, Received(c, w, FakePacket(k, payload)), k + 1, payload)
  {
    hide Owned, Carries, FakePacket, Dma;
    if w.rx != [] {
      FrontApart(c, w, held);
      DmaCarries(c, Acquired(w), w.rx[0], FakePacket(k, payload));
      ProducedKept(c, v, w, k, payload);
    } else {
      ProducedNone(c, v, w, k, payload);
    }
  }

  lemma ProducedKept(c: NicConfig, v: Vi, w: Vi, k: nat, payload: nat)
    requires Fits(c, w) && w.rx != [] && w.rx[0] < c.count && Produced(c, v, w, k, payload)
    requires forall i :: 0 <= i < |w.evq| && w.evq[i].bufferId < c.count ==> w.evq[i].bufferId != w.rx[0]
    requires Carries(c, Dma(c, Acquired(w), w.rx[0], FakePacket(k, payload)).slab,
                     Event(w.rx[0], Min(|FakePacket(k, payload)|, c.size)), FakePacket(k, payload))
    ensures Produced(c, v, Received(c, w, FakePacket(k, payload)), k + 1, payload)
  {
    hide FakePacket, Dma;
    var pkt := FakePacket(k, payload);
    var w' := Received(c, w, pkt);
    forall i | 0 <= i < Min(k, |v.rx|)
      ensures Carries(c, w'.slab, w'.evq[|v.evq| + i], FakePacket(i, payload))
    {
      var ev := w.evq[|v.evq| + i];
      DmaElsewhere(c, Acquired(w), w.rx[0], pkt, ev, FakePacket(i, payload));
    }
  }

  // ---------- the receiver ----------

  const BATCH: nat := 64

  /** Every event's buffer has eight bytes to read. */
  predicate HeadersIn(c: NicConfig, slab: seq<byte>, events: seq<Event>) {
    forall k :: 0 <= k < |events| ==> Offset(c, events[k].bufferId) + 8 <= |slab|
  }

  /** What the receiver's counters become over a batch of events, reading sequence numbers from the
      slab. Short packets are skipped. */
  function SeeEvents(c: NicConfig, slab: seq<byte>, r: N.Receiver, events: seq<Event>): N.Receiver
    requires HeadersIn(c, slab, events)
  {
    if events == [] then r
    else
      var e := events[|events| - 1];
      var before := SeeEvents(c, slab, r, events[..|events| - 1]);
      if e.length >= MIN_PAYLOAD then N.See(before, Le(slab[Offset(c, e.bufferId)..Offset(c, e.bufferId) + 8]))
        else before
  }

  /** The events whose packet is long enough to have a header. */
  function Long(events: seq<Event>): seq<Event> {
    if events == [] then []
    else
      var n := |events| - 1;
      Long(events[..n]) + if events[n].length >= 16 then [events[n]] else []
  }

  /** Packets of less than 16 bytes leave the counters alone. */
  lemma {:induction false} ShortPacketsSkipped(c: NicConfig, slab: seq<byte>, r: N.Receiver, events: seq<Event>)
    requires HeadersIn(c, slab, events)
    ensures HeadersIn(c, slab, Long(events)) && SeeEvents(c, slab, r, events) == SeeEvents(c, slab, r, Long(events))
  {
    hide Offset, Le, N.See;
    if events != [] {
      var n := |events| - 1;
      ShortPacketsSkipped(c, slab, r, events[..n]);
      if events[n].length >= 16 {
        var all := Long(events[..n]) + [events[n]];
        assert all[..|all| - 1] == Long(events[..n]);
        assert HeadersIn(c, slab, all);
      } else {
        assert Long(events) == Long(events[..n]);
      }
    }
  }

  /** The bytes the receiver reads are the packets', so its counters are those of the packets. */
  lemma {:induction false} SeeEventsSeesPackets(c: NicConfig, slab: seq<byte>, seen: seq<N.Packet>, events: seq<Event>,
                                                pkts: seq<N.Packet>)
    requires c.size >= 16 && |events| == |pkts|
    requires forall k :: 0 <= k < |seen| ==> |seen[k]| >= 8
    requires forall k :: 0 <= k < |pkts| ==> |pkts[k]| >= 16 && Carries(c, slab, events[k], pkts[k])
    ensures HeadersIn(c, slab, events)
    ensures forall k :: 0 <= k < |seen + pkts| ==> |(seen + pkts)[k]| >= 8
    ensures SeeEvents(c, slab, N.SeeAll(seen), events) == N.SeeAll(seen + pkts)
  {
    hide Carries, Le, N.See;
    if events == [] {
      assert seen + pkts == seen;
    } else {
      var n := |events| - 1;
      SeeEventsSeesPackets(c, slab, seen, events[..n], pkts[..n]);
      HeaderBytes(c, slab, events[n], pkts[n]);
      HeadersSnoc(c, slab, events);
      var all := seen + pkts;
      assert all[..|all| - 1] == seen + pkts[..n] && all[|all| - 1] == pkts[n];
    }
  }

  lemma HeadersSnoc(c: NicConfig, slab: seq<byte>, events: seq<Event>)
    requires events != [] && HeadersIn(c, slab, events[..|events| - 1])
    requires Offset(c, events[|events| - 1].bufferId) + 8 <= |slab|
    ensures HeadersIn(c, slab, events)
  {
    hide Offset;
    forall k | 0 <= k < |events|
      ensures Offset(c, events[k].bufferId) + 8 <= |slab|
    {
      assert k < |events| - 1 ==> events[..|events| - 1][k] == events[k];
    }
  }

  /** The first eight bytes of the buffer are those of the packet. */
  lemma HeaderBytes(c: NicConfig, slab: seq<byte>, ev: Event, pkt: seq<byte>)
    requires Carries(c, slab, ev, pkt) && c.size >= MIN_PAYLOAD && |pkt| >= MIN_PAYLOAD
    ensures var at := Offset(c, ev.bufferId);
            ev.length >= MIN_PAYLOAD && at + 8 <= |slab| && slab[at..at + 8] == pkt[..8]
  {
    hide Offset;
    var at := Offset(c, ev.bufferId);
    assert slab[at..at + 8] == slab[at..at + ev.length][..8];
    assert pkt[..ev.length][..8] == pkt[..8];
  }

  /** Read a little-endian 64-bit number. */
  method ReadLe(slab: array<byte>, at: nat) returns (n: nat)
    requires at + 8 <= slab.Length
    ensures n == Le(slab[at..at + 8])
  {
    n := 0;
    var i := 8;
    while i > 0
      invariant 0 <= i <= 8
      invariant n == Le(slab[at + i..at + 8])
    {
      i := i - 1;
      n := slab[at + i] + 256 * n;
      assert slab[at + i..at + 8][1..] == slab[at + i + 1..at + 8];
    }
  }

  /** One turn of the receiver: poll a batch, count the gaps, give every buffer back. The NIC may be
      in the middle of a packet. */
  method ReceiveBatch(vi: Interface, r: N.Receiver, evs: array<Event>, ghost nic: seq<nat>) returns (r': N.Receiver)
    requires vi.Valid() && Owned(vi.Cfg(), vi.Abs(), nic, [])
    requires evs.Length == 64 && evs !in vi.Repr()
    modifies vi`posted, vi.ownership, vi.rxRing, vi.rxRing.slots, vi.evq, evs
    ensures vi.Valid() && Owned(vi.Cfg(), vi.Abs(), nic, [])
    ensures var v := old(vi.Abs()); var n := Min(64, |old(vi.Abs()).evq|);
            && HeadersIn(vi.Cfg(), v.slab, v.evq[..n])
            && r' == SeeEvents(vi.Cfg(), v.slab, r, v.evq[..n])
            && vi.Abs().evq == v.evq[n..] && vi.Abs().rx == v.rx + EvIds(v.evq[..n]) && vi.Abs().slab == v.slab
  {
    hide Owned, Interface.Valid, Interface.Abs, SeeEvents, Carries, EvIds, Offset;
    ghost var v, c := vi.Abs(), vi.Cfg();
    PollMany(c, v, nic, Min(BATCH, |v.evq|));
    var n := vi.Poll(evs, BATCH);
    ghost var events := v.evq[..n];
    assert events == evs[..n];
    ghost var ids := EvIds(events);
    BatchStarts(vi, r);
    HeldOffsets(c, vi.Abs(), nic, events);
    r' := r;
    var i := 0;
    assert events[..0] == [] && ids[0..] == ids && ids[..0] == [];
    while i < n
      invariant i <= n && vi.Valid() && evs[..n] == events
      invariant Owned(c, vi.Abs(), nic, ids[i..])
      invariant vi.Abs().slab == v.slab && vi.Abs().evq == v.evq[n..]
      invariant vi.Abs().rx == v.rx + ids[..i]
      invariant r' == SeeEvents(c, v.slab, r, events[..i])
    {
      assert evs[..n][i] == evs[i] == events[i];
      assert ids[i..][0] == ids[i] == events[i].bufferId && ids[i..][1..] == ids[i + 1..];
      SeeEventsNext(c, v.slab, r, events, i);
      assert ids[..i + 1] == ids[..i] + [ids[i]];
      r' := ReceiveOne(vi, r', evs[i], nic, ids[i..]);
      i := i + 1;
    }
    assert events[..i] == events && ids[..i] == ids && ids[i..] == [];
  }

  lemma BatchStarts(vi: Interface, r: N.Receiver)
    requires vi.Valid()
    ensures vi.Cfg().stride >= CACHE_LINE && SeeEvents(vi.Cfg(), vi.Abs().slab, r, []) == r
  {
  }

  lemma SeeEventsNext(c: NicConfig, slab: seq<byte>, r: N.Receiver, events: seq<Event>, i: nat)
    requires i < |events|
    requires HeadersIn(c, slab, events)
    ensures var e := events[i];
            var before := SeeEvents(c, slab, r, events[..i]);
            SeeEvents(c, slab, r, events[..i + 1]) ==
            if e.length >= MIN_PAYLOAD then N.See(before, Le(slab[Offset(c, e.bufferId)..Offset(c, e.bufferId) + 8]))
              else before
  {
    assert events[..i + 1][..i] == events[..i];
  }

  /** Look at one polled packet and give its buffer back. */
  method ReceiveOne(vi: Interface, r: N.Receiver, ev: Event, ghost nic: seq<nat>, ghost held: seq<nat>)
      returns (r': N.Receiver)
    requires vi.Valid() && Owned(vi.Cfg(), vi.Abs(), nic, held) && held != [] && held[0] == ev.bufferId
    requires Offset(vi.Cfg(), ev.bufferId) + 8 <= |vi.Abs().slab|
    modifies vi`posted, vi.ownership, vi.rxRing, vi.rxRing.slots
    ensures vi.Valid() && Owned(vi.Cfg(), vi.Abs(), nic, held[1..])
    ensures var v := old(vi.Abs()); var at := Offset(vi.Cfg(), ev.bufferId);
            && r' == (if ev.length >= MIN_PAYLOAD then N.See(r, Le(v.slab[at..at + 8])) else r)
            && vi.Abs().evq == v.evq && vi.Abs().slab == v.slab && vi.Abs().rx == v.rx + [ev.bufferId]
  {
    hide Owned, Ring.Valid, Le, N.See;
    RepostOwned(vi.Cfg(), vi.Abs(), nic, held, 0);
    assert held[..0] + held[1..] == held[1..];
    FirstReadable(vi.Cfg(), vi.Abs(), nic, held);
    r' := r;
    var raw := vi.Data(ev.bufferId);
    if raw.Some? && ev.length >= MIN_PAYLOAD {
      var seqNo := ReadLe(vi.slab, raw.value);
      assert vi.slab[raw.value..raw.value + 8] == vi.Abs().slab[raw.value..raw.value + 8];
      r' := N.See(r, seqNo);
    }
    var ok := vi.Repost(ev.bufferId);
  }

  /** A polled batch is held by the application. */
  lemma {:induction false} PollMany(c: NicConfig, v: Vi, nic: seq<nat>, n: nat)
    requires Owned(c, v, nic, []) && n <= |v.evq|
    ensures Owned(c, Polled(v, n), nic, EvIds(v.evq[..n]))
  {
    hide Owned;
    if n == 0 {
      assert v.evq[..0] == [] && v.evq[0..] == v.evq && EvIds([]) == [];
    } else {
      PollMany(c, v, nic, n - 1);
      var w := Polled(v, n - 1);
      PollOwned(c, w, nic, EvIds(v.evq[..n - 1]));
      assert w.evq[1..] == v.evq[n..] && w.evq[0] == v.evq[n - 1];
      assert EvIds(v.evq[..n]) == EvIds(v.evq[..n - 1]) + [v.evq[n - 1].bufferId];
    }
  }

  lemma HeldOffsets(c: NicConfig, v: Vi, nic: seq<nat>, events: seq<Event>)
    requires Owned(c, v, nic, EvIds(events)) && c.stride >= CACHE_LINE
    ensures HeadersIn(c, v.slab, events)
  {
    forall k | 0 <= k < |events|
      ensures Offset(c, events[k].bufferId) + 8 <= |v.slab|
    {
      assert EvIds(events)[k] == events[k].bufferId;
      InApp(c, v, nic, EvIds(events), events[k].bufferId);
      InSlab(c, events[k].bufferId);
    }
  }

  lemma FirstReadable(c: NicConfig, v: Vi, nic: seq<nat>, held: seq<nat>)
    requires Owned(c, v, nic, held) && held != []
    ensures Fits(c, v) && Readable(c, v, held[0])
  {
    InApp(c, v, nic, held, held[0]);
  }
}
