/**
 The receive path as two threads: an application that posts, polls and reposts, and a NIC that takes a
 descriptor for each arriving packet, copies the packet and completes it, or drops it when there is
 no descriptor. Each call of the interface is one step; the NIC's acquire, copy and complete are
 three. A waiting NIC tries again until there is a descriptor, so its acquire is a step only then. The
 application reposts only buffers it has polled and not yet reposted.
 */
module NicSteps {
  import opened Wrappers
  import opened LittleEndian
  import opened NicSpec

  type Packet = seq<byte>

  datatype Nic = Idle | Holding(id: nat, pkt: Packet) | Copied(id: nat, pkt: Packet)

  /** An event with the packet it stands for. */
  datatype Delivery = Delivery(ev: Event, pkt: Packet)

  datatype Arrival = Arrival(pkt: Packet, dropped: bool)

  /** waiting are the packets of the queued events; held the deliveries polled and not reposted;
      polled every packet the application ever got, in order. */
  datatype World = World(vi: Vi, nic: Nic, held: seq<Delivery>, waiting: seq<Packet>, polled: seq<Packet>,
                         arrivals: seq<Arrival>)

  datatype Action = Post(id: nat) | Poll | Repost(k: nat) | Arrive(pkt: Packet, wait: bool) | Copy | Complete

  function NicIds(n: Nic): seq<nat> { if n.Idle? then [] else [n.id] }

  function NicPackets(n: Nic): seq<Packet> { if n.Idle? then [] else [n.pkt] }

  function HeldIds(h: seq<Delivery>): (r: seq<nat>)
    ensures |r| == |h| && forall k :: 0 <= k < |h| ==> r[k] == h[k].ev.bufferId
  {
    seq(|h|, i requires 0 <= i < |h| => h[i].ev.bufferId)
  }

  /** The packets that were not dropped, in arrival order. */
  function Kept(arrivals: seq<Arrival>): seq<Packet> {
    if arrivals == [] then []
    else
      var last := arrivals[|arrivals| - 1];
      Kept(arrivals[..|arrivals| - 1]) + if last.dropped then [] else [last.pkt]
  }

  function Drops(arrivals: seq<Arrival>): nat {
    if arrivals == [] then 0
    else Drops(arrivals[..|arrivals| - 1]) + if arrivals[|arrivals| - 1].dropped then 1 else 0
  }

  ghost predicate Can(c: NicConfig, w: World, a: Action) {
    && Fits(c, w.vi)
    && match a
       case Post(id) => true
       case Poll => w.vi.evq != [] && w.waiting != []
       case Repost(k) => k < |w.held|
       case Arrive(pkt, wait) => w.nic.Idle? && |pkt| < 0x1_0000 && (wait ==> w.vi.rx != [])
       case Copy => w.nic.Holding? && w.nic.id < c.count
       case Complete => w.nic.Copied? && w.nic.id < c.count
  }

  function Go(c: NicConfig, w: World, a: Action): World
    requires Can(c, w, a)
  {
    match a
    case Post(id) => w.(vi := PostFrom(c, w.vi, id, Free))
    case Poll =>
      w.(vi := Polled(w.vi, 1), held := w.held + [Delivery(w.vi.evq[0], w.waiting[0])],
         waiting := w.waiting[1..], polled := w.polled + [w.waiting[0]])
    case Repost(k) =>
      var id := w.held[k].ev.bufferId;
      if CanPost(c, w.vi, id, Filled) then
        w.(vi := PostFrom(c, w.vi, id, Filled), held := w.held[..k] + w.held[k + 1..])
      else w
    case Arrive(pkt, wait) =>
      if w.vi.rx == [] then w.(vi := Overrun(w.vi), arrivals := w.arrivals + [Arrival(pkt, true)])
      else w.(vi := Acquired(w.vi), nic := Holding(w.vi.rx[0], pkt), arrivals := w.arrivals + [Arrival(pkt, false)])
    case Copy => w.(vi := Dma(c, w.vi, w.nic.id, w.nic.pkt), nic := Copied(w.nic.id, w.nic.pkt))
    case Complete =>
      w.(vi := Completed(c, w.vi, w.nic.id, Min(|w.nic.pkt|, c.size)), nic := Idle, waiting := w.waiting + [w.nic.pkt])
  }

  /** Nothing posted, nothing arrived. */
  ghost predicate Fresh(c: NicConfig, w: World) {
    && Fits(c, w.vi) && w.vi.rx == [] && w.vi.evq == []
    && (forall id :: 0 <= id < c.count ==> w.vi.own[id] == Free)
    && w.vi.posted == 0 && w.vi.completed == 0 && w.vi.dropped == 0 && w.vi.overrun == 0
    && w.nic == Idle && w.held == [] && w.waiting == [] && w.polled == [] && w.arrivals == []
  }

  // ---------- the invariant ----------

  /** Every packet the application can see or will see is intact in its buffer. */
  ghost predicate Intact(c: NicConfig, w: World) {
    && |w.waiting| == |w.vi.evq|
    && (forall k :: 0 <= k < |w.vi.evq| ==> Carries(c, w.vi.slab, w.vi.evq[k], w.waiting[k]))
    && (forall k :: 0 <= k < |w.held| ==> Carries(c, w.vi.slab, w.held[k].ev, w.held[k].pkt))
    && (w.nic.Copied? ==> Carries(c, w.vi.slab, Event(w.nic.id, Min(|w.nic.pkt|, c.size)), w.nic.pkt))
  }

  ghost predicate InOrder(w: World) {
    && w.polled + w.waiting + NicPackets(w.nic) == Kept(w.arrivals)
    && w.vi.overrun == Drops(w.arrivals)
    && w.vi.completed == |w.polled| + |w.waiting|
  }

  ghost predicate Inv(c: NicConfig, w: World) {
    Owned(c, w.vi, NicIds(w.nic), HeldIds(w.held)) && Intact(c, w) && InOrder(w)
  }

  lemma {:induction false} NoneOf(own: seq<BufferState>, st: BufferState)
    requires forall id :: 0 <= id < |own| ==> own[id] != st
    ensures CountOf(own, st) == 0
  {
    if own != [] {
      NoneOf(own[1..], st);
    }
  }

  lemma FreshInv(c: NicConfig, w: World)
    requires Fresh(c, w)
    ensures Inv(c, w)
  {
    NoneOf(w.vi.own, Posted);
    NoneOf(w.vi.own, Filled);
    assert HeldIds([]) == [] && EvIds([]) == [];
  }

  lemma KeptOne(arrivals: seq<Arrival>, a: Arrival)
    ensures Kept(arrivals + [a]) == Kept(arrivals) + if a.dropped then [] else [a.pkt]
    ensures Drops(arrivals + [a]) == Drops(arrivals) + if a.dropped then 1 else 0
  {
    assert (arrivals + [a])[..|arrivals|] == arrivals;
  }

  lemma PostInv(c: NicConfig, w: World, id: nat)
    requires Inv(c, w) && Can(c, w, Post(id))
    ensures Inv(c, Go(c, w, Post(id)))
  {
    hide Owned, Carries;
    PostFreeOwned(c, w.vi, NicIds(w.nic), HeldIds(w.held), id);
  }

  lemma PollInv(c: NicConfig, w: World)
    requires Inv(c, w) && Can(c, w, Poll)
    ensures Inv(c, Go(c, w, Poll))
  {
    hide Owned, Carries;
    PollOwned(c, w.vi, NicIds(w.nic), HeldIds(w.held));
    var w' := Go(c, w, Poll);
    assert HeldIds(w'.held) == HeldIds(w.held) + [w.vi.evq[0].bufferId];
    assert Intact(c, w');
    assert w'.polled + w'.waiting == w.polled + w.waiting;
  }

  lemma RepostInv(c: NicConfig, w: World, k: nat)
    requires Inv(c, w) && Can(c, w, Repost(k))
    ensures Inv(c, Go(c, w, Repost(k)))
    ensures CanPost(c, w.vi, w.held[k].ev.bufferId, Filled)
  {
    hide Owned, Carries;
    assert HeldIds(w.held)[k] == w.held[k].ev.bufferId;
    RepostOwned(c, w.vi, NicIds(w.nic), HeldIds(w.held), k);
    var w' := Go(c, w, Repost(k));
    DropOne(w.held, w'.held, k);
    assert Intact(c, w');
  }

  lemma DropOne(h: seq<Delivery>, h': seq<Delivery>, k: nat)
    requires k < |h| && h' == h[..k] + h[k + 1..]
    ensures HeldIds(h') == HeldIds(h)[..k] + HeldIds(h)[k + 1..]
    ensures forall j :: 0 <= j < |h'| ==> h'[j] == h[if j < k then j else j + 1]
  {
  }

  lemma ArriveInv(c: NicConfig, w: World, pkt: Packet, wait: bool)
    requires Inv(c, w) && Can(c, w, Arrive(pkt, wait))
    ensures Inv(c, Go(c, w, Arrive(pkt, wait)))
  {
    hide Owned, Carries, Kept, Drops;
    var dropped := w.vi.rx == [];
    KeptOne(w.arrivals, Arrival(pkt, dropped));
    if dropped {
      OverrunOwned(c, w.vi, NicIds(w.nic), HeldIds(w.held));
    } else {
      AcquireOwned(c, w.vi, HeldIds(w.held));
    }
    assert w.polled + w.waiting + [] == w.polled + w.waiting;
    assert Kept(w.arrivals) + [] == Kept(w.arrivals);
  }

  lemma CopyInv(c: NicConfig, w: World)
    requires Inv(c, w) && Can(c, w, Copy)
    ensures Inv(c, Go(c, w, Copy))
  {
    var id, pkt := w.nic.id, w.nic.pkt;
    DmaOwned(c, w.vi, HeldIds(w.held), id, pkt);
    DmaCarries(c, w.vi, id, pkt);
    InNic(c, w.vi, NicIds(w.nic), HeldIds(w.held), id);
    hide Owned, Carries, Dma;
    forall k | 0 <= k < |w.vi.evq|
      ensures Carries(c, Dma(c, w.vi, id, pkt).slab, w.vi.evq[k], w.waiting[k])
    {
      assert EvIds(w.vi.evq)[k] == w.vi.evq[k].bufferId;
      InApp(c, w.vi, NicIds(w.nic), HeldIds(w.held), w.vi.evq[k].bufferId);
      DmaElsewhere(c, w.vi, id, pkt, w.vi.evq[k], w.waiting[k]);
    }
    forall k | 0 <= k < |w.held|
      ensures Carries(c, Dma(c, w.vi, id, pkt).slab, w.held[k].ev, w.held[k].pkt)
    {
      assert HeldIds(w.held)[k] == w.held[k].ev.bufferId;
      InApp(c, w.vi, NicIds(w.nic), HeldIds(w.held), w.held[k].ev.bufferId);
      DmaElsewhere(c, w.vi, id, pkt, w.held[k].ev, w.held[k].pkt);
    }
  }

  lemma CompleteInv(c: NicConfig, w: World)
    requires Inv(c, w) && Can(c, w, Complete)
    ensures Inv(c, Go(c, w, Complete))
  {
    hide Owned, Carries;
    CompleteOwned(c, w.vi, HeldIds(w.held), w.nic.id, Min(|w.nic.pkt|, c.size));
    var w' := Go(c, w, Complete);
    assert Intact(c, w');
    assert w'.polled + w'.waiting + [] == w.polled + w.waiting + [w.nic.pkt];
  }

  lemma StepInv(c: NicConfig, w: World, a: Action)
    requires Inv(c, w) && Can(c, w, a)
    ensures Inv(c, Go(c, w, a))
  {
    hide Inv, Can, Go;
    match a
    case Post(id) => PostInv(c, w, id);
    case Poll => PollInv(c, w);
    case Repost(k) => RepostInv(c, w, k);
    case Arrive(pkt, wait) => ArriveInv(c, w, pkt, wait);
    case Copy => CopyInv(c, w);
    case Complete => CompleteInv(c, w);
  }

  /** Nobody is ever in the other's way: in every state the invariant allows, an event can be polled and a held
      buffer given back whatever the NIC is doing; the NIC can always go on with the packet it has; and when
      it has none it can take the next, waiting only while no descriptor is posted. */
  lemma NobodyBlocks(c: NicConfig, w: World, pkt: Packet)
    requires Inv(c, w) && |pkt| < 0x1_0000
    ensures Can(c, w, Poll) <==> w.vi.evq != []
    ensures forall k: nat :: Can(c, w, Repost(k)) <==> k < |w.held|
    ensures Can(c, w, Copy) <==> w.nic.Holding?
    ensures Can(c, w, Complete) <==> w.nic.Copied?
    ensures Can(c, w, Arrive(pkt, false)) <==> w.nic.Idle?
    ensures Can(c, w, Arrive(pkt, true)) <==> w.nic.Idle? && w.vi.rx != []
  {
    hide Carries, EvIds, Kept, Drops;
    if !w.nic.Idle? {
      InNic(c, w.vi, NicIds(w.nic), HeldIds(w.held), w.nic.id);
    }
  }

  ghost predicate Runs(c: NicConfig, w: World, actions: seq<Action>, w': World)
    decreases |actions|
  {
    if actions == [] then w' == w
    else Can(c, w, actions[0]) && Runs(c, Go(c, w, actions[0]), actions[1..], w')
  }

  lemma {:induction false} RunInv(c: NicConfig, w: World, actions: seq<Action>, w': World)
    requires Inv(c, w) && Runs(c, w, actions, w')
    ensures Inv(c, w')
    decreases |actions|
  {
    if actions != [] {
      StepInv(c, w, actions[0]);
      RunInv(c, Go(c, w, actions[0]), actions[1..], w');
    }
  }

  // ---------- what every run keeps ----------

  /** Every buffer is in exactly one place, Posted buffers are the NIC side's and Filled ones the
      application side's, and neither ring can refuse: a free or held buffer can always be posted,
      and a packet being received always completed. */
  lemma Partition(c: NicConfig, w0: World, actions: seq<Action>, w: World)
    requires Fresh(c, w0) && Runs(c, w0, actions, w)
    ensures Owned(c, w.vi, NicIds(w.nic), HeldIds(w.held))
    ensures forall id :: 0 <= id < c.count && w.vi.own[id] == Free ==> CanPost(c, w.vi, id, Free)
    ensures forall k :: 0 <= k < |w.held| ==> CanPost(c, w.vi, w.held[k].ev.bufferId, Filled)
    ensures !w.nic.Idle? ==> w.nic.id < c.count && w.vi.own[w.nic.id] == Posted && |w.vi.evq| < c.cap
  {
    FreshInv(c, w0);
    RunInv(c, w0, actions, w);
    var nic, held := NicIds(w.nic), HeldIds(w.held);
    forall id | 0 <= id < c.count && w.vi.own[id] == Free
      ensures CanPost(c, w.vi, id, Free)
    {
      PostFreeOwned(c, w.vi, nic, held, id);
    }
    forall k | 0 <= k < |w.held|
      ensures CanPost(c, w.vi, w.held[k].ev.bufferId, Filled)
    {
      assert held[k] == w.held[k].ev.bufferId;
      RepostOwned(c, w.vi, nic, held, k);
    }
    if !w.nic.Idle? {
      CompleteOwned(c, w.vi, held, w.nic.id, 0);
    }
  }

  /** The path is a lossy first-in first-out queue: what was polled, then what waits, then what is
      being received, is exactly the packets that were not dropped, in arrival order. */
  lemma LossyFifo(c: NicConfig, w0: World, actions: seq<Action>, w: World)
    requires Fresh(c, w0) && Runs(c, w0, actions, w)
    ensures w.polled + w.waiting + NicPackets(w.nic) == Kept(w.arrivals)
    ensures w.polled <= Kept(w.arrivals)
  {
    FreshInv(c, w0);
    RunInv(c, w0, actions, w);
    hide Owned, Intact;
  }

  function Offered(arrivals: seq<Arrival>): (r: seq<Packet>)
    ensures |r| == |arrivals| && forall k :: 0 <= k < |r| ==> r[k] == arrivals[k].pkt
  {
    seq(|arrivals|, i requires 0 <= i < |arrivals| => arrivals[i].pkt)
  }

  /** The packets of the arrivals among the actions. */
  function Packets(actions: seq<Action>): seq<Packet> {
    if actions == [] then []
    else (if actions[0].Arrive? then [actions[0].pkt] else []) + Packets(actions[1..])
  }

  /** How many arrivals of the run found no descriptor posted. */
  ghost function Starved(c: NicConfig, w: World, actions: seq<Action>): nat
    decreases |actions|
  {
    if actions == [] || !Can(c, w, actions[0]) then 0
    else
      (if actions[0].Arrive? && |w.vi.rx| == 0 then 1 else 0) + Starved(c, Go(c, w, actions[0]), actions[1..])
  }

  lemma StepLoses(c: NicConfig, w: World, a: Action)
    requires Can(c, w, a)
    ensures Go(c, w, a).vi.overrun == w.vi.overrun + if a.Arrive? && w.vi.rx == [] then 1 else 0
    ensures Offered(Go(c, w, a).arrivals) == Offered(w.arrivals) + if a.Arrive? then [a.pkt] else []
  {
    if a.Arrive? {
      assert Go(c, w, a).arrivals == w.arrivals + [Arrival(a.pkt, w.vi.rx == [])];
    } else {
      assert Go(c, w, a).arrivals == w.arrivals && Offered(w.arrivals) + [] == Offered(w.arrivals);
    }
  }

  lemma {:induction false} RunLoses(c: NicConfig, w: World, actions: seq<Action>, w': World)
    requires Runs(c, w, actions, w')
    ensures w'.vi.overrun == w.vi.overrun + Starved(c, w, actions)
    ensures Offered(w'.arrivals) == Offered(w.arrivals) + Packets(actions)
    decreases |actions|
  {
    hide Can, Go, Offered;
    if actions == [] {
      assert Offered(w.arrivals) + [] == Offered(w.arrivals);
    } else {
      StepLoses(c, w, actions[0]);
      RunLoses(c, Go(c, w, actions[0]), actions[1..], w');
      var one := if actions[0].Arrive? then [actions[0].pkt] else [];
      assert Offered(w.arrivals) + one + Packets(actions[1..]) == Offered(w.arrivals) + (one + Packets(actions[1..]));
    }
  }

  /** A packet is lost only for want of a descriptor: overruns are exactly the arrivals that found none
      posted, waiting or not, and when every arrival found one, everything offered is delivered in order. */
  lemma LossMeansStarved(c: NicConfig, w0: World, actions: seq<Action>, w: World)
    requires Fresh(c, w0) && Runs(c, w0, actions, w)
    ensures w.vi.overrun == Drops(w.arrivals) == Starved(c, w0, actions)
    ensures Offered(w.arrivals) == Packets(actions)
    ensures Starved(c, w0, actions) == 0 ==>
              Kept(w.arrivals) == Packets(actions) && w.polled + w.waiting + NicPackets(w.nic) == Packets(actions)
  {
    LossAccounting(c, w0, actions, w);
    LossyFifo(c, w0, actions, w);
    RunLoses(c, w0, actions, w);
    assert Offered([]) == [] && [] + Packets(actions) == Packets(actions);
    if Starved(c, w0, actions) == 0 {
      NoDrops(w.arrivals);
      KeepsAll(w.arrivals);
    }
  }

  lemma {:induction false} NoDrops(arrivals: seq<Arrival>)
    requires Drops(arrivals) == 0
    ensures forall k :: 0 <= k < |arrivals| ==> !arrivals[k].dropped
  {
    if arrivals != [] {
      NoDrops(arrivals[..|arrivals| - 1]);
    }
  }

  /** A NIC that always waits never starves, so it loses nothing. */
  lemma WaitingLosesNothing(c: NicConfig, w0: World, actions: seq<Action>, w: World)
    requires Fresh(c, w0) && Runs(c, w0, actions, w)
    requires forall k :: 0 <= k < |actions| && actions[k].Arrive? ==> actions[k].wait
    ensures w.polled + w.waiting + NicPackets(w.nic) == Packets(actions)
    ensures w.vi.overrun == 0
  {
    LossMeansStarved(c, w0, actions, w);
    WaitingNeverStarves(c, w0, actions);
  }

  lemma {:induction false} WaitingNeverStarves(c: NicConfig, w: World, actions: seq<Action>)
    requires forall k :: 0 <= k < |actions| && actions[k].Arrive? ==> actions[k].wait
    ensures Starved(c, w, actions) == 0
    decreases |actions|
  {
    if actions != [] && Can(c, w, actions[0]) {
      assert actions[0].Arrive? ==> actions[0].wait;
      WaitingNeverStarves(c, Go(c, w, actions[0]), actions[1..]);
    }
  }

  lemma {:induction false} KeepsAll(arrivals: seq<Arrival>)
    requires forall k :: 0 <= k < |arrivals| ==> !arrivals[k].dropped
    ensures Kept(arrivals) == Offered(arrivals) && Drops(arrivals) == 0
  {
    if arrivals != [] {
      var n := |arrivals| - 1;
      KeepsAll(arrivals[..n]);
      assert Offered(arrivals) == Offered(arrivals[..n]) + [arrivals[n].pkt];
    }
  }

  /** Until it is reposted, a polled buffer stays readable and its first `length` bytes are the
      packet's. */
  lemma ReadableUntilRepost(c: NicConfig, w0: World, actions: seq<Action>, w: World, k: nat)
    requires Fresh(c, w0) && Runs(c, w0, actions, w) && k < |w.held|
    ensures Fits(c, w.vi) && Readable(c, w.vi, w.held[k].ev.bufferId)
    ensures Carries(c, w.vi.slab, w.held[k].ev, w.held[k].pkt)
  {
    FreshInv(c, w0);
    RunInv(c, w0, actions, w);
    assert HeldIds(w.held)[k] == w.held[k].ev.bufferId;
    InApp(c, w.vi, NicIds(w.nic), HeldIds(w.held), w.held[k].ev.bufferId);
  }

  /** Loss accounting. */
  lemma LossAccounting(c: NicConfig, w0: World, actions: seq<Action>, w: World)
    requires Fresh(c, w0) && Runs(c, w0, actions, w)
    ensures |w.arrivals| == w.vi.completed + w.vi.overrun + |NicPackets(w.nic)|
    ensures w.vi.dropped == w.vi.overrun == Drops(w.arrivals)
    ensures w.vi.posted == w.vi.completed + CountOf(w.vi.own, Posted)
  {
    FreshInv(c, w0);
    RunInv(c, w0, actions, w);
    KeptAndDropped(w.arrivals);
  }

  lemma {:induction false} KeptAndDropped(arrivals: seq<Arrival>)
    ensures |Kept(arrivals)| + Drops(arrivals) == |arrivals|
  {
    if arrivals != [] {
      KeptAndDropped(arrivals[..|arrivals| - 1]);
    }
  }

  // ---------- the receiver's gap counter ----------

  datatype Receiver = Receiver(expected: nat, gaps: nat)

  /** The sequence number a packet starts with. */
  function Seq(pkt: Packet): nat
    requires |pkt| >= 8
  {
    Le(pkt[..8])
  }

  function See(r: Receiver, seqNo: nat): Receiver {
    Receiver(seqNo + 1, r.gaps + if seqNo > r.expected then seqNo - r.expected else 0)
  }

  function SeeAll(pkts: seq<Packet>): Receiver
    requires forall k :: 0 <= k < |pkts| ==> |pkts[k]| >= 8
  {
    if pkts == [] then Receiver(0, 0)
    else See(SeeAll(pkts[..|pkts| - 1]), Seq(pkts[|pkts| - 1]))
  }

  /** The receiver after any packets a and then packets b, whatever their numbers: it expects what b's last
      packet says, and it has charged the gaps inside a, those inside b, and the step from a to b only if
      it went up. After a restarted sender, whose numbers start below, nothing is charged for the step. */
  lemma {:induction false} SeeOn(a: seq<Packet>, b: seq<Packet>)
    requires b != []
    requires forall k :: 0 <= k < |a| ==> |a[k]| >= 8
    requires forall k :: 0 <= k < |b| ==> |b[k]| >= 8
    ensures SeeAll(a + b).expected == SeeAll(b).expected == Seq(b[|b| - 1]) + 1
    ensures SeeAll(a + b).gaps + Min(Seq(b[0]), SeeAll(a).expected) == SeeAll(a).gaps + SeeAll(b).gaps
    decreases |b|
  {
    hide Le;
    var n := |b| - 1;
    assert (a + b)[..|a + b| - 1] == a + b[..n];
    if n == 0 {
      assert a + b[..0] == a && b[..0] == [];
    } else {
      SeeOn(a, b[..n]);
    }
  }

  /** Packet number i carries i. */
  ghost predicate Numbered(arrivals: seq<Arrival>) {
    forall i :: 0 <= i < |arrivals| ==> |arrivals[i].pkt| >= MIN_PAYLOAD && Seq(arrivals[i].pkt) == i
  }

  /** The position in the arrivals of each kept packet. */
  lemma {:induction false} KeptAt(arrivals: seq<Arrival>, n: nat) returns (at: nat)
    requires n < |Kept(arrivals)|
    ensures at < |arrivals| && !arrivals[at].dropped && Kept(arrivals)[n] == arrivals[at].pkt
    ensures Kept(arrivals[..at]) == Kept(arrivals)[..n]
  {
    var m := |arrivals| - 1;
    var kept := Kept(arrivals[..m]);
    if n < |kept| {
      at := KeptAt(arrivals[..m], n);
      assert arrivals[..m][..at] == arrivals[..at];
      assert Kept(arrivals)[..n] == kept[..n];
    } else {
      at := m;
      assert Kept(arrivals)[..n] == kept;
    }
  }

  /** For consecutively numbered packets, gaps + delivered = last number seen + 1, and the gaps are
      NIC drops. */
  lemma {:induction false} GapsAreDrops(arrivals: seq<Arrival>, n: nat)
    requires Numbered(arrivals) && n <= |Kept(arrivals)|
    ensures forall k :: 0 <= k < n ==> |Kept(arrivals)[k]| >= 8
    ensures var r := SeeAll(Kept(arrivals)[..n]);
            && r.gaps + n == r.expected <= |arrivals|
            && r.gaps == Drops(arrivals[..r.expected])
            && Kept(arrivals[..r.expected]) == Kept(arrivals)[..n]
            && (n > 0 ==> r.expected == Seq(Kept(arrivals)[n - 1]) + 1)
  {
    var kept := Kept(arrivals);
    if n == 0 {
      assert arrivals[..0] == [] && kept[..0] == [];
    } else {
      GapsAreDrops(arrivals, n - 1);
      var at := KeptAt(arrivals, n - 1);
      assert Numbered(arrivals[..at]);
      GapsStep(arrivals, n, at);
    }
  }

  lemma GapsStep(arrivals: seq<Arrival>, n: nat, at: nat)
    requires Numbered(arrivals) && 0 < n <= |Kept(arrivals)|
    requires forall k :: 0 <= k < n - 1 ==> |Kept(arrivals)[k]| >= 8
    requires at < |arrivals| && !arrivals[at].dropped && Kept(arrivals)[n - 1] == arrivals[at].pkt
    requires Kept(arrivals[..at]) == Kept(arrivals)[..n - 1]
    requires var r := SeeAll(Kept(arrivals)[..n - 1]);
             && r.gaps + (n - 1) == r.expected <= |arrivals|
             && Kept(arrivals[..r.expected]) == Kept(arrivals)[..n - 1]
    ensures |Kept(arrivals)[n - 1]| >= 8
    ensures var r := SeeAll(Kept(arrivals)[..n]);
            && r.gaps + n == r.expected == at + 1
            && r.gaps == Drops(arrivals[..r.expected])
            && Kept(arrivals[..r.expected]) == Kept(arrivals)[..n]
            && r.expected == Seq(Kept(arrivals)[n - 1]) + 1
  {
    hide Kept, Drops, SeeAll;
    var kept := Kept(arrivals);
    var r0 := SeeAll(kept[..n - 1]);
    KeptLength(arrivals, r0.expected, at);
    KeptOne(arrivals[..at], arrivals[at]);
    assert arrivals[..at] + [arrivals[at]] == arrivals[..at + 1];
    assert kept[..n - 1] + [kept[n - 1]] == kept[..n];
    SeeAllNext(kept, n);
    KeptAndDropped(arrivals[..at + 1]);
  }

  lemma SeeAllNext(pkts: seq<Packet>, n: nat)
    requires 0 < n <= |pkts| && forall k :: 0 <= k < n ==> |pkts[k]| >= 8
    ensures SeeAll(pkts[..n]) == See(SeeAll(pkts[..n - 1]), Seq(pkts[n - 1]))
  {
    assert pkts[..n][..n - 1] == pkts[..n - 1];
  }

  /** If position `at` is kept and the kept packets before it are those before `e`, then e <= at. */
  lemma KeptLength(arrivals: seq<Arrival>, e: nat, at: nat)
    requires at < |arrivals| && !arrivals[at].dropped && e <= |arrivals|
    requires Kept(arrivals[..e]) == Kept(arrivals[..at])
    ensures e <= at
  {
    KeptOne(arrivals[..at], arrivals[at]);
    assert arrivals[..at] + [arrivals[at]] == arrivals[..at + 1];
    if e > at {
      KeptGrows(arrivals, at + 1, e);
    }
  }

  lemma {:induction false} KeptGrows(arrivals: seq<Arrival>, i: nat, j: nat)
    requires i <= j <= |arrivals|
    ensures |Kept(arrivals[..i])| <= |Kept(arrivals[..j])|
    ensures Drops(arrivals[..i]) <= Drops(arrivals[..j])
    decreases j
  {
    if i < j {
      KeptGrows(arrivals, i, j - 1);
      assert arrivals[..j][..j - 1] == arrivals[..j - 1];
    }
  }

  lemma GapsWithin(arrivals: seq<Arrival>, polled: seq<Packet>)
    requires Numbered(arrivals) && polled <= Kept(arrivals)
    ensures forall k :: 0 <= k < |polled| ==> |polled[k]| >= 8
    ensures var r := SeeAll(polled);
            && r.gaps + |polled| == r.expected
            && (polled != [] ==> r.expected == Seq(polled[|polled| - 1]) + 1)
            && r.gaps <= Drops(arrivals)
  {
    hide Kept, Drops, SeeAll, Seq, Numbered;
    GapsAreDrops(arrivals, |polled|);
    assert polled == Kept(arrivals)[..|polled|];
    KeptGrows(arrivals, SeeAll(polled).expected, |arrivals|);
    assert arrivals[..|arrivals|] == arrivals;
  }

  /** A receiver that has processed every packet it polled: gaps plus delivered is the last sequence
      number plus one, and no gap is charged that the NIC did not count as an overrun. */
  lemma ReceiverGaps(c: NicConfig, w0: World, actions: seq<Action>, w: World)
    requires Fresh(c, w0) && Runs(c, w0, actions, w) && Numbered(w.arrivals) && c.size >= MIN_PAYLOAD
    ensures forall k :: 0 <= k < |w.polled| ==> |w.polled[k]| >= 8
    ensures var r := SeeAll(w.polled);
            && r.gaps + |w.polled| == r.expected
            && (w.polled != [] ==> r.expected == Seq(w.polled[|w.polled| - 1]) + 1)
            && r.gaps <= w.vi.overrun
  {
    LossyFifo(c, w0, actions, w);
    LossAccounting(c, w0, actions, w);
    hide Fresh, Runs, Kept, Drops, SeeAll, Seq, CountOf, Numbered;
    GapsWithin(w.arrivals, w.polled);
  }
}
