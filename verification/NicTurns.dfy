/**
 The interleaved receive path runs the real calls: an uninterrupted call of the NIC or of the application is a
 run of its steps. So everything that is offered can get through.
 */
module NicTurns {
  import opened Wrappers
  import opened LittleEndian
  import opened NicSpec
  import opened NicSteps
  import V = VirtualInterface
  import R = ReceivePath

  lemma {:induction false} RunsThrough(c: NicConfig, w: World, a: seq<Action>, w1: World, b: seq<Action>, w2: World)
    requires Runs(c, w, a, w1) && Runs(c, w1, b, w2)
    ensures Runs(c, w, a + b, w2)
    decreases |a|
  {
    hide Can, Go;
    if a == [] {
      assert a + b == b;
    } else {
      RunsThrough(c, Go(c, w, a[0]), a[1..], w1, b, w2);
      assert (a + b)[1..] == a[1..] + b;
    }
  }

  lemma RunsOne(c: NicConfig, w: World, a: Action)
    requires Can(c, w, a)
    ensures Runs(c, w, [a], Go(c, w, a))
  {
    hide Can, Go;
    assert [a][1..] == [];
  }

  // ---------- the NIC ----------

  /** What the NIC does for one packet. */
  function NicTurn(w: World, pkt: Packet, wait: bool): seq<Action> {
    if w.vi.rx == [] then [Arrive(pkt, wait)] else [Arrive(pkt, wait), Copy, Complete]
  }

  /** The world after the NIC handled one packet. */
  function AfterNic(c: NicConfig, w: World, pkt: Packet): World
    requires Fits(c, w.vi) && (w.vi.rx != [] ==> w.vi.rx[0] < c.count)
  {
    if w.vi.rx == [] then w.(vi := Overrun(w.vi), arrivals := w.arrivals + [Arrival(pkt, true)])
    else w.(vi := R.Received(c, w.vi, pkt), waiting := w.waiting + [pkt],
            arrivals := w.arrivals + [Arrival(pkt, false)])
  }

  /** An undisturbed turn of an idle NIC receives the packet into the oldest posted buffer, whether it would
      wait or not; without one it counts the loss, unless it waits, and then the packet does not arrive yet. */
  lemma NicTurnRuns(c: NicConfig, w: World, pkt: Packet, wait: bool)
    requires Inv(c, w) && w.nic.Idle? && |pkt| < 0x1_0000
    ensures Fits(c, w.vi) && (w.vi.rx != [] ==> w.vi.rx[0] < c.count)
    ensures w.vi.rx != [] || !wait ==> Runs(c, w, NicTurn(w, pkt, wait), AfterNic(c, w, pkt))
    ensures w.vi.rx == [] && wait ==> !Can(c, w, Arrive(pkt, wait))
  {
    hide Owned, Intact, InOrder, Dma;
    InvFits(c, w);
    if w.vi.rx != [] {
      InNic(c, w.vi, [], HeldIds(w.held), w.vi.rx[0]);
      var w1 := Go(c, w, Arrive(pkt, wait));
      var w2 := Go(c, w1, Copy);
      var w3 := Go(c, w2, Complete);
      RunsThree(c, w, Arrive(pkt, wait), Copy, Complete);
      assert w3 == AfterNic(c, w, pkt);
    } else if !wait {
      RunsOne(c, w, Arrive(pkt, wait));
    }
  }

  lemma RunsThree(c: NicConfig, w: World, a: Action, b: Action, d: Action)
    requires Can(c, w, a) && Can(c, Go(c, w, a), b) && Can(c, Go(c, Go(c, w, a), b), d)
    ensures Runs(c, w, [a, b, d], Go(c, Go(c, Go(c, w, a), b), d))
  {
    hide Can, Go;
    var w1 := Go(c, w, a);
    var w2 := Go(c, w1, b);
    RunsOne(c, w, a);
    RunsOne(c, w1, b);
    RunsOne(c, w2, d);
    RunsThrough(c, w, [a], w1, [b], w2);
    RunsThrough(c, w, [a] + [b], w2, [d], Go(c, w2, d));
    assert [a] + [b] + [d] == [a, b, d];
  }

  lemma InvFits(c: NicConfig, w: World)
    requires Inv(c, w)
    ensures Fits(c, w.vi) && Owned(c, w.vi, NicIds(w.nic), HeldIds(w.held)) && |w.waiting| == |w.vi.evq|
  {
  }

  // ---------- the application ----------

  function Posts(n: nat): seq<Action> {
    if n == 0 then [] else Posts(n - 1) + [Post(n - 1)]
  }

  /** Posting the buffers one after the other is what post_all does. */
  lemma {:induction false} PostsRun(c: NicConfig, w: World, n: nat)
    requires Fits(c, w.vi)
    ensures Runs(c, w, Posts(n), w.(vi := V.PostedBelow(c, w.vi, n)))
  {
    if n > 0 {
      PostsRun(c, w, n - 1);
      var w1 := w.(vi := V.PostedBelow(c, w.vi, n - 1));
      RunsOne(c, w1, Post(n - 1));
      RunsThrough(c, w, Posts(n - 1), w1, [Post(n - 1)], Go(c, w1, Post(n - 1)));
    }
  }

  function Polls(n: nat): seq<Action> {
    if n == 0 then [] else [Poll] + Polls(n - 1)
  }

  /** Polling n events takes the n oldest, and their packets. */
  lemma {:induction false} PollsRun(c: NicConfig, w: World, n: nat) returns (w': World)
    requires Inv(c, w) && n <= |w.vi.evq|
    ensures Inv(c, w') && Runs(c, w, Polls(n), w')
    ensures n <= |w.waiting| && w'.vi == Polled(w.vi, n) && w'.polled == w.polled + w.waiting[..n]
    ensures |w'.held| == |w.held| + n && HeldIds(w'.held) == HeldIds(w.held) + EvIds(w.vi.evq[..n])
    ensures w'.nic == w.nic && w'.arrivals == w.arrivals && w'.waiting == w.waiting[n..]
    decreases n
  {
    InvFits(c, w);
    hide Owned, Intact, InOrder, Inv, HeldIds, EvIds, Can, Go, Runs;
    if n == 0 {
      w' := w;
      PollsNone(c, w);
    } else {
      PollInvHere(c, w);
      var w1 := Go(c, w, Poll);
      PolledOneMore(c, w, w1, n);
      w' := PollsRun(c, w1, n - 1);
      RunsOne(c, w, Poll);
      RunsThrough(c, w, [Poll], w1, Polls(n - 1), w');
    }
  }

  lemma PollInvHere(c: NicConfig, w: World)
    requires Inv(c, w) && w.vi.evq != []
    ensures Can(c, w, Poll) && Inv(c, Go(c, w, Poll))
  {
    InvFits(c, w);
    hide Inv;
    StepInv(c, w, Poll);
  }

  lemma PollsNone(c: NicConfig, w: World)
    ensures Runs(c, w, [], w) && Polled(w.vi, 0) == w.vi && w.polled + w.waiting[..0] == w.polled
    ensures HeldIds(w.held) + EvIds(w.vi.evq[..0]) == HeldIds(w.held) && w.waiting[0..] == w.waiting
  {
  }

  lemma PolledOneMore(c: NicConfig, w: World, w1: World, n: nat)
    requires Can(c, w, Poll) && w1 == Go(c, w, Poll) && 0 < n <= |w.vi.evq| == |w.waiting|
    ensures n - 1 <= |w1.vi.evq| == |w1.waiting|
    ensures Polled(w1.vi, n - 1) == Polled(w.vi, n) && w1.waiting[n - 1..] == w.waiting[n..]
    ensures w1.polled + w1.waiting[..n - 1] == w.polled + w.waiting[..n]
    ensures HeldIds(w1.held) + EvIds(w1.vi.evq[..n - 1]) == HeldIds(w.held) + EvIds(w.vi.evq[..n])
    ensures |w1.held| == |w.held| + 1 && w1.nic == w.nic && w1.arrivals == w.arrivals
  {
    assert w.vi.evq[..n] == [w.vi.evq[0]] + w.vi.evq[1..][..n - 1];
    assert EvIds(w.vi.evq[..n]) == [w.vi.evq[0].bufferId] + EvIds(w1.vi.evq[..n - 1]);
    assert HeldIds(w1.held) == HeldIds(w.held) + [w.vi.evq[0].bufferId];
  }

  function Reposts(n: nat): seq<Action> {
    if n == 0 then [] else [Repost(0)] + Reposts(n - 1)
  }

  /** Giving back every held buffer, oldest first, puts them at the end of the descriptor ring in that order. */
  lemma {:induction false} RepostsRun(c: NicConfig, w: World) returns (w': World)
    requires Inv(c, w)
    ensures Inv(c, w') && Runs(c, w, Reposts(|w.held|), w')
    ensures w'.held == [] && w'.vi.rx == w.vi.rx + HeldIds(w.held) && w'.vi.evq == w.vi.evq && w'.vi.slab == w.vi.slab
    ensures w'.nic == w.nic && w'.arrivals == w.arrivals && w'.waiting == w.waiting && w'.polled == w.polled
    ensures w'.vi.overrun == w.vi.overrun
    decreases |w.held|
  {
    HeldSplit(w.held, w.vi.rx);
    hide Inv, Can, Go, HeldIds, Owned;
    if w.held == [] {
      w' := w;
    } else {
      hide Runs;
      var w1 := RepostFirst(c, w);
      RunsOne(c, w, Repost(0));
      w' := RepostsRun(c, w1);
      RunsThrough(c, w, [Repost(0)], w1, Reposts(|w1.held|), w');
    }
  }

  lemma HeldSplit(held: seq<Delivery>, rx: seq<nat>)
    ensures held == [] ==> rx + HeldIds(held) == rx
    ensures held != [] ==> rx + [HeldIds(held)[0]] + HeldIds(held[1..]) == rx + HeldIds(held)
  {
  }

  lemma RepostFirst(c: NicConfig, w: World) returns (w1: World)
    requires Inv(c, w) && w.held != []
    ensures Can(c, w, Repost(0)) && w1 == Go(c, w, Repost(0)) && Inv(c, w1)
    ensures w1.held == w.held[1..] && w1.vi.rx == w.vi.rx + [HeldIds(w.held)[0]]
    ensures w1.vi.evq == w.vi.evq && w1.vi.slab == w.vi.slab && w1.vi.overrun == w.vi.overrun
    ensures w1.nic == w.nic && w1.arrivals == w.arrivals && w1.waiting == w.waiting && w1.polled == w.polled
  {
    InvFits(c, w);
    hide Owned, Intact, InOrder, Inv;
    RepostInv(c, w, 0);
    w1 := Go(c, w, Repost(0));
    assert w.held[..0] + w.held[1..] == w.held[1..];
  }

  /** An undisturbed turn of the receiver that held nothing: n events polled and given back. It leaves the
      rings and the slab as ReceivePath.ReceiveBatch does, and has delivered the n oldest packets. */
  lemma ReceiverTurnRuns(c: NicConfig, w: World, n: nat) returns (w': World)
    requires Inv(c, w) && w.held == [] && n <= |w.vi.evq|
    ensures Runs(c, w, Polls(n) + Reposts(n), w') && Inv(c, w') && w'.held == []
    ensures w'.vi.evq == w.vi.evq[n..] && w'.vi.rx == w.vi.rx + EvIds(w.vi.evq[..n]) && w'.vi.slab == w.vi.slab
    ensures n <= |w.waiting| && w'.polled == w.polled + w.waiting[..n] && w'.waiting == w.waiting[n..]
    ensures w'.nic == w.nic && w'.arrivals == w.arrivals && w'.vi.overrun == w.vi.overrun
  {
    hide Inv;
    var w1 := PollsRun(c, w, n);
    w' := RepostsRun(c, w1);
    RunsThrough(c, w, Polls(n), w1, Reposts(n), w');
    assert HeldIds([]) + EvIds(w.vi.evq[..n]) == EvIds(w.vi.evq[..n]);
  }

  // ---------- everything can get through ----------

  /** The receiver is up to date and a descriptor is posted. */
  ghost predicate CaughtUp(c: NicConfig, w: World) {
    Inv(c, w) && w.nic.Idle? && w.held == [] && w.waiting == [] && w.vi.evq == [] && w.vi.rx != []
  }

  /** One packet all the way. */
  lemma OneThrough(c: NicConfig, w: World, pkt: Packet) returns (actions: seq<Action>, w': World)
    requires CaughtUp(c, w) && |pkt| < 0x1_0000
    ensures Runs(c, w, actions, w') && CaughtUp(c, w')
    ensures w'.polled == w.polled + [pkt] && w'.vi.overrun == w.vi.overrun && Packets(actions) == [pkt]
  {
    hide Inv, Can, Go, Runs, Owned;
    NicTurnRuns(c, w, pkt, false);
    var w1 := AfterNic(c, w, pkt);
    TurnInv(c, w, NicTurn(w, pkt, false), w1);
    w' := ReceiverTurnRuns(c, w1, 1);
    actions := NicTurn(w, pkt, false) + (Polls(1) + Reposts(1));
    RunsThrough(c, w, NicTurn(w, pkt, false), w1, Polls(1) + Reposts(1), w');
    assert w1.waiting == [pkt] && w1.waiting[..1] == [pkt];
    assert actions == [Arrive(pkt, false), Copy, Complete, Poll, Repost(0)];
    NoArrivals(actions[1..]);
  }

  lemma TurnInv(c: NicConfig, w: World, actions: seq<Action>, w': World)
    requires Inv(c, w) && Runs(c, w, actions, w')
    ensures Inv(c, w')
  {
    RunInv(c, w, actions, w');
  }

  lemma {:induction false} AllThrough(c: NicConfig, w: World, pkts: seq<Packet>)
    returns (actions: seq<Action>, w': World)
    requires CaughtUp(c, w) && forall k :: 0 <= k < |pkts| ==> |pkts[k]| < 0x1_0000
    ensures Runs(c, w, actions, w')
    ensures w'.polled == w.polled + pkts && w'.vi.overrun == w.vi.overrun && Packets(actions) == pkts
    decreases |pkts|
  {
    hide CaughtUp, Can, Go;
    if pkts == [] {
      actions, w' := [], w;
    } else {
      hide Runs, Packets;
      var a, w1 := OneThrough(c, w, pkts[0]);
      var b;
      b, w' := AllThrough(c, w1, pkts[1..]);
      actions := a + b;
      RunsThrough(c, w, a, w1, b, w');
      PacketsConcat(a, b);
    }
  }

  lemma {:induction false} PacketsConcat(a: seq<Action>, b: seq<Action>)
    ensures Packets(a + b) == Packets(a) + Packets(b)
  {
    if a == [] {
      assert a + b == b;
    } else {
      assert (a + b)[0] == a[0] && (a + b)[1..] == a[1..] + b;
      PacketsConcat(a[1..], b);
      var one := if a[0].Arrive? then [a[0].pkt] else [];
      assert one + (Packets(a[1..]) + Packets(b)) == one + Packets(a[1..]) + Packets(b);
    }
  }

  /** However many packets there are and however few buffers: on a new interface there is a run in which the
      application receives every one of them, in order, and none is lost. */
  lemma EverythingGetsThrough(c: NicConfig, w0: World, pkts: seq<Packet>) returns (actions: seq<Action>, w: World)
    requires Fresh(c, w0) && forall k :: 0 <= k < |pkts| ==> |pkts[k]| < 0x1_0000
    ensures Runs(c, w0, actions, w) && Packets(actions) == pkts
    ensures w.polled == pkts && w.vi.overrun == 0
  {
    FreshInv(c, w0);
    PostsRun(c, w0, c.count);
    var w1 := w0.(vi := V.PostedBelow(c, w0.vi, c.count));
    FreshPosted(c, w0);
    hide Fresh, Inv, Runs, Can, Go;
    TurnInv(c, w0, Posts(c.count), w1);
    var rest;
    rest, w := AllThrough(c, w1, pkts);
    actions := Posts(c.count) + rest;
    RunsThrough(c, w0, Posts(c.count), w1, rest, w);
    NoPackets(c.count);
    PacketsConcat(Posts(c.count), rest);
  }

  lemma FreshPosted(c: NicConfig, w0: World)
    requires Fresh(c, w0) && Inv(c, w0)
    ensures var v := V.PostedBelow(c, w0.vi, c.count); v.rx != [] && v.evq == [] && v.overrun == 0
    ensures w0.nic == Idle && w0.held == [] && w0.waiting == [] && w0.polled == []
  {
    V.AllPosted(c, w0.vi, NicIds(w0.nic), HeldIds(w0.held), c.count);
    assert V.FreeIds(w0.vi.own, c.count)[|V.FreeIds(w0.vi.own, c.count)| - 1] == c.count - 1;
  }

  lemma {:induction false} NoArrivals(actions: seq<Action>)
    requires forall k :: 0 <= k < |actions| ==> !actions[k].Arrive?
    ensures Packets(actions) == []
  {
    if actions != [] {
      NoArrivals(actions[1..]);
    }
  }

  lemma {:induction false} NoPackets(n: nat)
    ensures Packets(Posts(n)) == []
  {
    if n > 0 {
      NoPackets(n - 1);
      PacketsConcat(Posts(n - 1), [Post(n - 1)]);
    }
  }
}
