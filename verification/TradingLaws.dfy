/** What every state of a book keeps, whichever id discipline is used. */
module TradingLaws {
  import opened LobTypes
  import opened PriceTime
  import opened Trading
  import opened SlotLaws

  lemma EnqueueOk(c: Config, b: Sides, side: Side, o: Resting)
    requires SidesOk(c, b) && c.minPx <= o.px <= c.maxPx && o.qty > 0 && Room(b, side, o.px, o.qty)
    ensures SidesOk(c, b.With(side, Enqueue(side, b.On(side), o)))
  {
    hide SideOk, Enqueue, TotalAt;
    EnqueueSideOk(c, side, b.On(side), o);
  }

  lemma EnqueueSideOk(c: Config, side: Side, s: seq<Resting>, o: Resting)
    requires SideOk(c, side, s) && c.minPx <= o.px <= c.maxPx && o.qty > 0 && TotalAt(s, o.px) + o.qty < TWO_TO_32
    ensures SideOk(c, side, Enqueue(side, s, o))
  {
    hide Sorted, Enqueue, Slot, TotalAt, Ahead;
    EnqueueSorted(side, s, o);
    EnqueueAt(side, s, o);
    forall px ensures TotalAt(Enqueue(side, s, o), px) < TWO_TO_32 {
      TotalAtEnqueue(side, s, o, px);
    }
  }

  lemma RemoveOk(c: Config, b: Sides, side: Side, k: nat)
    requires SidesOk(c, b) && k < |b.On(side)|
    ensures SidesOk(c, b.With(side, Remove(b.On(side), k)))
  {
    hide SideOk, Remove;
    RemoveSideOk(c, side, b.On(side), k);
  }

  lemma RemoveSideOk(c: Config, side: Side, s: seq<Resting>, k: nat)
    requires SideOk(c, side, s) && k < |s|
    ensures SideOk(c, side, Remove(s, k))
  {
    hide Sorted, Remove, TotalAt, Ahead;
    RemoveSorted(side, s, k);
    RemoveAt(s, k);
    forall px ensures TotalAt(Remove(s, k), px) < TWO_TO_32 {
      TotalAtRemove(s, k, px);
    }
  }

  /** The queue after its front order gave up `take`. */
  function Reduced(s: seq<Resting>, take: nat): seq<Resting>
    requires s != [] && take <= s[0].qty
  {
    s[0 := s[0].(qty := s[0].qty - take)]
  }

  lemma ReduceTotals(s: seq<Resting>, take: nat, px: nat)
    requires s != [] && take <= s[0].qty
    ensures TotalAt(Reduced(s, take), px) == TotalAt(s, px) - (if s[0].px == px then take else 0)
  {
    assert Reduced(s, take)[1..] == s[1..];
  }

  lemma ReduceQueue(c: Config, side: Side, s: seq<Resting>, take: nat)
    requires SideOk(c, side, s) && s != [] && take <= s[0].qty
    ensures var s' := Reduced(s, take);
            && |s'| == |s|
            && (forall k :: 0 <= k < |s| ==> s'[k].id == s[k].id && s'[k].px == s[k].px && (k > 0 ==> s'[k] == s[k]))
            && (forall px :: TotalAt(s', px) == TotalAt(s, px) - (if s[0].px == px then take else 0))
            && Sorted(side, s')
            && (take < s[0].qty ==> SideOk(c, side, s'))
  {
    forall px: nat
      ensures TotalAt(Reduced(s, take), px) == TotalAt(s, px) - (if s[0].px == px then take else 0)
    {
      ReduceTotals(s, take, px);
    }
  }

  /** Nobody in own would trade with anybody in opp. */
  ghost predicate Clear(side: Side, own: seq<Resting>, opp: seq<Resting>) {
    forall i, j :: 0 <= i < |own| && 0 <= j < |opp| ==> !Crosses(side, own[i].px, opp[j].px)
  }

  lemma UncrossedIsClear(b: Sides, side: Side)
    ensures Uncrossed(b) <==> Clear(side, b.On(side), b.On(side.Opposite()))
  {
  }

  /** Matching first and resting the remainder never leaves a crossed book. */
  lemma TradeUncrossed(c: Config, b: Sides, side: Side, px: nat, qty: nat, id: nat)
    requires SidesOk(c, b) && Uncrossed(b)
    ensures Uncrossed(Trade(b, side, px, qty, id).sides)
  {
    hide Match, Uncrossed, Enqueue;
    var opp := side.Opposite();
    var own, q := b.On(side), b.On(opp);
    var m := Match(q, side, id, px, qty);
    assert opp.Opposite() == side;
    assert SideOk(c, opp, q);
    MatchKeepsSide(opp, q, id, px, qty);
    UncrossedIsClear(b, side);
    SurvivorsClear(side, own, q, m.left);
    var t := Trade(b, side, px, qty, id).sides;
    assert t.On(opp) == m.left;
    if m.remaining > 0 {
      RemainderCrossesNobody(opp, q, id, px, qty);
      SettledClear(side, own, m.left, Resting(id, px, m.remaining));
    }
    UncrossedIsClear(t, side);
  }

  lemma SurvivorsClear(side: Side, own: seq<Resting>, q: seq<Resting>, left: seq<Resting>)
    requires Clear(side, own, q) && Survivors(left, q)
    ensures Clear(side, own, left)
  {
    forall i, j | 0 <= i < |own| && 0 <= j < |left|
      ensures !Crosses(side, own[i].px, left[j].px)
    {
      assert Survivor(left[j], q[j + |q| - |left|]);
    }
  }

  lemma SettledClear(side: Side, own: seq<Resting>, opp: seq<Resting>, o: Resting)
    requires Clear(side, own, opp)
    requires forall r :: r in opp ==> !Crosses(side, o.px, r.px)
    ensures Clear(side, Enqueue(side, own, o), opp)
  {
    var e := Enqueue(side, own, o);
    var k := Slot(side, own, o.px);
    forall i, j | 0 <= i < |e| && 0 <= j < |opp|
      ensures !Crosses(side, e[i].px, opp[j].px)
    {
      assert opp[j] in opp;
      assert e[i] == if i < k then own[i] else if i == k then o else own[i - 1];
    }
  }

  lemma WithdrawUncrossed(b: Sides, id: nat)
    requires Uncrossed(b)
    ensures Uncrossed(Withdraw(b, id))
  {
    if Rests(b.bids, id) {
      var k := IndexOf(b.bids, id);
      var r := Remove(b.bids, k);
      assert forall i :: 0 <= i < |r| ==> r[i] == b.bids[if i < k then i else i + 1];
    } else if Rests(b.asks, id) {
      var k := IndexOf(b.asks, id);
      var r := Remove(b.asks, k);
      assert forall i :: 0 <= i < |r| ==> r[i] == b.asks[if i < k then i else i + 1];
    }
  }

  /** Priority and conservation for one accepted order: its fills are the greedy ones; its quantity
      is its fills plus what rests; at every price the other side loses exactly the fills and its own
      side gains exactly the remainder. */
  lemma TradeConserves(b: Sides, side: Side, px: nat, qty: nat, id: nat, p: nat)
    requires Positive(b.On(side.Opposite()))
    ensures var t := Trade(b, side, px, qty, id);
            var opp := side.Opposite();
            && Greedy(b.On(opp), side, id, px, qty, Matched(t.fills, t.sides.On(opp), t.remaining))
            && FilledQty(t.fills) + t.remaining == qty
            && TotalAt(b.On(opp), p) == TotalAt(t.sides.On(opp), p) + FilledAt(t.fills, p)
            && TotalAt(t.sides.On(side), p) == TotalAt(b.On(side), p) + if p == px then t.remaining else 0
  {
    hide Match, Enqueue, TotalAt, FilledAt, FilledQty, Greedy;
    var q := b.On(side.Opposite());
    MatchIsGreedy(q, side, id, px, qty);
    MatchConserves(q, side, id, px, qty, p);
    TotalAtEnqueue(side, b.On(side), Resting(id, px, Match(q, side, id, px, qty).remaining), p);
  }

  /** An order that trades finds its own level empty, so the limit on level totals never concerns it. */
  lemma TradesHaveRoom(c: Config, b: Sides, side: Side, px: nat, qty: nat, id: nat)
    requires SidesOk(c, b) && Uncrossed(b) && qty < TWO_TO_32
    requires Trade(b, side, px, qty, id).fills != []
    ensures Room(b, side, px, qty)
  {
    hide Uncrossed, TotalAt, SideOk;
    var own, q := b.On(side), b.On(side.Opposite());
    SideParts(c, b, side);
    UncrossedIsClear(b, side);
    assert q != [] && Crosses(side, px, q[0].px);
    TotalAtZero(own, px);
  }

  lemma SideParts(c: Config, b: Sides, side: Side)
    requires SidesOk(c, b)
    ensures Sorted(side, b.On(side)) && Positive(b.On(side))
    ensures forall k :: 0 <= k < |b.On(side)| ==> c.minPx <= b.On(side)[k].px <= c.maxPx
  {
    assert SideOk(c, side, b.On(side));
  }
}
