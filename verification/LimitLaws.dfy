/** What the client's two calls mean, in terms of their arguments. */
module LimitLaws {
  import opened LobTypes
  import opened PriceTime
  import opened Trading
  import opened SlotLaws
  import opened TradingLaws

  // ---------- which orders are accepted ----------

  /** A trade has a fill or a remainder. */
  lemma SomethingHappens(b: Sides, side: Side, px: nat, qty: nat, id: nat)
    requires qty > 0
    ensures var t := Trade(b, side, px, qty, id); t.fills != [] || t.remaining > 0
  {
    MatchConserves(b.On(side.Opposite()), side, id, px, qty, px);
  }

  /** The ladder: an order has an effect exactly when it asks for something, its price is in the book's
      range, both ends included, and a slot is free. */
  lemma LimitAccepts(c: Config, l: Ladder, side: Side, px: nat, qty: nat)
    requires Slots(c, l.sides, l.stack, [])
    ensures var r := LadderLimit(c, l, side, px, qty);
            var ok := qty > 0 && c.minPx <= px <= c.maxPx && |l.sides.bids| + |l.sides.asks| < c.maxOrders;
            (ok <==> r.id != 0 || r.fills != []) && (!ok ==> r == Outcome(l, 0, []))
  {
    hide Trade, Freed;
    if LadderAccepts(c, l, px, qty) {
      StackAt(c, l.sides, l.stack, [], |l.stack| - 1);
      SomethingHappens(l.sides, side, px, qty, l.stack[|l.stack| - 1]);
    }
  }

  /** The tree: the same, and the id counter advances for exactly the accepted orders. */
  lemma TreeLimitAccepts(c: Config, t: Tree, side: Side, px: nat, qty: nat)
    requires t.nextId >= 1
    ensures var r := TreeLimit(c, t, side, px, qty);
            var ok := qty > 0 && c.minPx <= px <= c.maxPx && |t.sides.bids| + |t.sides.asks| < c.maxOrders;
            && (ok <==> r.id != 0 || r.fills != []) && (!ok ==> r == Outcome(t, 0, []))
            && r.book.nextId == t.nextId + if ok then 1 else 0
  {
    hide Trade;
    if TreeAccepts(c, t, px, qty) {
      SomethingHappens(t.sides, side, px, qty, t.nextId);
    }
  }

  // ---------- what an accepted order does ----------

  /** Priority and conservation for the ladder's limit, which reports an id exactly when something of the
      order rests. */
  lemma LimitConserves(c: Config, l: Ladder, side: Side, px: nat, qty: nat, p: nat)
    requires Slots(c, l.sides, l.stack, []) && Positive(l.sides.On(side.Opposite()))
    requires qty > 0 && c.minPx <= px <= c.maxPx && |l.sides.bids| + |l.sides.asks| < c.maxOrders
    ensures var r := LadderLimit(c, l, side, px, qty);
            var opp := side.Opposite();
            && FilledQty(r.fills) <= qty && (r.id == INVALID_ID <==> FilledQty(r.fills) == qty)
            && Greedy(l.sides.On(opp), side, l.stack[|l.stack| - 1], px, qty,
                      Matched(r.fills, r.book.sides.On(opp), qty - FilledQty(r.fills)))
            && TotalAt(l.sides.On(opp), p) == TotalAt(r.book.sides.On(opp), p) + FilledAt(r.fills, p)
            && TotalAt(r.book.sides.On(side), p)
               == TotalAt(l.sides.On(side), p) + if p == px then qty - FilledQty(r.fills) else 0
  {
    hide Trade, Freed, TotalAt, FilledAt, FilledQty, Greedy;
    StackAt(c, l.sides, l.stack, [], |l.stack| - 1);
    TradeConserves(l.sides, side, px, qty, l.stack[|l.stack| - 1], p);
  }

  /** And for the tree's. */
  lemma TreeLimitConserves(c: Config, t: Tree, side: Side, px: nat, qty: nat, p: nat)
    requires t.nextId >= 1 && Positive(t.sides.On(side.Opposite()))
    requires qty > 0 && c.minPx <= px <= c.maxPx && |t.sides.bids| + |t.sides.asks| < c.maxOrders
    ensures var r := TreeLimit(c, t, side, px, qty);
            var opp := side.Opposite();
            && FilledQty(r.fills) <= qty && (r.id == INVALID_ID <==> FilledQty(r.fills) == qty)
            && Greedy(t.sides.On(opp), side, t.nextId, px, qty,
                      Matched(r.fills, r.book.sides.On(opp), qty - FilledQty(r.fills)))
            && TotalAt(t.sides.On(opp), p) == TotalAt(r.book.sides.On(opp), p) + FilledAt(r.fills, p)
            && TotalAt(r.book.sides.On(side), p)
               == TotalAt(t.sides.On(side), p) + if p == px then qty - FilledQty(r.fills) else 0
  {
    hide Trade, TotalAt, FilledAt, FilledQty, Greedy;
    TradeConserves(t.sides, side, px, qty, t.nextId, p);
  }

  /** No fill is outside the taker's limit, fills never get better for the taker, and a remainder means
      that nobody is left inside the limit. */
  lemma InsideTheLimit(c: Config, b: Sides, side: Side, px: nat, qty: nat, id: nat)
    requires SidesOk(c, b)
    ensures var t := Trade(b, side, px, qty, id);
            && (forall i :: 0 <= i < |t.fills| ==> if side == Buy then t.fills[i].px <= px else t.fills[i].px >= px)
            && (forall i, j :: 0 <= i < j < |t.fills| ==>
                  if side == Buy then t.fills[i].px <= t.fills[j].px else t.fills[i].px >= t.fills[j].px)
            && (t.remaining > 0 ==>
                  forall r :: r in t.sides.On(side.Opposite()) ==> if side == Buy then r.px > px else r.px < px)
  {
    hide Match, Enqueue, TotalAt;
    var opp := side.Opposite();
    var q := b.On(opp);
    SideParts(c, b, opp);
    MatchIsGreedy(q, side, id, px, qty);
    var m := Match(q, side, id, px, qty);
    forall i | 0 <= i < |m.fills|
      ensures m.fills[i].px == q[i].px && Crosses(side, px, q[i].px)
    {
      assert FillOf(m.fills[i], q[i], side, id, px);
    }
    if m.remaining > 0 {
      RemainderCrossesNobody(opp, q, id, px, qty);
    }
  }

  /** The best bid is the highest bid and the best ask the lowest ask. */
  lemma BestPrices(c: Config, b: Sides)
    requires SidesOk(c, b) && c.minPx >= 1
    ensures forall r :: r in b.bids ==> r.px <= BestOf(b.bids)
    ensures forall r :: r in b.asks ==> r.px >= BestOf(b.asks)
    ensures BestOf(b.bids) == 0 <==> b.bids == []
    ensures BestOf(b.asks) == 0 <==> b.asks == []
  {
    hide TotalAt;
    forall r | r in b.bids
      ensures r.px <= b.bids[0].px
    {
      var k :| 0 <= k < |b.bids| && b.bids[k] == r;
    }
    forall r | r in b.asks
      ensures r.px >= b.asks[0].px
    {
      var k :| 0 <= k < |b.asks| && b.asks[k] == r;
    }
  }

  /** First come first served, at every price: a remainder goes to the back of its own level and no other
      level of its side changes; a level of the other side only loses orders from its front. */
  lemma TimePriority(b: Sides, side: Side, px: nat, qty: nat, id: nat, p: nat)
    requires Sorted(side, b.On(side))
    ensures var t := Trade(b, side, px, qty, id);
            LevelIds(t.sides.On(side), p)
            == LevelIds(b.On(side), p) + if p == px && t.remaining > 0 then [id] else []
    ensures var t := Trade(b, side, px, qty, id);
            var opp := side.Opposite();
            exists n :: 0 <= n <= |LevelIds(b.On(opp), p)|
                        && LevelIds(t.sides.On(opp), p) == LevelIds(b.On(opp), p)[n..]
  {
    hide Match, Enqueue, LevelIds;
    var q := b.On(side.Opposite());
    var m := Match(q, side, id, px, qty);
    EnqueueLevelIds(side, b.On(side), Resting(id, px, m.remaining), p);
    assert LevelIds(b.On(side), p) + [] == LevelIds(b.On(side), p);
    var n := LevelLosesFront(q, side, id, px, qty, p);
    assert Trade(b, side, px, qty, id).sides.On(side.Opposite()) == m.left;
  }

  lemma {:induction false} LevelLosesFront(q: seq<Resting>, taker: Side, takerId: nat, limit: nat, qty: nat, p: nat)
    returns (n: nat)
    ensures n <= |LevelIds(q, p)|
    ensures LevelIds(Match(q, taker, takerId, limit, qty).left, p) == LevelIds(q, p)[n..]
  {
    hide Match;
    MatchUnfold(q, taker, takerId, limit, qty);
    n := 0;
    if qty == 0 || q == [] || !Crosses(taker, limit, q[0].px) {
    } else if q[0].qty <= qty {
      n := LevelLosesFront(q[1..], taker, takerId, limit, qty - q[0].qty, p);
      n := n + if q[0].px == p then 1 else 0;
    } else {
      var left := [q[0].(qty := q[0].qty - qty)] + q[1..];
      assert left[1..] == q[1..];
    }
  }

  /** The makers of a list of fills. */
  function Makers(fills: seq<Exec>): (r: seq<nat>)
    ensures |r| == |fills| && forall k :: 0 <= k < |r| ==> r[k] == fills[k].makerId
  {
    seq(|fills|, i requires 0 <= i < |fills| => fills[i].makerId)
  }

  lemma {:induction false} FreedAreMakers(q: seq<Resting>, taker: Side, takerId: nat, limit: nat, qty: nat)
    ensures var m := Match(q, taker, takerId, limit, qty);
            && |m.left| <= |q| && |q| - |m.left| <= |m.fills|
            && Freed(q, taker, takerId, limit, qty) == Makers(m.fills[..|q| - |m.left|])
  {
    hide Match;
    MatchUnfold(q, taker, takerId, limit, qty);
    if qty != 0 && q != [] && Crosses(taker, limit, q[0].px) && q[0].qty <= qty {
      FreedAreMakers(q[1..], taker, takerId, limit, qty - q[0].qty);
      var t := Match(q[1..], taker, takerId, limit, qty - q[0].qty);
      var m := Match(q, taker, takerId, limit, qty);
      var n := |q| - |m.left|;
      assert m.fills[..n] == [m.fills[0]] + t.fills[..n - 1];
      assert Makers(m.fills[..n]) == [q[0].id] + Makers(t.fills[..n - 1]);
    }
  }

  /** The free stack is last in first out: an accepted order takes the top slot; the makers it uses up give
      theirs back in the order of the fills; its own comes back last if nothing of it rests. */
  lemma SlotsAreLifo(c: Config, l: Ladder, side: Side, px: nat, qty: nat)
    requires Slots(c, l.sides, l.stack, [])
    requires qty > 0 && c.minPx <= px <= c.maxPx && |l.sides.bids| + |l.sides.asks| < c.maxOrders
    ensures var r := LadderLimit(c, l, side, px, qty);
            var n, gone := |l.stack| - 1, |l.sides.On(side.Opposite())| - |r.book.sides.On(side.Opposite())|;
            && 0 <= gone <= |r.fills| && (r.id != 0 ==> r.id == l.stack[n])
            && r.book.stack == l.stack[..n] + Makers(r.fills[..gone]) + if r.id == 0 then [l.stack[n]] else []
  {
    hide Match, Freed, Enqueue, Makers;
    var n := |l.stack| - 1;
    StackAt(c, l.sides, l.stack, [], n);
    FreedAreMakers(l.sides.On(side.Opposite()), side, l.stack[n], px, qty);
    var t := Trade(l.sides, side, px, qty, l.stack[n]);
    assert t.sides.On(side.Opposite()) == Match(l.sides.On(side.Opposite()), side, l.stack[n], px, qty).left;
    var gone := |l.sides.On(side.Opposite())| - |t.sides.On(side.Opposite())|;
    assert l.stack[..n] + Makers(t.fills[..gone]) + [] == l.stack[..n] + Makers(t.fills[..gone]);
  }

  /** b' is b without one order named id. */
  ghost predicate TookOne(b: Sides, b': Sides, id: nat) {
    exists side: Side, k: nat :: TookAt(b, b', side, k) && b.On(side)[k].id == id
  }

  ghost predicate TookAt(b: Sides, b': Sides, side: Side, k: nat) {
    && k < |b.On(side)| && b'.On(side.Opposite()) == b.On(side.Opposite())
    && b'.On(side) == b.On(side)[..k] + b.On(side)[k + 1..]
  }

  lemma TookOneAt(b: Sides, side: Side, k: nat)
    requires k < |b.On(side)|
    ensures TookOne(b, b.With(side, Remove(b.On(side), k)), b.On(side)[k].id)
  {
    assert TookAt(b, b.With(side, Remove(b.On(side), k)), side, k);
  }

  /** If an order rests under the id it leaves its side and everybody else stays in order; otherwise nothing
      changes. */
  lemma WithdrawTakesOne(b: Sides, id: nat)
    ensures Live(b, id) <==> exists side: Side :: id in Ids(b.On(side))
    ensures if Live(b, id) then TookOne(b, Withdraw(b, id), id) else Withdraw(b, id) == b
  {
    RestsIffId(b.bids, id);
    RestsIffId(b.asks, id);
    assert b.On(Buy) == b.bids && b.On(Sell) == b.asks;
    if id in Ids(b.bids) {
      TookOneAt(b, Buy, IndexOf(b.bids, id));
    } else if id in Ids(b.asks) {
      TookOneAt(b, Sell, IndexOf(b.asks, id));
    }
  }

  /** After a cancel in the ladder that slot is the next to be handed out; ids of the tree never come back. */
  lemma CancelTakesOne(l: Ladder, t: Tree, id: nat)
    ensures var r := LadderCancel(l, id);
            if exists side: Side :: id in Ids(l.sides.On(side))
            then r.stack == l.stack + [id] && TookOne(l.sides, r.sides, id) else r == l
    ensures var r := TreeCancel(t, id);
            && r.nextId == t.nextId
            && if exists side: Side :: id in Ids(t.sides.On(side)) then TookOne(t.sides, r.sides, id) else r == t
  {
    hide Withdraw, Live, TookOne;
    WithdrawTakesOne(l.sides, id);
    WithdrawTakesOne(t.sides, id);
  }
}
