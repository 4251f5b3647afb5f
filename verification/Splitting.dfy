/** Two orders in a row at one side and price, against one order for both quantities. */
module Splitting {
  import opened LobTypes
  import opened PriceTime
  import opened Trading

  /** The same opposite queue, the same totals at every price and the same best own price. */
  ghost predicate SameMarket(side: Side, a: Sides, b: Sides) {
    && a.On(side.Opposite()) == b.On(side.Opposite())
    && (forall px :: TotalAt(a.On(side), px) == TotalAt(b.On(side), px))
    && BestOf(a.On(side)) == BestOf(b.On(side))
  }

  lemma RestTwice(side: Side, s: seq<Resting>, o1: Resting, o2: Resting, o: Resting)
    requires o1.px == o2.px == o.px && o.qty == o1.qty + o2.qty
    ensures var e1 := Enqueue(side, s, o1);
            var e2 := Enqueue(side, e1, o2);
            var e := Enqueue(side, s, o);
            (forall px :: TotalAt(e2, px) == TotalAt(e, px)) && BestOf(e2) == BestOf(e)
  {
    var e1 := Enqueue(side, s, o1);
    forall px
      ensures TotalAt(Enqueue(side, e1, o2), px) == TotalAt(Enqueue(side, s, o), px)
    {
      TotalAtEnqueue(side, s, o1, px);
      TotalAtEnqueue(side, e1, o2, px);
      TotalAtEnqueue(side, s, o, px);
    }
    hide Slot;
    BestOfEnqueue(side, s, o1);
    BestOfEnqueue(side, e1, o2);
    BestOfEnqueue(side, s, o);
  }

  lemma RestOnce(side: Side, s: seq<Resting>, o1: Resting, o2: Resting)
    requires o1.px == o2.px && o1.qty == o2.qty
    ensures var e1, e2 := Enqueue(side, s, o1), Enqueue(side, s, o2);
            (forall px :: TotalAt(e1, px) == TotalAt(e2, px)) && BestOf(e1) == BestOf(e2)
  {
    forall px
      ensures TotalAt(Enqueue(side, s, o1), px) == TotalAt(Enqueue(side, s, o2), px)
    {
      TotalAtEnqueue(side, s, o1, px);
      TotalAtEnqueue(side, s, o2, px);
    }
    hide Slot;
    BestOfEnqueue(side, s, o1);
    BestOfEnqueue(side, s, o2);
  }

  lemma TradeSplits(b: Sides, side: Side, px: nat, q1: nat, q2: nat, id1: nat, id2: nat, id: nat, maker: nat)
    requires Positive(b.On(side.Opposite())) && q1 > 0 && q2 > 0
    ensures var t1 := Trade(b, side, px, q1, id1);
            var t2 := Trade(t1.sides, side, px, q2, id2);
            var t := Trade(b, side, px, q1 + q2, id);
            && SameMarket(side, t2.sides, t.sides)
            && FilledFrom(t.fills, maker) == FilledFrom(t1.fills, maker) + FilledFrom(t2.fills, maker)
  {
    hide Match, Enqueue, TotalAt, FilledFrom;
    var opp := side.Opposite();
    var own, q := b.On(side), b.On(opp);
    MatchSplits(q, side, id1, id2, id, px, q1, q2, maker);
    var m1 := Match(q, side, id1, px, q1);
    var m2 := Match(m1.left, side, id2, px, q2);
    var t1 := Trade(b, side, px, q1, id1);
    assert t1.sides.On(opp) == m1.left;
    if m1.remaining > 0 {
      MatchConserves(m1.left, side, id2, px, q2, 0);
      assert FilledQty([]) == 0;
      RestTwice(side, own, Resting(id1, px, m1.remaining), Resting(id2, px, q2), Resting(id, px, m1.remaining + q2));
    } else {
      RestOnce(side, own, Resting(id2, px, m2.remaining), Resting(id, px, m2.remaining));
    }
  }

  /** Splitting an order changes nothing anybody else can see, as long as two slots are free. */
  lemma LimitSplits(c: Config, l: Ladder, side: Side, px: nat, q1: nat, q2: nat, maker: nat)
    requires Positive(l.sides.On(side.Opposite()))
    requires q1 > 0 && q2 > 0 && c.minPx <= px <= c.maxPx && |l.stack| >= 2
    ensures var r1 := LadderLimit(c, l, side, px, q1);
            var r2 := LadderLimit(c, r1.book, side, px, q2);
            var r := LadderLimit(c, l, side, px, q1 + q2);
            && SameMarket(side, r2.book.sides, r.book.sides)
            && FilledFrom(r.fills, maker) == FilledFrom(r1.fills, maker) + FilledFrom(r2.fills, maker)
  {
    hide Trade, SameMarket, FilledFrom, Freed;
    var id := l.stack[|l.stack| - 1];
    var r1 := LadderLimit(c, l, side, px, q1);
    var id2 := r1.book.stack[|r1.book.stack| - 1];
    TradeSplits(l.sides, side, px, q1, q2, id, id2, id, maker);
  }
}
