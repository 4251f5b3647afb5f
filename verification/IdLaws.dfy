/** Which ids the clients of the two books get to see, over whole tapes of requests. */
module IdLaws {
  import opened LobTypes
  import opened PriceTime
  import opened Trading
  import opened LadderBook
  import opened LimitLaws
  import opened Clients

  // ---------- the tree never reuses an id ----------

  /** The outcomes of the limit orders on a tape, in order. */
  function Outcomes(c: Config, s: Client<Tree>, tape: seq<Op>): seq<Outcome<Tree>>
    decreases |tape|
  {
    if tape == [] then []
    else
      var rest := Outcomes(c, Step(TreeEngine(c), s, tape[0]).0, tape[1..]);
      if tape[0].Submit? then [TreeLimit(c, s.book, tape[0].side, tape[0].px, tape[0].qty)] + rest else rest
  }

  /** The call shows its client this id for the order it brought: returned, or as taker of a fill. */
  ghost predicate Reports(o: Outcome<Tree>, x: nat) {
    (o.id == x && x != 0) || exists k :: 0 <= k < |o.fills| && o.fills[k].takerId == x
  }

  lemma {:induction false} OneTaker(q: seq<Resting>, taker: Side, takerId: nat, limit: nat, qty: nat)
    ensures forall f :: f in Match(q, taker, takerId, limit, qty).fills ==> f.takerId == takerId
  {
    if qty != 0 && q != [] && Crosses(taker, limit, q[0].px) && q[0].qty <= qty {
      OneTaker(q[1..], taker, takerId, limit, qty - q[0].qty);
    }
  }

  lemma ReportsCounter(c: Config, t: Tree, side: Side, px: nat, qty: nat, x: nat)
    requires Reports(TreeLimit(c, t, side, px, qty), x)
    ensures x == t.nextId < TreeLimit(c, t, side, px, qty).book.nextId
  {
    hide Match, Enqueue;
    var o := TreeLimit(c, t, side, px, qty);
    OneTaker(t.sides.On(side.Opposite()), side, t.nextId, px, qty);
    if k :| 0 <= k < |o.fills| && o.fills[k].takerId == x {
      assert o.fills[k] in o.fills;
    }
  }

  /** What later calls report is not below the counter now. */
  lemma {:induction false} LaterIds(c: Config, s: Client<Tree>, tape: seq<Op>, j: nat, y: nat)
    requires j < |Outcomes(c, s, tape)| && Reports(Outcomes(c, s, tape)[j], y)
    ensures s.book.nextId <= y
    decreases |tape|
  {
    hide TreeLimit, Reports, Withdraw;
    var s' := Step(TreeEngine(c), s, tape[0]).0;
    CounterGrows(c, s, tape[0]);
    var first := if tape[0].Submit? then 1 else 0;
    if j < first {
      ReportsCounter(c, s.book, tape[0].side, tape[0].px, tape[0].qty, y);
    } else {
      assert Outcomes(c, s, tape)[j] == Outcomes(c, s', tape[1..])[j - first];
      LaterIds(c, s', tape[1..], j - first, y);
    }
  }

  lemma CounterGrows(c: Config, s: Client<Tree>, op: Op)
    ensures s.book.nextId <= Step(TreeEngine(c), s, op).0.book.nextId
  {
    hide Trade, Withdraw, Live;
  }

  /** On any tape, one call reports one id, and a later call a greater one: no id is ever given out twice,
      neither to an order that rests nor to one that was filled at once. */
  lemma {:induction false} IdsAreNew(c: Config, s: Client<Tree>, tape: seq<Op>, i: nat, j: nat, x: nat, y: nat)
    requires i <= j < |Outcomes(c, s, tape)|
    requires Reports(Outcomes(c, s, tape)[i], x) && Reports(Outcomes(c, s, tape)[j], y)
    ensures if i < j then x < y else x == y
    decreases |tape|
  {
    hide TreeLimit, Reports, Withdraw, Live;
    var s' := Step(TreeEngine(c), s, tape[0]).0;
    var first := if tape[0].Submit? then 1 else 0;
    var rest := Outcomes(c, s', tape[1..]);
    if i >= first {
      assert Outcomes(c, s, tape)[i] == rest[i - first] && Outcomes(c, s, tape)[j] == rest[j - first];
      IdsAreNew(c, s', tape[1..], i - first, j - first, x, y);
    } else {
      ReportsCounter(c, s.book, tape[0].side, tape[0].px, tape[0].qty, x);
      if j == 0 {
        ReportsCounter(c, s.book, tape[0].side, tape[0].px, tape[0].qty, y);
      } else {
        assert Outcomes(c, s, tape)[j] == rest[j - 1];
        LaterIds(c, s', tape[1..], j - 1, y);
      }
    }
  }

  /** A call reports an id, the counter's, exactly when its order is accepted. */
  lemma AcceptedReports(c: Config, t: Tree, side: Side, px: nat, qty: nat)
    requires t.nextId >= 1
    ensures qty > 0 && c.minPx <= px <= c.maxPx && |t.sides.bids| + |t.sides.asks| < c.maxOrders
            <==> Reports(TreeLimit(c, t, side, px, qty), t.nextId)
  {
    hide Match, Enqueue;
    TreeLimitAccepts(c, t, side, px, qty);
    OneTaker(t.sides.On(side.Opposite()), side, t.nextId, px, qty);
    var o := TreeLimit(c, t, side, px, qty);
    if o.fills != [] {
      assert o.fills[0] in o.fills;
    }
  }

  // ---------- first come first served ----------

  ghost predicate Rising(ids: seq<nat>, below: nat) {
    && (forall i, j :: 0 <= i < j < |ids| ==> ids[i] < ids[j])
    && (forall i :: 0 <= i < |ids| ==> ids[i] < below)
  }

  /** At every price of a side the ids rise, and all of them were handed out before. */
  ghost predicate Aged(s: seq<Resting>, below: nat) {
    forall p: nat :: Rising(LevelIds(s, p), below)
  }

  ghost predicate Orderly(t: Tree) {
    && Sorted(Buy, t.sides.bids) && Positive(t.sides.bids) && Aged(t.sides.bids, t.nextId)
    && Sorted(Sell, t.sides.asks) && Positive(t.sides.asks) && Aged(t.sides.asks, t.nextId)
  }

  lemma OrderlyOn(t: Tree, side: Side)
    requires Orderly(t)
    ensures Sorted(side, t.sides.On(side)) && Positive(t.sides.On(side)) && Aged(t.sides.On(side), t.nextId)
  {
  }

  lemma TradeSorted(b: Sides, side: Side, px: nat, qty: nat, id: nat)
    requires Sorted(side, b.On(side)) && Positive(b.On(side))
    requires Sorted(side.Opposite(), b.On(side.Opposite())) && Positive(b.On(side.Opposite()))
    ensures var t := Trade(b, side, px, qty, id).sides;
            && Sorted(side, t.On(side)) && Positive(t.On(side))
            && Sorted(side.Opposite(), t.On(side.Opposite())) && Positive(t.On(side.Opposite()))
  {
    hide Match, Enqueue, Sorted;
    var opp := side.Opposite();
    assert opp.Opposite() == side;
    MatchKeepsSide(opp, b.On(opp), id, px, qty);
    var o := Resting(id, px, Match(b.On(opp), side, id, px, qty).remaining);
    EnqueueSorted(side, b.On(side), o);
    EnqueueAt(side, b.On(side), o);
  }

  lemma TradeAged(b: Sides, side: Side, px: nat, qty: nat, id: nat)
    requires Sorted(side, b.On(side))
    requires Aged(b.On(side), id) && Aged(b.On(side.Opposite()), id)
    ensures var t := Trade(b, side, px, qty, id).sides;
            Aged(t.On(side), id + 1) && Aged(t.On(side.Opposite()), id + 1)
  {
    hide Trade, LevelIds, Sorted;
    var t := Trade(b, side, px, qty, id).sides;
    forall p: nat
      ensures Rising(LevelIds(t.On(side), p), id + 1) && Rising(LevelIds(t.On(side.Opposite()), p), id + 1)
    {
      TimePriority(b, side, px, qty, id, p);
      assert Rising(LevelIds(b.On(side), p), id) && Rising(LevelIds(b.On(side.Opposite()), p), id);
    }
  }

  lemma LimitOrderly(c: Config, t: Tree, side: Side, px: nat, qty: nat)
    requires Orderly(t)
    ensures Orderly(TreeLimit(c, t, side, px, qty).book)
  {
    if TreeAccepts(c, t, px, qty) {
      OrderlyOn(t, side);
      OrderlyOn(t, side.Opposite());
      hide Trade, Sorted, Positive, Aged;
      TradeSorted(t.sides, side, px, qty, t.nextId);
      TradeAged(t.sides, side, px, qty, t.nextId);
    }
  }

  lemma RemoveAged(s: seq<Resting>, k: nat, below: nat)
    requires k < |s| && Aged(s, below)
    ensures Aged(Remove(s, k), below)
  {
    hide LevelIds, Remove;
    forall p: nat
      ensures Rising(LevelIds(Remove(s, k), p), below)
    {
      RemoveAtPrice(s, k, p);
      var a, b := LevelIds(s[..k], p), LevelIds(s[k + 1..], p);
      var mid := if s[k].px == p then [s[k].id] else [];
      var ids := LevelIds(s, p);
      assert Rising(ids, below);
      assert forall i :: 0 <= i < |a + b| ==> (a + b)[i] == ids[if i < |a| then i else i + |mid|];
    }
  }

  lemma CancelOrderly(t: Tree, id: nat)
    requires Orderly(t)
    ensures Orderly(TreeCancel(t, id))
  {
    hide Sorted, Aged, IndexOf, Remove;
    forall side: Side, k | 0 <= k < |t.sides.On(side)|
      ensures var r := Remove(t.sides.On(side), k); Sorted(side, r) && Positive(r) && Aged(r, t.nextId)
    {
      OrderlyOn(t, side);
      RemoveSorted(side, t.sides.On(side), k);
      RemoveAged(t.sides.On(side), k, t.nextId);
      RemoveAt(t.sides.On(side), k);
    }
    assert t.sides.On(Buy) == t.sides.bids && t.sides.On(Sell) == t.sides.asks;
  }

  lemma StepOrderly(c: Config, s: Client<Tree>, op: Op)
    requires Orderly(s.book)
    ensures Orderly(Step(TreeEngine(c), s, op).0.book)
  {
    hide Orderly, TreeLimit, TreeCancel, Live;
    match op
    case Submit(side, px, qty) => LimitOrderly(c, s.book, side, px, qty);
    case Withdrawal(h) =>
      if h < |s.handles| {
        CancelOrderly(s.book, s.handles[h]);
      }
  }

  lemma {:induction false} RunOrderly(c: Config, s: Client<Tree>, tape: seq<Op>)
    requires Orderly(s.book)
    ensures Orderly(Run(TreeEngine(c), s, tape).0.book)
    decreases |tape|
  {
    RunUnfold(TreeEngine(c), s, tape);
    hide Orderly, Run;
    if tape != [] {
      StepOrderly(c, s, tape[0]);
      RunOrderly(c, Step(TreeEngine(c), s, tape[0]).0, tape[1..]);
    }
  }

  /** After any tape on a new book, at every price the orders stand in the order in which they came. */
  lemma FirstComeFirst(c: Config, tape: seq<Op>, side: Side, p: nat)
    ensures var t := Run(TreeEngine(c), Client(Tree(Sides([], []), 1), []), tape).0.book;
            var ids := LevelIds(t.sides.On(side), p);
            && (forall i, j :: 0 <= i < j < |ids| ==> ids[i] < ids[j])
            && (forall i, j :: 0 <= i < j < |t.sides.On(side)| ==>
                  if side == Buy then t.sides.On(side)[i].px >= t.sides.On(side)[j].px
                  else t.sides.On(side)[i].px <= t.sides.On(side)[j].px)
  {
    hide Run;
    var start := Tree(Sides([], []), 1);
    assert Orderly(start);
    RunOrderly(c, Client(start, []), tape);
    var t := Run(TreeEngine(c), Client(start, []), tape).0.book;
    OrderlyOn(t, side);
    assert Rising(LevelIds(t.sides.On(side), p), t.nextId);
  }

  // ---------- the first handles ----------

  /** Orders that cannot meet anybody on a new book. */
  predicate Bids(c: Config, tape: seq<Op>) {
    forall i :: 0 <= i < |tape| ==>
      tape[i].Submit? && tape[i].side == Buy && tape[i].qty > 0 && c.minPx <= tape[i].px <= c.maxPx
  }

  /** i + 1, i + 2, ... */
  function CountUp(i: nat, n: nat): (r: seq<nat>)
    ensures |r| == n && forall k :: 0 <= k < n ==> r[k] == i + k + 1
  {
    seq(n, k requires 0 <= k < n => i + k + 1)
  }

  lemma BidRests(b: Sides, px: nat, qty: nat, id: nat)
    requires b.asks == []
    ensures var t := Trade(b, Buy, px, qty, id);
            t.fills == [] && t.remaining == qty && t.sides.asks == [] && Freed(b.asks, Buy, id, px, qty) == []
    ensures qty > 0 ==> |Trade(b, Buy, px, qty, id).sides.bids| == |b.bids| + 1
  {
    EnqueueAt(Buy, b.bids, Resting(id, px, qty));
  }

  lemma LadderBid(c: Config, s: Client<Ladder>, op: Op, i: nat)
    requires Bids(c, [op]) && i < c.maxOrders
    requires s.book.sides.asks == [] && s.book.stack == Countdown(c.maxOrders)[..c.maxOrders - i]
    ensures var s' := Step(LadderEngine(c), s, op).0;
            && s'.book.sides.asks == [] && s'.book.stack == Countdown(c.maxOrders)[..c.maxOrders - i - 1]
            && s'.handles == s.handles + [i + 1]
  {
    hide Trade, Freed;
    assert [op][0] == op;
    var stack := s.book.stack;
    var n := |stack| - 1;
    BidRests(s.book.sides, op.px, op.qty, stack[n]);
    assert stack[n] == i + 1 && stack[..n] + [] == Countdown(c.maxOrders)[..c.maxOrders - i - 1];
  }

  lemma {:induction false} LadderCountsUp(c: Config, s: Client<Ladder>, tape: seq<Op>, i: nat)
    requires Bids(c, tape) && i + |tape| <= c.maxOrders
    requires s.book.sides.asks == [] && s.book.stack == Countdown(c.maxOrders)[..c.maxOrders - i]
    ensures Run(LadderEngine(c), s, tape).0.handles == s.handles + CountUp(i, |tape|)
    decreases |tape|
  {
    RunUnfold(LadderEngine(c), s, tape);
    hide Step, Run, Countdown, LadderEngine;
    if tape == [] {
      assert s.handles + CountUp(i, 0) == s.handles;
    } else {
      LadderBid(c, s, tape[0], i);
      LadderCountsUp(c, Step(LadderEngine(c), s, tape[0]).0, tape[1..], i + 1);
      assert s.handles + [i + 1] + CountUp(i + 1, |tape| - 1) == s.handles + CountUp(i, |tape|);
    }
  }

  lemma TreeBid(c: Config, s: Client<Tree>, op: Op, i: nat)
    requires Bids(c, [op]) && i < c.maxOrders
    requires s.book.sides.asks == [] && |s.book.sides.bids| == i && s.book.nextId == i + 1
    ensures var s' := Step(TreeEngine(c), s, op).0;
            && s'.book.sides.asks == [] && |s'.book.sides.bids| == i + 1 && s'.book.nextId == i + 2
            && s'.handles == s.handles + [i + 1]
  {
    hide Trade;
    assert [op][0] == op;
    BidRests(s.book.sides, op.px, op.qty, s.book.nextId);
  }

  lemma {:induction false} TreeCountsUp(c: Config, s: Client<Tree>, tape: seq<Op>, i: nat)
    requires Bids(c, tape) && i + |tape| <= c.maxOrders
    requires s.book.sides.asks == [] && |s.book.sides.bids| == i && s.book.nextId == i + 1
    ensures Run(TreeEngine(c), s, tape).0.handles == s.handles + CountUp(i, |tape|)
    decreases |tape|
  {
    RunUnfold(TreeEngine(c), s, tape);
    hide Step, Run, TreeEngine;
    if tape == [] {
      assert s.handles + CountUp(i, 0) == s.handles;
    } else {
      TreeBid(c, s, tape[0], i);
      TreeCountsUp(c, Step(TreeEngine(c), s, tape[0]).0, tape[1..], i + 1);
      assert s.handles + [i + 1] + CountUp(i + 1, |tape| - 1) == s.handles + CountUp(i, |tape|);
    }
  }

  /** On a new book of either kind the orders that rest first get the ids 1, 2, 3, ... */
  lemma FirstHandles(c: Config, tape: seq<Op>)
    requires Bids(c, tape) && |tape| <= c.maxOrders
    ensures Run(LadderEngine(c), Client(Ladder(Sides([], []), Countdown(c.maxOrders)), []), tape).0.handles
            == CountUp(0, |tape|)
    ensures Run(TreeEngine(c), Client(Tree(Sides([], []), 1), []), tape).0.handles == CountUp(0, |tape|)
  {
    hide Run;
    LadderCountsUp(c, Client(Ladder(Sides([], []), Countdown(c.maxOrders)), []), tape, 0);
    TreeCountsUp(c, Client(Tree(Sides([], []), 1), []), tape, 0);
    assert [] + CountUp(0, |tape|) == CountUp(0, |tape|);
  }
}
