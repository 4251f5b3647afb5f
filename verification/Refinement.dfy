/**
 The two books are interchangeable. Two books have the same shape when they hold the same prices
 and quantities in the same order; the orders in the same place correspond, and that is the
 renaming of ids.
 */
module Refinement {
  import opened LobTypes
  import opened PriceTime
  import opened Trading
  import opened SlotLaws
  import opened Clients

  ghost predicate Alike(a: seq<Resting>, b: seq<Resting>) {
    |a| == |b| && forall k :: 0 <= k < |a| ==> a[k].px == b[k].px && a[k].qty == b[k].qty
  }

  ghost predicate SameShape(a: Sides, b: Sides) {
    Alike(a.bids, b.bids) && Alike(a.asks, b.asks)
  }

  /** x in book a and y in book b name the order in the same place. */
  predicate InPlace(a: Sides, b: Sides, side: Side, k: nat, x: nat, y: nat) {
    k < |a.On(side)| && k < |b.On(side)| && a.On(side)[k].id == x && b.On(side)[k].id == y
  }

  // ---------- queries see only the shape ----------

  lemma {:induction false} AlikeTotals(a: seq<Resting>, b: seq<Resting>, px: nat)
    requires Alike(a, b)
    ensures TotalAt(a, px) == TotalAt(b, px)
  {
    if a != [] {
      AlikeTotals(a[1..], b[1..], px);
    }
  }

  /** best_bid, best_ask, live_orders and qty_at at every price. */
  lemma SameShapeSameQueries(a: Sides, b: Sides)
    requires SameShape(a, b)
    ensures BestOf(a.bids) == BestOf(b.bids) && BestOf(a.asks) == BestOf(b.asks)
    ensures |a.bids| == |b.bids| && |a.asks| == |b.asks|
    ensures forall side: Side, px :: TotalAt(a.On(side), px) == TotalAt(b.On(side), px)
  {
    forall side: Side, px
      ensures TotalAt(a.On(side), px) == TotalAt(b.On(side), px)
    {
      AlikeTotals(a.On(side), b.On(side), px);
    }
  }

  // ---------- matching and resting respect the shape ----------

  /** Fill by fill: same price and quantity, makers in the same place, each with its own taker id. */
  ghost predicate SameFills(q1: seq<Resting>, q2: seq<Resting>, f1: seq<Exec>, f2: seq<Exec>, id1: nat, id2: nat) {
    && |f1| == |f2| <= |q1| && |f1| <= |q2|
    && forall i :: 0 <= i < |f1| ==> SameFill(q1[i], q2[i], f1[i], f2[i], id1, id2)
  }

  predicate SameFill(r1: Resting, r2: Resting, f1: Exec, f2: Exec, id1: nat, id2: nat) {
    && f1.px == f2.px && f1.qty == f2.qty
    && f1.makerId == r1.id && f2.makerId == r2.id
    && f1.takerId == id1 && f2.takerId == id2
  }

  /** The two ways a match ends: without a fill, or inside the first maker. */
  lemma AlikeEnds(q1: seq<Resting>, q2: seq<Resting>, qty: nat, id1: nat, id2: nat)
    requires Alike(q1, q2)
    ensures SameFills(q1, q2, [], [], id1, id2)
    ensures q1 != [] && qty < q1[0].qty ==>
              && SameFills(q1, q2, [Exec(q1[0].id, id1, q1[0].px, qty)], [Exec(q2[0].id, id2, q2[0].px, qty)], id1, id2)
              && Alike([q1[0].(qty := q1[0].qty - qty)] + q1[1..], [q2[0].(qty := q2[0].qty - qty)] + q2[1..])
  {
    if q1 != [] && qty < q1[0].qty {
      var l1 := [q1[0].(qty := q1[0].qty - qty)] + q1[1..];
      var l2 := [q2[0].(qty := q2[0].qty - qty)] + q2[1..];
      assert forall k :: 1 <= k < |l1| ==> l1[k] == q1[k] && l2[k] == q2[k];
    }
  }

  lemma {:induction false} AlikeMatch(q1: seq<Resting>, q2: seq<Resting>, taker: Side, id1: nat, id2: nat, limit: nat,
                                      qty: nat)
    requires Alike(q1, q2)
    ensures var m1, m2 := Match(q1, taker, id1, limit, qty), Match(q2, taker, id2, limit, qty);
            SameFills(q1, q2, m1.fills, m2.fills, id1, id2) && Alike(m1.left, m2.left) && m1.remaining == m2.remaining
  {
    hide Match, SameFills, SameFill;
    MatchUnfold(q1, taker, id1, limit, qty);
    MatchUnfold(q2, taker, id2, limit, qty);
    AlikeEnds(q1, q2, qty, id1, id2);
    if qty == 0 || q1 == [] || !Crosses(taker, limit, q1[0].px) {
    } else if q1[0].qty <= qty {
      AlikeMatch(q1[1..], q2[1..], taker, id1, id2, limit, qty - q1[0].qty);
      var t1 := Match(q1[1..], taker, id1, limit, qty - q1[0].qty);
      var t2 := Match(q2[1..], taker, id2, limit, qty - q1[0].qty);
      SameFillsCons(q1, q2, t1.fills, t2.fills, id1, id2);
    }
  }

  lemma SameFillsCons(q1: seq<Resting>, q2: seq<Resting>, f1: seq<Exec>, f2: seq<Exec>, id1: nat, id2: nat)
    requires q1 != [] && q2 != [] && q1[0].px == q2[0].px && q1[0].qty == q2[0].qty
    requires SameFills(q1[1..], q2[1..], f1, f2, id1, id2)
    ensures SameFills(q1, q2, [Exec(q1[0].id, id1, q1[0].px, q1[0].qty)] + f1,
                      [Exec(q2[0].id, id2, q2[0].px, q2[0].qty)] + f2, id1, id2)
  {
    var g1 := [Exec(q1[0].id, id1, q1[0].px, q1[0].qty)] + f1;
    var g2 := [Exec(q2[0].id, id2, q2[0].px, q2[0].qty)] + f2;
    forall i | 0 <= i < |g1|
      ensures SameFill(q1[i], q2[i], g1[i], g2[i], id1, id2)
    {
      if i > 0 {
        assert SameFill(q1[1..][i - 1], q2[1..][i - 1], f1[i - 1], f2[i - 1], id1, id2);
      }
    }
  }

  lemma {:induction false} AlikeSlot(side: Side, a: seq<Resting>, b: seq<Resting>, px: nat)
    requires Alike(a, b)
    ensures Slot(side, a, px) == Slot(side, b, px)
  {
    if a != [] && !Ahead(side, px, a[0].px) {
      AlikeSlot(side, a[1..], b[1..], px);
    }
  }

  lemma AlikeEnqueue(side: Side, a: seq<Resting>, b: seq<Resting>, o1: Resting, o2: Resting)
    requires Alike(a, b) && o1.px == o2.px && o1.qty == o2.qty
    ensures Alike(Enqueue(side, a, o1), Enqueue(side, b, o2))
  {
    hide Slot, Enqueue;
    AlikeSlot(side, a, b, o1.px);
    EnqueueAt(side, a, o1);
    EnqueueAt(side, b, o2);
  }

  lemma AlikeRemove(a: seq<Resting>, b: seq<Resting>, k: nat)
    requires Alike(a, b) && k < |a|
    ensures Alike(Remove(a, k), Remove(b, k))
  {
    assert forall i :: 0 <= i < |a| - 1 ==> Remove(a, k)[i] == a[if i < k then i else i + 1];
    assert forall i :: 0 <= i < |b| - 1 ==> Remove(b, k)[i] == b[if i < k then i else i + 1];
  }

  /** One limit order against two books of one shape. */
  lemma SameTrade(a: Sides, b: Sides, side: Side, px: nat, qty: nat, id1: nat, id2: nat)
    requires SameShape(a, b)
    ensures var t1, t2 := Trade(a, side, px, qty, id1), Trade(b, side, px, qty, id2);
            && SameShape(t1.sides, t2.sides) && t1.remaining == t2.remaining
            && SameFills(a.On(side.Opposite()), b.On(side.Opposite()), t1.fills, t2.fills, id1, id2)
  {
    hide Match, Enqueue;
    var q1, q2 := a.On(side.Opposite()), b.On(side.Opposite());
    AlikeMatch(q1, q2, side, id1, id2, px, qty);
    var m1, m2 := Match(q1, side, id1, px, qty), Match(q2, side, id2, px, qty);
    AlikeEnqueue(side, a.On(side), b.On(side), Resting(id1, px, m1.remaining), Resting(id2, px, m1.remaining));
  }

  // ---------- slots over a limit order ----------

  lemma FreedUnfold(q: seq<Resting>, taker: Side, takerId: nat, limit: nat, qty: nat)
    ensures Freed(q, taker, takerId, limit, qty) ==
            if qty == 0 || q == [] || !Crosses(taker, limit, q[0].px) || q[0].qty > qty then []
            else [q[0].id] + Freed(q[1..], taker, takerId, limit, qty - q[0].qty)
  {
  }

  lemma {:induction false} MatchSlots(c: Config, b: Sides, stack: seq<nat>, opp: Side, takerId: nat, limit: nat,
                                      qty: nat)
    requires Slots(c, b, stack, [takerId])
    ensures var m := Match(b.On(opp), opp.Opposite(), takerId, limit, qty);
            Slots(c, b.With(opp, m.left), stack + Freed(b.On(opp), opp.Opposite(), takerId, limit, qty), [takerId])
    decreases |b.On(opp)|
  {
    hide Slots, Match, Freed;
    var q := b.On(opp);
    MatchUnfold(q, opp.Opposite(), takerId, limit, qty);
    FreedUnfold(q, opp.Opposite(), takerId, limit, qty);
    if qty == 0 || q == [] || !Crosses(opp.Opposite(), limit, q[0].px) {
      assert b.With(opp, q) == b && stack + [] == stack;
    } else if q[0].qty <= qty {
      SlotsRemove(c, b, stack, [takerId], opp, 0);
      assert Remove(q, 0) == q[1..];
      var b1 := b.With(opp, q[1..]);
      SlotsRelease(c, b1, stack, [takerId], q[0].id);
      MatchSlots(c, b1, stack + [q[0].id], opp, takerId, limit, qty - q[0].qty);
      var rest := Freed(q[1..], opp.Opposite(), takerId, limit, qty - q[0].qty);
      assert stack + ([q[0].id] + rest) == stack + [q[0].id] + rest;
    } else {
      SlotsReduce(c, b, stack, [takerId], opp, 0, q[0].qty - qty);
      assert [q[0].(qty := q[0].qty - qty)] + q[1..] == q[0 := q[0].(qty := q[0].qty - qty)];
      assert stack + [] == stack;
    }
  }

  /** The slots stay a partition through every limit and every cancel. */
  lemma LimitKeepsSlots(c: Config, l: Ladder, side: Side, px: nat, qty: nat)
    requires Slots(c, l.sides, l.stack, [])
    ensures var r := LadderLimit(c, l, side, px, qty).book; Slots(c, r.sides, r.stack, [])
  {
    if LadderAccepts(c, l, px, qty) {
      var n := |l.stack| - 1;
      var id := l.stack[n];
      var opp := side.Opposite();
      SlotsAcquire(c, l.sides, l.stack);
      assert opp.Opposite() == side;
      MatchSlots(c, l.sides, l.stack[..n], opp, id, px, qty);
      var m := Match(l.sides.On(opp), side, id, px, qty);
      var stack := l.stack[..n] + Freed(l.sides.On(opp), side, id, px, qty);
      var b := l.sides.With(opp, m.left);
      if m.remaining == 0 {
        assert [] + [id] == [id];
        SlotsRelease(c, b, stack, [], id);
      } else {
        SlotsEnqueue(c, b, stack, side, Resting(id, px, m.remaining));
      }
    }
  }

  lemma CancelKeepsSlots(c: Config, l: Ladder, id: nat)
    requires Slots(c, l.sides, l.stack, [])
    ensures var r := LadderCancel(l, id); Slots(c, r.sides, r.stack, [])
  {
    if Live(l.sides, id) {
      var side := if Rests(l.sides.bids, id) then Buy else Sell;
      SlotsRemove(c, l.sides, l.stack, [], side, IndexOf(l.sides.On(side), id));
      SlotsRelease(c, Withdraw(l.sides, id), l.stack, [], id);
      assert [] + [id] == [id];
    }
  }

  // ---------- handles ----------

  /** Index i is where x was handed out last. */
  ghost predicate LastAt(handles: seq<nat>, i: nat, x: nat) {
    i < |handles| && handles[i] == x && forall j :: i < j < |handles| ==> handles[j] != x
  }

  /** Both clients' i-th handles name the order in place (side, k), and the ladder client did not
      get that slot again later. */
  ghost predicate NamedBy(s1: Client<Ladder>, s2: Client<Tree>, side: Side, k: nat, i: nat) {
    && k < |s1.book.sides.On(side)| && k < |s2.book.sides.On(side)| && i < |s2.handles|
    && LastAt(s1.handles, i, s1.book.sides.On(side)[k].id) && s2.handles[i] == s2.book.sides.On(side)[k].id
  }

  ghost predicate Named(s1: Client<Ladder>, s2: Client<Tree>, side: Side, k: nat) {
    exists i: nat :: NamedBy(s1, s2, side, k, i)
  }

  /** The two clients are in step. */
  ghost predicate Tracked(c: Config, s1: Client<Ladder>, s2: Client<Tree>) {
    && SameShape(s1.book.sides, s2.book.sides)
    && Slots(c, s1.book.sides, s1.book.stack, [])
    && HandlesOk(s1, s2)
    && AllNamed(s1, s2)
  }

  ghost predicate HandlesOk(s1: Client<Ladder>, s2: Client<Tree>) {
    && s2.book.nextId >= 1
    && |s1.handles| == |s2.handles|
    && (forall i, j :: 0 <= i < j < |s2.handles| ==> s2.handles[i] < s2.handles[j])
    && (forall i :: 0 <= i < |s2.handles| ==> s2.handles[i] < s2.book.nextId)
  }

  ghost predicate AllNamed(s1: Client<Ladder>, s2: Client<Tree>) {
    forall side: Side, k: nat :: k < |s1.book.sides.On(side)| ==> Named(s1, s2, side, k)
  }

  /** Cancelling the h-th handle is safe unless its slot is live again under a later handle. */
  ghost predicate Safe(s: Client<Ladder>, h: nat) {
    h < |s.handles| && Live(s.book.sides, s.handles[h]) ==> LastAt(s.handles, h, s.handles[h])
  }

  ghost predicate SafeOp(s: Client<Ladder>, op: Op) {
    op.Withdrawal? ==> Safe(s, op.handle)
  }

  // ---------- one cancel ----------

  /** The handle's order is in the same place of both books, or in neither. */
  lemma HandlePlaces(c: Config, s1: Client<Ladder>, s2: Client<Tree>, h: nat, side: Side)
    requires Tracked(c, s1, s2) && h < |s1.handles| && Safe(s1, h)
    ensures Rests(s1.book.sides.On(side), s1.handles[h]) <==> Rests(s2.book.sides.On(side), s2.handles[h])
    ensures Rests(s1.book.sides.On(side), s1.handles[h]) ==>
              IndexOf(s1.book.sides.On(side), s1.handles[h]) == IndexOf(s2.book.sides.On(side), s2.handles[h])
  {
    var a, b := s1.book.sides.On(side), s2.book.sides.On(side);
    var k1, k2 := IndexOf(a, s1.handles[h]), IndexOf(b, s2.handles[h]);
    if k1 < |a| {
      assert Named(s1, s2, side, k1);
      var i: nat :| NamedBy(s1, s2, side, k1, i);
      assert i == h;
    }
    if k2 < |b| {
      assert Named(s1, s2, side, k2);
      var i: nat :| NamedBy(s1, s2, side, k2, i);
      assert i == h;
    }
  }

  /** A live slot under an older handle: the ladder cancels somebody else's order, the tree does
      nothing. */
  lemma UnsafeDiffers(c: Config, s1: Client<Ladder>, s2: Client<Tree>, h: nat)
    requires Tracked(c, s1, s2) && h < |s1.handles| && !Safe(s1, h)
    ensures Live(s1.book.sides, s1.handles[h]) && !Live(s2.book.sides, s2.handles[h])
  {
    if Live(s2.book.sides, s2.handles[h]) {
      var side := if Rests(s2.book.sides.bids, s2.handles[h]) then Buy else Sell;
      var k := IndexOf(s2.book.sides.On(side), s2.handles[h]);
      assert Named(s1, s2, side, k);
      var i: nat :| NamedBy(s1, s2, side, k, i);
      assert false;
    }
  }

  /** A handle's cancel answers alike in both books exactly when it is safe. */
  lemma CancelAnswers(c: Config, s1: Client<Ladder>, s2: Client<Tree>, h: nat)
    requires Tracked(c, s1, s2) && h < |s1.handles|
    ensures Safe(s1, h) <==> (Live(s1.book.sides, s1.handles[h]) <==> Live(s2.book.sides, s2.handles[h]))
  {
    if Safe(s1, h) {
      HandlePlaces(c, s1, s2, h, Buy);
      HandlePlaces(c, s1, s2, h, Sell);
    } else {
      UnsafeDiffers(c, s1, s2, h);
    }
  }

  lemma CancelTracked(c: Config, s1: Client<Ladder>, s2: Client<Tree>, h: nat)
    requires Tracked(c, s1, s2) && h < |s1.handles| && Safe(s1, h)
    ensures var s1' := s1.(book := LadderCancel(s1.book, s1.handles[h]));
            var s2' := s2.(book := TreeCancel(s2.book, s2.handles[h]));
            && Tracked(c, s1', s2')
            && (h == |s1.handles| - 1 ==> Tracked(c, Popped(s1'), Popped(s2')))
  {
    hide Tracked, Live, LadderCancel, TreeCancel, Popped, Safe, Slots;
    CancelKeepsTracked(c, s1, s2, h);
    TrackedParts(c, s1, s2);
    GoneAfterCancel(c, s1.book, s1.handles[h]);
    if h == |s1.handles| - 1 {
      var s1' := s1.(book := LadderCancel(s1.book, s1.handles[h]));
      PopTracked(c, s1', s2.(book := TreeCancel(s2.book, s2.handles[h])));
    }
  }

  lemma CancelKeepsTracked(c: Config, s1: Client<Ladder>, s2: Client<Tree>, h: nat)
    requires Tracked(c, s1, s2) && h < |s1.handles| && Safe(s1, h)
    ensures Tracked(c, s1.(book := LadderCancel(s1.book, s1.handles[h])),
                    s2.(book := TreeCancel(s2.book, s2.handles[h])))
  {
    hide Slots, Remove, IndexOf, Named, Safe;
    var x, y := s1.handles[h], s2.handles[h];
    var s1', s2' := s1.(book := LadderCancel(s1.book, x)), s2.(book := TreeCancel(s2.book, y));
    HandlePlaces(c, s1, s2, h, Buy);
    HandlePlaces(c, s1, s2, h, Sell);
    CancelKeepsSlots(c, s1.book, x);
    if Live(s1.book.sides, x) {
      var side := if Rests(s1.book.sides.bids, x) then Buy else Sell;
      var k := IndexOf(s1.book.sides.On(side), x);
      AlikeRemove(s1.book.sides.On(side), s2.book.sides.On(side), k);
      RemovedNamed(s1, s2, s1', s2', side, k);
    }
  }

  /** A slot that was cancelled rests nowhere. */
  lemma GoneAfterCancel(c: Config, l: Ladder, x: nat)
    requires Slots(c, l.sides, l.stack, [])
    ensures !Live(LadderCancel(l, x).sides, x)
  {
    hide Slots, IndexOf, Remove;
    if Live(l.sides, x) {
      var side := if Rests(l.sides.bids, x) then Buy else Sell;
      var k := IndexOf(l.sides.On(side), x);
      SlotAt(c, l.sides, l.stack, [], side, k);
      RemoveAt(l.sides.On(side), k);
      RestsIffId(l.sides.On(side.Opposite()), x);
    }
  }

  /** The newest handle can be forgotten once nobody rests under it. */
  lemma PopTracked(c: Config, s1: Client<Ladder>, s2: Client<Tree>)
    requires Tracked(c, s1, s2) && s1.handles != [] && !Live(s1.book.sides, s1.handles[|s1.handles| - 1])
    ensures s2.handles != [] && Tracked(c, Popped(s1), Popped(s2))
  {
    hide Slots, SameShape, IndexOf;
    var x := s1.handles[|s1.handles| - 1];
    RestsIffId(s1.book.sides.bids, x);
    RestsIffId(s1.book.sides.asks, x);
    forall sd: Side, j: nat | j < |s1.book.sides.On(sd)|
      ensures Named(Popped(s1), Popped(s2), sd, j)
    {
      assert Named(s1, s2, sd, j);
      var i: nat :| NamedBy(s1, s2, sd, j, i);
      assert Ids(s1.book.sides.On(sd))[j] == s1.book.sides.On(sd)[j].id;
      assert NamedBy(Popped(s1), Popped(s2), sd, j, i);
    }
  }

  lemma RemovedNamed(s1: Client<Ladder>, s2: Client<Tree>, s1': Client<Ladder>, s2': Client<Tree>, side: Side, k: nat)
    requires AllNamed(s1, s2) && SameShape(s1.book.sides, s2.book.sides) && k < |s1.book.sides.On(side)|
    requires s1'.handles == s1.handles && s2'.handles == s2.handles
    requires s1'.book.sides == s1.book.sides.With(side, Remove(s1.book.sides.On(side), k))
    requires s2'.book.sides == s2.book.sides.With(side, Remove(s2.book.sides.On(side), k))
    ensures AllNamed(s1', s2')
  {
    forall sd: Side, j: nat | j < |s1'.book.sides.On(sd)|
      ensures Named(s1', s2', sd, j)
    {
      var at := if sd == side && j >= k then j + 1 else j;
      assert Named(s1, s2, sd, at);
      var i: nat :| NamedBy(s1, s2, sd, at, i);
      assert NamedBy(s1', s2', sd, j, i);
    }
  }

  // ---------- one limit ----------

  /** What both books report for one limit order: the same fills up to the renaming of makers and
      taker, and both rest a remainder or neither does. */
  ghost predicate SameOutcome(b1: Sides, b2: Sides, side: Side, r1: Outcome<Ladder>, r2: Outcome<Tree>) {
    && (exists id1: nat, id2: nat ::
          && SameFills(b1.On(side.Opposite()), b2.On(side.Opposite()), r1.fills, r2.fills, id1, id2)
          && (r1.id != INVALID_ID ==> r1.id == id1 && r2.id == id2))
    && (r1.id == INVALID_ID <==> r2.id == INVALID_ID)
    && SameShape(r1.book.sides, r2.book.sides)
  }

  lemma SameLimit(c: Config, l: Ladder, t: Tree, side: Side, px: nat, qty: nat)
    requires SameShape(l.sides, t.sides) && Slots(c, l.sides, l.stack, []) && t.nextId >= 1
    ensures SameOutcome(l.sides, t.sides, side, LadderLimit(c, l, side, px, qty), TreeLimit(c, t, side, px, qty))
    ensures Prints(LadderLimit(c, l, side, px, qty).fills) == Prints(TreeLimit(c, t, side, px, qty).fills)
  {
    hide Trade, Freed, SameShape;
    SameShapeSameQueries(l.sides, t.sides);
    var r1, r2 := LadderLimit(c, l, side, px, qty), TreeLimit(c, t, side, px, qty);
    var q1, q2 := l.sides.On(side.Opposite()), t.sides.On(side.Opposite());
    var id1 := if l.stack == [] then 0 else l.stack[|l.stack| - 1];
    var id2 := t.nextId;
    if LadderAccepts(c, l, px, qty) {
      StackAt(c, l.sides, l.stack, [], |l.stack| - 1);
      SameTrade(l.sides, t.sides, side, px, qty, id1, id2);
    }
    assert SameFills(q1, q2, r1.fills, r2.fills, id1, id2);
    SamePrints(q1, q2, r1.fills, r2.fills, id1, id2);
  }

  lemma SamePrints(q1: seq<Resting>, q2: seq<Resting>, f1: seq<Exec>, f2: seq<Exec>, id1: nat, id2: nat)
    requires SameFills(q1, q2, f1, f2, id1, id2)
    ensures Prints(f1) == Prints(f2)
  {
    forall i | 0 <= i < |f1|
      ensures Prints(f1)[i] == Prints(f2)[i]
    {
      assert SameFill(q1[i], q2[i], f1[i], f2[i], id1, id2);
    }
  }

  /** Who rests after a trade: survivors from before, and the newcomer if it has a remainder. */
  lemma TradeSources(a: Sides, b: Sides, side: Side, px: nat, qty: nat, id1: nat, id2: nat, sd: Side, k: nat)
    requires SameShape(a, b)
    requires var t1 := Trade(a, side, px, qty, id1).sides; k < |t1.On(sd)|
    ensures var t1, t2 := Trade(a, side, px, qty, id1), Trade(b, side, px, qty, id2);
            && k < |t2.sides.On(sd)|
            && ((InPlace(t1.sides, t2.sides, sd, k, id1, id2) && t1.remaining > 0)
                || exists j: nat :: SamePlace(a, b, t1.sides, t2.sides, sd, j, k))
  {
    if sd == side {
      OwnSide(a, b, side, px, qty, id1, id2, k);
    } else {
      OtherSide(a, b, side, px, qty, id1, id2, k);
    }
  }

  lemma OwnSide(a: Sides, b: Sides, side: Side, px: nat, qty: nat, id1: nat, id2: nat, k: nat)
    requires SameShape(a, b)
    requires k < |Trade(a, side, px, qty, id1).sides.On(side)|
    ensures var t1, t2 := Trade(a, side, px, qty, id1), Trade(b, side, px, qty, id2);
            && k < |t2.sides.On(side)|
            && ((InPlace(t1.sides, t2.sides, side, k, id1, id2) && t1.remaining > 0)
                || exists j: nat :: SamePlace(a, b, t1.sides, t2.sides, side, j, k))
  {
    hide Match, Enqueue, Slot;
    SameTrade(a, b, side, px, qty, id1, id2);
    var t1, t2 := Trade(a, side, px, qty, id1), Trade(b, side, px, qty, id2);
    OwnSources(a.On(side), b.On(side), side, px, t1.remaining, id1, id2, k);
    var slot := Slot(side, a.On(side), px);
    if t1.remaining == 0 || k < slot {
      assert SamePlace(a, b, t1.sides, t2.sides, side, k, k);
    } else if k > slot {
      assert SamePlace(a, b, t1.sides, t2.sides, side, k - 1, k);
    }
  }

  lemma OtherSide(a: Sides, b: Sides, side: Side, px: nat, qty: nat, id1: nat, id2: nat, k: nat)
    requires SameShape(a, b)
    requires k < |Trade(a, side, px, qty, id1).sides.On(side.Opposite())|
    ensures var t1, t2 := Trade(a, side, px, qty, id1), Trade(b, side, px, qty, id2);
            exists j: nat :: SamePlace(a, b, t1.sides, t2.sides, side.Opposite(), j, k)
  {
    hide Match, Trade, Ids;
    var sd := side.Opposite();
    TradeOther(a, side, px, qty, id1);
    TradeOther(b, side, px, qty, id2);
    var q1, q2 := a.On(sd), b.On(sd);
    AlikeMatch(q1, q2, side, id1, id2, px, qty);
    MatchSuffix(q1, side, id1, px, qty);
    MatchSuffix(q2, side, id2, px, qty);
    var l1, l2 := Match(q1, side, id1, px, qty).left, Match(q2, side, id2, px, qty).left;
    var t1, t2 := Trade(a, side, px, qty, id1).sides, Trade(b, side, px, qty, id2).sides;
    assert t1.On(sd) == l1 && t2.On(sd) == l2;
    assert l1[k].id == q1[k + |q1| - |l1|].id && l2[k].id == q2[k + |q2| - |l2|].id;
    assert SamePlace(a, b, t1, t2, sd, k + |q1| - |l1|, k);
  }

  lemma TradeOther(a: Sides, side: Side, px: nat, qty: nat, id: nat)
    ensures Trade(a, side, px, qty, id).sides.On(side.Opposite())
            == Match(a.On(side.Opposite()), side, id, px, qty).left
  {
  }

  /** Place k of the new books holds what place j held in the old ones. */
  ghost predicate SamePlace(a: Sides, b: Sides, a': Sides, b': Sides, sd: Side, j: nat, k: nat) {
    && j < |a.On(sd)| && j < |b.On(sd)| && k < |a'.On(sd)| && k < |b'.On(sd)|
    && a'.On(sd)[k].id == a.On(sd)[j].id && b'.On(sd)[k].id == b.On(sd)[j].id
  }

  lemma OwnSources(a: seq<Resting>, b: seq<Resting>, side: Side, px: nat, rem: nat, id1: nat, id2: nat, k: nat)
    requires Alike(a, b)
    ensures rem > 0 ==>
              var e1, e2 := Enqueue(side, a, Resting(id1, px, rem)), Enqueue(side, b, Resting(id2, px, rem));
              var s := Slot(side, a, px);
              && |e1| == |e2| == |a| + 1 && s <= |a|
              && (k == s ==> e1[k].id == id1 && e2[k].id == id2)
              && (k < s ==> e1[k] == a[k] && e2[k] == b[k])
              && (s < k <= |a| ==> e1[k] == a[k - 1] && e2[k] == b[k - 1])
  {
    AlikeSlot(side, a, b, px);
  }

  /** left's ids are the last ids of q. */
  ghost predicate Suffix(left: seq<Resting>, q: seq<Resting>) {
    |left| <= |q| && forall k :: 0 <= k < |left| ==> left[k].id == q[k + |q| - |left|].id
  }

  lemma {:induction false} MatchSuffix(q: seq<Resting>, taker: Side, takerId: nat, limit: nat, qty: nat)
    ensures Suffix(Match(q, taker, takerId, limit, qty).left, q)
  {
    hide Match;
    MatchUnfold(q, taker, takerId, limit, qty);
    if qty != 0 && q != [] && Crosses(taker, limit, q[0].px) && q[0].qty <= qty {
      MatchSuffix(q[1..], taker, takerId, limit, qty - q[0].qty);
      SuffixOfTail(Match(q[1..], taker, takerId, limit, qty - q[0].qty).left, q);
    }
  }

  lemma SuffixOfTail(left: seq<Resting>, q: seq<Resting>)
    requires q != [] && Suffix(left, q[1..])
    ensures Suffix(left, q)
  {
    forall k | 0 <= k < |left|
      ensures left[k].id == q[k + |q| - |left|].id
    {
      assert q[1..][k + |q| - 1 - |left|] == q[k + |q| - |left|];
    }
  }

  lemma SubmitTracked(c: Config, s1: Client<Ladder>, s2: Client<Tree>, side: Side, px: nat, qty: nat)
    requires Tracked(c, s1, s2)
    ensures var op := Submit(side, px, qty);
            Tracked(c, Step(LadderEngine(c), s1, op).0, Step(TreeEngine(c), s2, op).0)
  {
    hide Trade, Freed, SameFills, Slots;
    SameLimit(c, s1.book, s2.book, side, px, qty);
    LimitKeepsSlots(c, s1.book, side, px, qty);
    SameShapeSameQueries(s1.book.sides, s2.book.sides);
    TrackedParts(c, s1, s2);
    var op := Submit(side, px, qty);
    var s1', s2' := Step(LadderEngine(c), s1, op).0, Step(TreeEngine(c), s2, op).0;
    if LadderAccepts(c, s1.book, px, qty) {
      var n := |s1.book.stack| - 1;
      StackAt(c, s1.book.sides, s1.book.stack, [], n);
      SubmitNamed(s1, s2, s1', s2', side, px, qty, s1.book.stack[n], s2.book.nextId);
    }
  }

  lemma SubmitNamed(s1: Client<Ladder>, s2: Client<Tree>, s1': Client<Ladder>, s2': Client<Tree>, side: Side, px: nat,
                    qty: nat, id1: nat, id2: nat)
    requires AllNamed(s1, s2) && SameShape(s1.book.sides, s2.book.sides) && |s1.handles| == |s2.handles|
    requires id1 !in Ids(s1.book.sides.bids) && id1 !in Ids(s1.book.sides.asks)
    requires s1'.book.sides == Trade(s1.book.sides, side, px, qty, id1).sides
    requires s2'.book.sides == Trade(s2.book.sides, side, px, qty, id2).sides
    requires var rested := Trade(s1.book.sides, side, px, qty, id1).remaining > 0;
             && s1'.handles == (if rested then s1.handles + [id1] else s1.handles)
             && s2'.handles == (if rested then s2.handles + [id2] else s2.handles)
    ensures AllNamed(s1', s2')
  {
    hide Trade;
    forall sd: Side, k: nat | k < |s1'.book.sides.On(sd)|
      ensures Named(s1', s2', sd, k)
    {
      TradeSources(s1.book.sides, s2.book.sides, side, px, qty, id1, id2, sd, k);
      var rested := Trade(s1.book.sides, side, px, qty, id1).remaining > 0;
      if InPlace(s1'.book.sides, s2'.book.sides, sd, k, id1, id2) && rested {
        assert NamedBy(s1', s2', sd, k, |s1.handles|);
      } else {
        var j: nat :| SamePlace(s1.book.sides, s2.book.sides, s1'.book.sides, s2'.book.sides, sd, j, k);
        assert Named(s1, s2, sd, j);
        var i: nat :| NamedBy(s1, s2, sd, j, i);
        assert Ids(s1.book.sides.On(sd))[j] == s1.book.sides.On(sd)[j].id;
        assert NamedBy(s1', s2', sd, k, i);
      }
    }
  }

  // ---------- whole tapes ----------

  /** Every cancel on the tape is safe when its turn comes, on the ladder's run. */
  ghost predicate SafeTape(c: Config, s: Client<Ladder>, tape: seq<Op>)
    decreases |tape|
  {
    tape == [] || (SafeOp(s, tape[0]) && SafeTape(c, Step(LadderEngine(c), s, tape[0]).0, tape[1..]))
  }

  /** The newest handle is always safe to cancel, and so is one that was never given. */
  lemma TopIsSafe(s: Client<Ladder>, h: nat)
    requires h + 1 >= |s.handles|
    ensures Safe(s, h)
  {
  }

  lemma StepAgrees(c: Config, s1: Client<Ladder>, s2: Client<Tree>, op: Op)
    requires Tracked(c, s1, s2)
    ensures var (s1', seen1) := Step(LadderEngine(c), s1, op);
            var (s2', seen2) := Step(TreeEngine(c), s2, op);
            && (seen1 == seen2 <==> SafeOp(s1, op))
            && (SafeOp(s1, op) ==> Tracked(c, s1', s2'))
  {
    hide Tracked, Safe, LadderLimit, TreeLimit, LadderCancel, TreeCancel, Live;
    match op
    case Submit(side, px, qty) =>
      SubmitTracked(c, s1, s2, side, px, qty);
      TrackedParts(c, s1, s2);
      SameLimit(c, s1.book, s2.book, side, px, qty);
    case Withdrawal(h) =>
      TrackedParts(c, s1, s2);
      if h < |s1.handles| {
        CancelAnswers(c, s1, s2, h);
        if Safe(s1, h) {
          CancelTracked(c, s1, s2, h);
        }
      } else {
        TopIsSafe(s1, h);
      }
  }

  lemma TrackedParts(c: Config, s1: Client<Ladder>, s2: Client<Tree>)
    requires Tracked(c, s1, s2)
    ensures SameShape(s1.book.sides, s2.book.sides) && Slots(c, s1.book.sides, s1.book.stack, [])
    ensures |s1.handles| == |s2.handles| && s2.book.nextId >= 1
    ensures |s1.book.sides.bids| + |s1.book.sides.asks| + |s1.book.stack| == c.maxOrders
  {
  }

  /** The books are interchangeable: a client of either sees the same prints, the same rests and the
      same cancel answers over a whole tape exactly when no cancel names a slot that is live again
      under a later handle; and then the books end in the same shape. */
  lemma {:induction false} Interchangeable(c: Config, s1: Client<Ladder>, s2: Client<Tree>, tape: seq<Op>)
    requires Tracked(c, s1, s2)
    ensures var (t1, seen1) := Run(LadderEngine(c), s1, tape);
            var (t2, seen2) := Run(TreeEngine(c), s2, tape);
            && (seen1 == seen2 <==> SafeTape(c, s1, tape))
            && (SafeTape(c, s1, tape) ==> Tracked(c, t1, t2))
    decreases |tape|
  {
    if tape != [] {
      hide Tracked, Step, SafeOp;
      StepAgrees(c, s1, s2, tape[0]);
      var (s1', a1) := Step(LadderEngine(c), s1, tape[0]);
      var (s2', a2) := Step(TreeEngine(c), s2, tape[0]);
      var (t1, more1) := Run(LadderEngine(c), s1', tape[1..]);
      var (t2, more2) := Run(TreeEngine(c), s2', tape[1..]);
      assert ([a1] + more1)[0] == a1 && ([a2] + more2)[0] == a2;
      assert ([a1] + more1)[1..] == more1 && ([a2] + more2)[1..] == more2;
      if SafeOp(s1, tape[0]) {
        Interchangeable(c, s1', s2', tape[1..]);
      }
    }
  }

  /** Fresh books of one configuration are in step. */
  lemma FreshTracked(c: Config, stack: seq<nat>)
    requires Slots(c, Sides([], []), stack, [])
    ensures Tracked(c, Client(Ladder(Sides([], []), stack), []), Client(Tree(Sides([], []), 1), []))
  {
  }

  // ---------- the benchmark driver ----------

  /** The drivers of both books are in step: same draws to come, same figures so far. */
  ghost predicate DriversTracked<G>(c: Config, d1: Driver<Ladder, G>, d2: Driver<Tree, G>) {
    Tracked(c, d1.client, d2.client) && d1.g == d2.g && d1.st == d2.st
  }

  lemma TurnTracked<G>(c: Config, r: Draws<G>, cancelPct: int, d1: Driver<Ladder, G>, d2: Driver<Tree, G>)
    requires DriversTracked(c, d1, d2)
    ensures DriversTracked(c, Turn(LadderEngine(c), r, cancelPct, d1), Turn(TreeEngine(c), r, cancelPct, d2))
  {
    hide Tracked, Step, TakeSubmit, TakeCancel;
    TrackedParts(c, d1.client, d2.client);
    var g := d1.g;
    if d1.client.handles != [] {
      g := r.pct(d1.g).1;
      CancelTopTracked(c, d1, d2, g);
    }
    SubmitTurnTracked(c, r, d1, d2, g);
  }

  lemma CancelTopTracked<G>(c: Config, d1: Driver<Ladder, G>, d2: Driver<Tree, G>, g: G)
    requires DriversTracked(c, d1, d2) && d1.client.handles != [] && d2.client.handles != []
    ensures DriversTracked(c, TakeCancel(LadderEngine(c), d1, g), TakeCancel(TreeEngine(c), d2, g))
  {
    hide Tracked, Safe, LadderCancel, TreeCancel, Live;
    TrackedParts(c, d1.client, d2.client);
    var h := |d1.client.handles| - 1;
    TopIsSafe(d1.client, h);
    CancelAnswers(c, d1.client, d2.client, h);
    CancelTracked(c, d1.client, d2.client, h);
  }

  lemma SubmitTurnTracked<G>(c: Config, r: Draws<G>, d1: Driver<Ladder, G>, d2: Driver<Tree, G>, g: G)
    requires DriversTracked(c, d1, d2)
    ensures DriversTracked(c, TakeSubmit(LadderEngine(c), r, d1, g), TakeSubmit(TreeEngine(c), r, d2, g))
  {
    hide Tracked, Step, Tally;
    var (side, g1) := r.side(g);
    var (px, g2) := r.px(g1);
    var (qty, g3) := r.qty(g2);
    StepAgrees(c, d1.client, d2.client, Submit(side, px, qty));
  }

  lemma TurnsUnfold<B, G>(e: Engine<B>, r: Draws<G>, cancelPct: int, d: Driver<B, G>, n: nat)
    ensures Turns(e, r, cancelPct, d, n) == if n == 0 then d
            else Turns(e, r, cancelPct, Turn(e, r, cancelPct, d), n - 1)
  {
  }

  lemma {:induction false} TurnsTracked<G>(c: Config, r: Draws<G>, cancelPct: int, d1: Driver<Ladder, G>,
                                           d2: Driver<Tree, G>, n: nat)
    requires DriversTracked(c, d1, d2)
    ensures DriversTracked(c, Turns(LadderEngine(c), r, cancelPct, d1, n), Turns(TreeEngine(c), r, cancelPct, d2, n))
    decreases n
  {
    hide DriversTracked, Turn, Turns, LadderEngine, TreeEngine;
    TurnsUnfold(LadderEngine(c), r, cancelPct, d1, n);
    TurnsUnfold(TreeEngine(c), r, cancelPct, d2, n);
    if n > 0 {
      TurnTracked(c, r, cancelPct, d1, d2);
      TurnsTracked(c, r, cancelPct, Turn(LadderEngine(c), r, cancelPct, d1), Turn(TreeEngine(c), r, cancelPct, d2),
                   n - 1);
    }
  }

  /** The benchmark's check never fires: on any stream of draws, of any length, both books end with
      the same figures, best prices, live count and checksum. */
  lemma SameSummary<G>(c: Config, r: Draws<G>, cancelPct: int, l: Ladder, t: Tree, g: G, n: nat)
    requires SameShape(l.sides, t.sides) && l.sides == Sides([], []) && Slots(c, l.sides, l.stack, []) && t.nextId >= 1
    ensures Drive(LadderEngine(c), r, cancelPct, l, g, n) == Drive(TreeEngine(c), r, cancelPct, t, g, n)
  {
    hide Turns;
    assert Tracked(c, Client(l, []), Client(t, []));
    TurnsTracked(c, r, cancelPct, Fresh(l, g), Fresh(t, g), n);
    var d1 := Turns(LadderEngine(c), r, cancelPct, Fresh(l, g), n);
    var d2 := Turns(TreeEngine(c), r, cancelPct, Fresh(t, g), n);
    TrackedParts(c, d1.client, d2.client);
    SameShapeSameQueries(d1.client.book.sides, d2.client.book.sides);
  }
}
