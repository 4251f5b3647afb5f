/** Consequences of the representation: what the stored arrays look like to somebody walking them. */
module LadderFacts {
  import opened LobTypes
  import opened PriceTime
  import opened Trading
  import opened SlotLaws
  import opened LadderRep
  import opened LadderStore
  import opened MatchProgress
  import opened LadderBook

  /** Following next links from slot `at` visits exactly ids and then stops. */
  ghost predicate WalkNext(orders: seq<Order>, at: nat, ids: seq<nat>)
    decreases |ids|
  {
    if ids == [] then at == 0
    else at == ids[0] && 0 < at < |orders| && WalkNext(orders, orders[at].next, ids[1..])
  }

  /** Following prev links from slot `at` visits exactly ids backwards and then stops. */
  ghost predicate WalkPrev(orders: seq<Order>, at: nat, ids: seq<nat>)
    decreases |ids|
  {
    if ids == [] then at == 0
    else at == ids[|ids| - 1] && 0 < at < |orders| && WalkPrev(orders, orders[at].prev, ids[..|ids| - 1])
  }

  // ---------- lists ----------

  function IdsFrom(s: seq<Resting>, i: nat, j: nat): seq<nat>
    requires i <= j <= |s|
  {
    Ids(s[i..j])
  }

  /** A level is a contiguous stretch of the queue. */
  lemma LevelStretch(side: Side, s: seq<Resting>, px: nat)
    requires Sorted(side, s)
    ensures First(s, px) == |s| ==> LevelIds(s, px) == [] && Last(s, px) == 0
    ensures First(s, px) < |s| ==>
              First(s, px) < Last(s, px) <= |s| && LevelIds(s, px) == IdsFrom(s, First(s, px), Last(s, px))
  {
    var f, l := First(s, px), Last(s, px);
    FirstBeforeLast(s, px);
    if f == |s| {
      LevelIdsNone(s, px);
    } else {
      StretchIs(side, s, px, f, l);
    }
  }

  lemma StretchIs(side: Side, s: seq<Resting>, px: nat, f: nat, l: nat)
    requires Sorted(side, s) && f < l <= |s| && s[f].px == px && s[l - 1].px == px
    requires forall i :: 0 <= i < f ==> s[i].px != px
    requires forall i :: l <= i < |s| ==> s[i].px != px
    ensures LevelIds(s, px) == IdsFrom(s, f, l)
  {
    hide LevelIds, Ids, Sorted;
    forall i | f <= i < l
      ensures s[i].px == px
    {
      Contiguous(side, s, f, i, l - 1);
    }
    LevelIdsNone(s[..f], px);
    LevelIdsAll(s[f..l], px);
    LevelIdsNone(s[l..], px);
    LevelIdsConcat(s[f..l], s[l..], px);
    LevelIdsConcat(s[..f], s[f..l] + s[l..], px);
    assert s == s[..f] + (s[f..l] + s[l..]);
  }

  // ---------- walks ----------

  /** From any order of a level, next links run to the level's end. */
  lemma {:induction false} NextFrom(side: Side, s: seq<Resting>, px: nat, orders: seq<Order>, i: nat)
    requires NodesOk(side, s, orders) && Sorted(side, s)
    requires First(s, px) <= i < Last(s, px)
    ensures WalkNext(orders, s[i].id, IdsFrom(s, i, Last(s, px)))
    decreases |s| - i
  {
    hide First, Last, Sorted;
    var l := Last(s, px);
    assert NodeOk(side, s, i, orders);
    Contiguous(side, s, First(s, px), i, l - 1);
    assert IdsFrom(s, i, l)[1..] == IdsFrom(s, i + 1, l);
    if i + 1 < l {
      Contiguous(side, s, First(s, px), i + 1, l - 1);
      NextFrom(side, s, px, orders, i + 1);
    }
  }

  lemma {:induction false} PrevFrom(side: Side, s: seq<Resting>, px: nat, orders: seq<Order>, i: nat)
    requires NodesOk(side, s, orders) && Sorted(side, s)
    requires First(s, px) <= i < Last(s, px)
    ensures WalkPrev(orders, s[i].id, IdsFrom(s, First(s, px), i + 1))
  {
    hide First, Last, Sorted;
    var f, l := First(s, px), Last(s, px);
    assert NodeOk(side, s, i, orders);
    Contiguous(side, s, f, i, l - 1);
    var ids := IdsFrom(s, f, i + 1);
    assert ids[..|ids| - 1] == IdsFrom(s, f, i);
    if f < i {
      Contiguous(side, s, f, i - 1, l - 1);
      PrevFrom(side, s, px, orders, i - 1);
    }
  }

  /** Every level of every represented book is a finite, acyclic doubly linked list of exactly the
      orders at that price, first come first, and its total is the sum of their quantities. */
  lemma LevelsAreLists(c: Config, b: Sides, stack: seq<nat>, held: seq<nat>, st: Store, side: Side, px: nat)
    requires Represents(c, b, stack, held, st) && px <= c.maxPx
    ensures |st.Levels(side)| == c.maxPx + 1
    ensures var lv := st.Levels(side)[px]; var ids := LevelIds(b.On(side), px);
            && WalkNext(st.orders, lv.head, ids) && WalkPrev(st.orders, lv.tail, ids)
            && lv.qty == TotalAt(b.On(side), px)
  {
    hide Represents, Linked, Counted, SidesOk, SideOk, Slots, FreeOk, NodesOk, Sorted, Distinct;
    hide LevelIds, IdsFrom, First, Last;
    var s := b.On(side);
    Parts(c, b, stack, held, st, side);
    LevelStretch(side, s, px);
    if First(s, px) < |s| {
      NextFrom(side, s, px, st.orders, First(s, px));
      PrevFrom(side, s, px, st.orders, Last(s, px) - 1);
    }
  }

  /** The stored state is determined by the queues and the free stack. */
  lemma Canonical(c: Config, b: Sides, stack: seq<nat>, st1: Store, st2: Store)
    requires Represents(c, b, stack, [], st1) && Represents(c, b, stack, [], st2)
    ensures st1 == st2
  {
    SameLevels(c, b, stack, st1, st2, Buy);
    SameLevels(c, b, stack, st1, st2, Sell);
    forall id | 0 <= id < |st1.orders|
      ensures st1.orders[id] == st2.orders[id]
    {
      if id > 0 {
        SameOrder(c, b, stack, st1, st2, id);
      }
    }
  }

  lemma SameLevels(c: Config, b: Sides, stack: seq<nat>, st1: Store, st2: Store, side: Side)
    requires Represents(c, b, stack, [], st1) && Represents(c, b, stack, [], st2)
    ensures st1.Levels(side) == st2.Levels(side)
  {
    hide Represents, Linked, Counted, SidesOk, SideOk, Slots, FreeOk, NodesOk, Sorted, Distinct;
    Parts(c, b, stack, [], st1, side);
    Parts(c, b, stack, [], st2, side);
    var l1, l2 := st1.Levels(side), st2.Levels(side);
    assert forall p :: 0 <= p < |l1| ==> l1[p].head == l2[p].head && l1[p].tail == l2[p].tail && l1[p].qty == l2[p].qty;
  }

  lemma SameOrder(c: Config, b: Sides, stack: seq<nat>, st1: Store, st2: Store, id: nat)
    requires Represents(c, b, stack, [], st1) && Represents(c, b, stack, [], st2)
    requires 1 <= id < |st1.orders|
    ensures st1.orders[id] == st2.orders[id]
  {
    NotLiveIsFree(c, Ladder(b, stack), id);
    if Live(b, id) {
      var side := if Rests(b.bids, id) then Buy else Sell;
      var k := IndexOf(b.On(side), id);
      Parts(c, b, stack, [], st1, side);
      Parts(c, b, stack, [], st2, side);
      assert NodeOk(side, b.On(side), k, st1.orders) && NodeOk(side, b.On(side), k, st2.orders);
    } else {
      var i :| 0 <= i < |stack| && stack[i] == id;
      assert st1.orders[stack[i]] == EMPTY_ORDER && st2.orders[stack[i]] == EMPTY_ORDER;
    }
  }

  // ---------- undo ----------

  lemma {:induction false} NoFillsNoChange(q: seq<Resting>, taker: Side, takerId: nat, limit: nat, qty: nat)
    requires Match(q, taker, takerId, limit, qty).fills == []
    ensures Match(q, taker, takerId, limit, qty) == Matched([], q, qty)
    ensures Freed(q, taker, takerId, limit, qty) == []
  {
  }

  lemma RemoveEnqueued(side: Side, s: seq<Resting>, o: Resting)
    requires o.id !in Ids(s)
    ensures var e := Enqueue(side, s, o);
            && IndexOf(e, o.id) == Slot(side, s, o.px) < |e|
            && Remove(e, IndexOf(e, o.id)) == s
  {
    hide Slot, IndexOf;
    var e := Enqueue(side, s, o);
    var k := Slot(side, s, o.px);
    assert e[k] == o;
    assert forall i :: 0 <= i < |s| ==> Ids(s)[i] == s[i].id;
    assert forall i :: 0 <= i < |e| && i != k ==> e[i] == s[if i < k then i else i - 1];
    assert Remove(e, k) == s;
  }

  /** Resting and cancelling gives the queues and the stack back. */
  lemma LimitThenCancel(c: Config, l: Ladder, side: Side, px: nat, qty: nat)
    requires Slots(c, l.sides, l.stack, [])
    requires var r := LadderLimit(c, l, side, px, qty); r.id != INVALID_ID && r.fills == []
    ensures var r := LadderLimit(c, l, side, px, qty);
            Live(r.book.sides, r.id) && LadderCancel(r.book, r.id) == l
    ensures var r := LadderLimit(c, l, side, px, qty);
            l.stack != [] && r.id == l.stack[|l.stack| - 1] && |r.book.stack| == |l.stack| - 1
  {
    hide Match, Freed, Enqueue, Slot, Remove, IndexOf, Slots;
    var n := |l.stack| - 1;
    var id := l.stack[n];
    NoFillsNoChange(l.sides.On(side.Opposite()), side, id, px, qty);
    StackAt(c, l.sides, l.stack, [], n);
    RemoveEnqueued(side, l.sides.On(side), Resting(id, px, qty));
    var b := l.sides.With(side, Enqueue(side, l.sides.On(side), Resting(id, px, qty)));
    assert LadderLimit(c, l, side, px, qty).book.sides == b;
    RestsIffId(b.On(side.Opposite()), id);
    assert l.stack[..n] + [] + [id] == l.stack;
  }

  /** A limit that rests without trading, then cancelled: every array, both best prices and the
      free stack with its order are what they were. */
  method RestThenCancel(book: Book, side: Side, px: nat, qty: nat, execs: array?<Exec>, cap: nat)
      returns (id: nat, nexec: nat)
    requires book.Valid()
    requires execs != null ==> cap <= execs.Length
    requires LadderAccepts(book.Cfg(), book.Abs(), px, qty) ==> Room(book.sides, side, px, qty)
    modifies book.bidLevels, book.askLevels, book.orders, book.free, book`freeTop, book`sides, book`bestBid,
             book`bestAsk, execs
    ensures book.Valid()
    ensures id != INVALID_ID && nexec == 0 ==>
              && book.bidLevels[..] == old(book.bidLevels[..]) && book.askLevels[..] == old(book.askLevels[..])
              && book.orders[..] == old(book.orders[..]) && book.free[..] == old(book.free[..])
              && book.freeTop == old(book.freeTop)
              && book.bestBid == old(book.bestBid) && book.bestAsk == old(book.bestAsk)
              && book.Abs() == old(book.Abs())
  {
    hide Represents, Uncrossed, LadderLimit, LadderCancel, Recorded;
    ghost var c, l, st, free0 := book.Cfg(), book.Abs(), book.Snap(), book.free[..];
    BookFacts(book);
    id, nexec := book.Limit(side, px, qty, execs, cap);
    if id != INVALID_ID && nexec == 0 {
      LimitThenCancel(c, l, side, px, qty);
      ghost var top := book.freeTop;
      assert top == |l.stack| - 1 && free0[top] == l.stack[top];
      var ok := book.Cancel(id);
      Canonical(c, l.sides, l.stack, st, book.Snap());
      assert book.freeTop == |l.stack|;
    }
  }
}
