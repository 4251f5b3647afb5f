/**
 How the ladder stores the two queues: per price a level with head, tail and total, per slot an
 order linked to its neighbours at the same price. The stored state is a function of the queues.
 */
module LadderRep {
  import opened LobTypes
  import opened PriceTime

  datatype Order = Order(prev: nat, next: nat, qty: nat, px: nat, side: Side)
  datatype Level = Level(head: nat, tail: nat, qty: nat)

  const EMPTY_ORDER := Order(0, 0, 0, 0, Buy)
  const EMPTY_LEVEL := Level(0, 0, 0)

  /** Index of the first order at px, or |s|. */
  function First(s: seq<Resting>, px: nat): (k: nat)
    ensures k <= |s|
    ensures k < |s| ==> s[k].px == px
    ensures forall i :: 0 <= i < k ==> s[i].px != px
  {
    if s == [] || s[0].px == px then 0 else 1 + First(s[1..], px)
  }

  /** One past the index of the last order at px, or 0. */
  function Last(s: seq<Resting>, px: nat): (k: nat)
    ensures k <= |s|
    ensures k > 0 ==> s[k - 1].px == px
    ensures forall i :: k <= i < |s| ==> s[i].px != px
  {
    if s == [] || s[|s| - 1].px == px then |s| else Last(s[..|s| - 1], px)
  }

  function HeadId(s: seq<Resting>, px: nat): nat {
    var k := First(s, px);
    if k < |s| then s[k].id else 0
  }

  function TailId(s: seq<Resting>, px: nat): nat {
    var k := Last(s, px);
    if k > 0 then s[k - 1].id else 0
  }

  function NextId(s: seq<Resting>, k: nat): nat
    requires k < |s|
  {
    if k + 1 < |s| && s[k + 1].px == s[k].px then s[k + 1].id else 0
  }

  function PrevId(s: seq<Resting>, k: nat): nat
    requires k < |s|
  {
    if k > 0 && s[k - 1].px == s[k].px then s[k - 1].id else 0
  }

  predicate LinkOf(side: Side, s: seq<Resting>, k: nat, o: Order)
    requires k < |s|
  {
    o.prev == PrevId(s, k) && o.next == NextId(s, k) && o.px == s[k].px && o.side == side
  }

  ghost predicate HeadsOk(s: seq<Resting>, levels: seq<Level>) {
    forall p :: 0 <= p < |levels| ==> levels[p].head == HeadId(s, p) && levels[p].tail == TailId(s, p)
  }

  ghost predicate NodesOk(side: Side, s: seq<Resting>, orders: seq<Order>) {
    forall k :: 0 <= k < |s| ==> NodeOk(side, s, k, orders)
  }

  predicate NodeOk(side: Side, s: seq<Resting>, k: nat, orders: seq<Order>)
    requires k < |s|
  {
    0 < s[k].id < |orders| && LinkOf(side, s, k, orders[s[k].id])
  }

  ghost predicate QtyOk(s: seq<Resting>, levels: seq<Level>, orders: seq<Order>) {
    && (forall p :: 0 <= p < |levels| ==> levels[p].qty == TotalAt(s, p))
    && (forall k :: 0 <= k < |s| ==> 0 < s[k].id < |orders| && orders[s[k].id].qty == s[k].qty)
  }

  ghost predicate FreeOk(stack: seq<nat>, orders: seq<Order>) {
    forall i :: 0 <= i < |stack| ==> 0 < stack[i] < |orders| && orders[stack[i]] == EMPTY_ORDER
  }

  ghost predicate Distinct(s: seq<Resting>) {
    forall i, j :: 0 <= i < j < |s| ==> s[i].id != s[j].id
  }

  // ---------- unlinking ----------

  /** What becomes of slot j when its neighbours bypass the order o in slot id. */
  function Bypass(orders: seq<Order>, id: nat, j: nat): Order
    requires id < |orders| && j < |orders|
  {
    var o := orders[id];
    if j == id then o.(prev := 0, next := 0)
    else orders[j].(next := if j != 0 && j == o.prev then o.next else orders[j].next,
                    prev := if j != 0 && j == o.next then o.prev else orders[j].prev)
  }

  ghost predicate Bypassed(orders: seq<Order>, orders': seq<Order>, id: nat)
    requires id < |orders|
  {
    && |orders'| == |orders|
    && (forall j :: 0 <= j < |orders| ==> orders'[j] == Bypass(orders, id, j))
  }

  lemma UnlinkNodes(side: Side, s: seq<Resting>, k: nat, orders: seq<Order>, orders': seq<Order>)
    requires k < |s| && Sorted(side, s) && Distinct(s)
    requires NodesOk(side, s, orders) && s[k].id < |orders|
    requires Bypassed(orders, orders', s[k].id)
    ensures NodesOk(side, Remove(s, k), orders')
  {
    var r := Remove(s, k);
    forall i | 0 <= i < |r|
      ensures NodeOk(side, r, i, orders')
    {
      var at := if i < k then i else i + 1;
      assert r[i] == s[at];
      assert NodeOk(side, s, at, orders) && NodeOk(side, s, k, orders);
      assert orders'[s[at].id] == Bypass(orders, s[k].id, s[at].id);
      assert 0 < k < |s| - 1 ==> !Ahead(side, s[k + 1].px, s[k].px) && !Ahead(side, s[k].px, s[k - 1].px);
      UnlinkNode(side, s, k, i, orders[s[at].id], orders[s[k].id], orders'[s[at].id]);
    }
  }

  /** One surviving order: o before, o' after, u the record of the order taken out. */
  lemma UnlinkNode(side: Side, s: seq<Resting>, k: nat, i: nat, o: Order, u: Order, o': Order)
    requires k < |s| && i < |s| - 1
    requires 0 < k < |s| - 1 ==> !Ahead(side, s[k + 1].px, s[k].px) && !Ahead(side, s[k].px, s[k - 1].px)
    requires LinkOf(side, s, if i < k then i else i + 1, o) && LinkOf(side, s, k, u)
    requires var at := if i < k then i else i + 1;
             && s[at].id > 0
             && o' == o.(next := if s[at].id == u.prev then u.next else o.next,
                         prev := if s[at].id == u.next then u.prev else o.prev)
             && (k > 0 && at != k - 1 ==> s[at].id != s[k - 1].id)
             && (k + 1 < |s| && at != k + 1 ==> s[at].id != s[k + 1].id)
    ensures LinkOf(side, Remove(s, k), i, o')
  {
    var r := Remove(s, k);
    assert i < k ==> r[i] == s[i];
    assert i >= k ==> r[i] == s[i + 1];
    assert i + 1 < |r| && i + 1 < k ==> r[i + 1] == s[i + 1];
    assert i + 1 < |r| && i + 1 >= k ==> r[i + 1] == s[i + 2];
    assert 0 < i <= k ==> r[i - 1] == s[i - 1];
    assert i > k ==> r[i - 1] == s[i];
  }

  /** Only the level of the removed order changes, and only where it was first or last. */
  lemma UnlinkHeads(side: Side, s: seq<Resting>, k: nat, levels: seq<Level>, levels': seq<Level>)
    requires k < |s| && Sorted(side, s) && Distinct(s)
    requires forall i :: 0 <= i < |s| ==> s[i].id > 0
    requires HeadsOk(s, levels) && |levels'| == |levels|
    requires forall p :: 0 <= p < |levels| && p != s[k].px ==>
               levels'[p].head == levels[p].head && levels'[p].tail == levels[p].tail
    requires s[k].px < |levels| ==>
               levels'[s[k].px].head == if PrevId(s, k) == 0 then NextId(s, k) else levels[s[k].px].head
    requires s[k].px < |levels| ==>
               levels'[s[k].px].tail == if NextId(s, k) == 0 then PrevId(s, k) else levels[s[k].px].tail
    ensures HeadsOk(Remove(s, k), levels')
  {
    forall p: nat | p < |levels|
      ensures levels'[p].head == HeadId(Remove(s, k), p) && levels'[p].tail == TailId(Remove(s, k), p)
    {
      RemoveHead(side, s, k, p);
      RemoveTail(side, s, k, p);
    }
  }

  /** Orders at one price sit together. */
  lemma Contiguous(side: Side, s: seq<Resting>, i: nat, j: nat, l: nat)
    requires Sorted(side, s) && i <= j <= l < |s|
    ensures s[i].px == s[l].px ==> s[j].px == s[i].px
  {
  }

  lemma RemoveHead(side: Side, s: seq<Resting>, k: nat, p: nat)
    requires k < |s| && Sorted(side, s)
    requires forall i :: 0 <= i < |s| ==> s[i].id > 0
    ensures HeadId(Remove(s, k), p) == if p == s[k].px && PrevId(s, k) == 0 then NextId(s, k) else HeadId(s, p)
  {
    hide First, Remove, Sorted;
    var r := Remove(s, k);
    var f := First(s, p);
    var g := First(r, p);
    RemoveAt(s, k);
    assert k < |r| ==> r[k] == s[k + 1];
    if f < k {
      assert r[f] == s[f];
      Contiguous(side, s, f, k - 1, k);
    } else if f == k {
      if g < |r| {
        assert r[g] == s[g + 1];
        Contiguous(side, s, k, k + 1, g + 1);
      }
    } else if f < |s| {
      assert r[f - 1] == s[f];
    }
  }

  lemma RemoveTail(side: Side, s: seq<Resting>, k: nat, p: nat)
    requires k < |s| && Sorted(side, s)
    requires forall i :: 0 <= i < |s| ==> s[i].id > 0
    ensures TailId(Remove(s, k), p) == if p == s[k].px && NextId(s, k) == 0 then PrevId(s, k) else TailId(s, p)
  {
    hide Last, Remove, Sorted;
    var r := Remove(s, k);
    var f := Last(s, p);
    var g := Last(r, p);
    RemoveAt(s, k);
    assert k > 0 ==> r[k - 1] == s[k - 1];
    if f - 1 > k {
      assert r[f - 2] == s[f - 1];
      Contiguous(side, s, k, k + 1, f - 1);
    } else if f - 1 == k {
      if g > 0 {
        assert r[g - 1] == s[g - 1];
        Contiguous(side, s, g - 1, k - 1, k);
      }
    } else if f > 0 {
      assert r[f - 1] == s[f - 1];
    }
  }

  // ---------- resting ----------

  /** What becomes of slot j when slot id is appended behind slot tail. */
  function Append(orders: seq<Order>, id: nat, tail: nat, j: nat): Order
    requires id < |orders| && j < |orders|
  {
    if j == id then orders[id].(prev := tail, next := 0)
    else orders[j].(next := if j != 0 && j == tail then id else orders[j].next)
  }

  ghost predicate Appended(orders: seq<Order>, orders': seq<Order>, id: nat, tail: nat)
    requires id < |orders|
  {
    && |orders'| == |orders|
    && (forall j :: 0 <= j < |orders| ==> orders'[j] == Append(orders, id, tail, j))
  }

  /** The place of a newcomer: right behind the last order at its price. */
  lemma SlotIsLast(side: Side, s: seq<Resting>, px: nat)
    requires Sorted(side, s)
    ensures var k := Slot(side, s, px);
            && (Last(s, px) > 0 ==> Last(s, px) == k)
            && (Last(s, px) == 0 ==> k == 0 || s[k - 1].px != px)
  {
    var k := Slot(side, s, px);
    var l := Last(s, px);
    assert l > 0 ==> forall i :: 0 <= i < l - 1 ==> !Ahead(side, px, s[i].px);
    assert l > 0 ==> forall i :: l <= i < |s| ==> !Ahead(side, s[i].px, px);
  }

  lemma RestNodes(side: Side, s: seq<Resting>, o: Resting, orders: seq<Order>, orders': seq<Order>)
    requires Sorted(side, s) && Distinct(s)
    requires forall i :: 0 <= i < |s| ==> s[i].id != o.id
    requires NodesOk(side, s, orders)
    requires 0 < o.id < |orders| && orders[o.id].px == o.px && orders[o.id].side == side
    requires Appended(orders, orders', o.id, TailId(s, o.px))
    ensures NodesOk(side, Enqueue(side, s, o), orders')
  {
    forall i: nat | i <= |s|
      ensures NodeOk(side, Enqueue(side, s, o), i, orders')
    {
      RestAt(side, s, o, i, orders, orders');
    }
    assert forall i :: 0 <= i < |Enqueue(side, s, o)| ==> NodeOk(side, Enqueue(side, s, o), i, orders');
  }

  lemma RestAt(side: Side, s: seq<Resting>, o: Resting, i: nat, orders: seq<Order>, orders': seq<Order>)
    requires Sorted(side, s) && Distinct(s) && i <= |s|
    requires forall i :: 0 <= i < |s| ==> s[i].id != o.id
    requires NodesOk(side, s, orders)
    requires 0 < o.id < |orders| && orders[o.id].px == o.px && orders[o.id].side == side
    requires Appended(orders, orders', o.id, TailId(s, o.px))
    ensures NodeOk(side, Enqueue(side, s, o), i, orders')
  {
    var k := Slot(side, s, o.px);
    RestTail(side, s, o);
    if i == k {
      NewNode(side, s, o, orders[o.id]);
      assert orders'[o.id] == Append(orders, o.id, TailId(s, o.px), o.id);
    } else {
      OldNode(side, s, o, k, if i < k then i else i - 1, orders, orders');
    }
  }

  lemma NewNode(side: Side, s: seq<Resting>, o: Resting, r: Order)
    requires Sorted(side, s) && r.px == o.px && r.side == side
    ensures var k := Slot(side, s, o.px);
            && Enqueue(side, s, o)[k] == o
            && LinkOf(side, Enqueue(side, s, o), k, r.(prev := TailId(s, o.px), next := 0))
  {
    RestTail(side, s, o);
    hide Slot, Sorted, TailId;
    var k := Slot(side, s, o.px);
    var e := s[..k] + [o] + s[k..];
    assert e[k] == o;
    assert k < |s| ==> e[k + 1] == s[k];
    assert k > 0 ==> e[k - 1] == s[k - 1];
  }

  lemma OldNode(side: Side, s: seq<Resting>, o: Resting, k: nat, at: nat, orders: seq<Order>, orders': seq<Order>)
    requires Sorted(side, s) && Distinct(s) && k == Slot(side, s, o.px) && at < |s|
    requires forall i :: 0 <= i < |s| ==> s[i].id != o.id
    requires NodesOk(side, s, orders)
    requires 0 < o.id < |orders|
    requires Appended(orders, orders', o.id, if k > 0 && s[k - 1].px == o.px then s[k - 1].id else 0)
    ensures Enqueue(side, s, o)[if at < k then at else at + 1] == s[at]
    ensures 0 < s[at].id < |orders'|
    ensures LinkOf(side, Enqueue(side, s, o), if at < k then at else at + 1, orders'[s[at].id])
  {
    assert NodeOk(side, s, at, orders);
    var tail := if k > 0 && s[k - 1].px == o.px then s[k - 1].id else 0;
    assert orders'[s[at].id] == Append(orders, o.id, tail, s[at].id);
    assert 0 < k < |s| ==> !Ahead(side, s[k].px, s[k - 1].px);
    RestNode(side, s, o, k, at, orders[s[at].id], orders'[s[at].id]);
  }

  /** One order that rested before: r before, r' after o is inserted at k. */
  lemma RestNode(side: Side, s: seq<Resting>, o: Resting, k: nat, at: nat, r: Order, r': Order)
    requires k <= |s| && at < |s| && s[at].id > 0
    requires LinkOf(side, s, at, r)
    requires k < |s| ==> s[k].px != o.px
    requires 0 < k < |s| ==> !Ahead(side, s[k].px, s[k - 1].px)
    requires k < |s| ==> Ahead(side, o.px, s[k].px)
    requires k > 0 ==> !Ahead(side, o.px, s[k - 1].px)
    requires k > 0 && at != k - 1 ==> s[at].id != s[k - 1].id
    requires var tail := if k > 0 && s[k - 1].px == o.px then s[k - 1].id else 0;
             r' == r.(next := if s[at].id == tail then o.id else r.next)
    ensures LinkOf(side, s[..k] + [o] + s[k..], if at < k then at else at + 1, r')
  {
    var e := s[..k] + [o] + s[k..];
    var i := if at < k then at else at + 1;
    assert e[i] == s[at] && e[k] == o;
    assert i + 1 < k ==> e[i + 1] == s[i + 1];
    assert k < i < |s| ==> e[i + 1] == s[i];
    assert 0 < i < k ==> e[i - 1] == s[i - 1];
    assert i > k + 1 ==> e[i - 1] == s[i - 2];
  }

  lemma RestTail(side: Side, s: seq<Resting>, o: Resting)
    requires Sorted(side, s)
    ensures var k := Slot(side, s, o.px);
            && TailId(s, o.px) == (if k > 0 && s[k - 1].px == o.px then s[k - 1].id else 0)
            && (k < |s| ==> s[k].px != o.px)
  {
    SlotIsLast(side, s, o.px);
  }

  lemma RestHeads(side: Side, s: seq<Resting>, o: Resting, levels: seq<Level>, levels': seq<Level>)
    requires Sorted(side, s) && o.id > 0
    requires forall i :: 0 <= i < |s| ==> s[i].id > 0
    requires HeadsOk(s, levels) && |levels'| == |levels|
    requires forall p :: 0 <= p < |levels| && p != o.px ==>
               levels'[p].head == levels[p].head && levels'[p].tail == levels[p].tail
    requires o.px < |levels| ==> levels'[o.px].tail == o.id
    requires o.px < |levels| ==> levels'[o.px].head == if levels[o.px].tail != 0 then levels[o.px].head else o.id
    ensures HeadsOk(Enqueue(side, s, o), levels')
  {
    forall p: nat | p < |levels|
      ensures levels'[p].head == HeadId(Enqueue(side, s, o), p) && levels'[p].tail == TailId(Enqueue(side, s, o), p)
    {
      EnqueueEnds(side, s, o, p);
    }
  }

  lemma EnqueueEnds(side: Side, s: seq<Resting>, o: Resting, p: nat)
    requires Sorted(side, s) && o.id > 0
    requires forall i :: 0 <= i < |s| ==> s[i].id > 0
    ensures var e := Enqueue(side, s, o);
            && TailId(e, p) == (if p == o.px then o.id else TailId(s, p))
            && HeadId(e, p) == if p == o.px && TailId(s, p) == 0 then o.id else HeadId(s, p)
  {
    var k := Slot(side, s, o.px);
    SlotIsLast(side, s, o.px);
    FirstBeforeLast(s, p);
    EnqueueHeadId(s, o, k, p);
    EnqueueTailId(s, o, k, p);
  }

  lemma EnqueueHeadId(s: seq<Resting>, o: Resting, k: nat, p: nat)
    requires k <= |s|
    ensures HeadId(s[..k] + [o] + s[k..], p) == if p == o.px && First(s, p) >= k then o.id else HeadId(s, p)
  {
    EnqueueFirst(s, o, k, p);
    var e := s[..k] + [o] + s[k..];
    assert e[k] == o;
    var f := First(s, p);
    assert f < k ==> e[f] == s[f];
    assert k <= f < |s| ==> e[f + 1] == s[f];
  }

  lemma EnqueueTailId(s: seq<Resting>, o: Resting, k: nat, p: nat)
    requires k <= |s|
    ensures TailId(s[..k] + [o] + s[k..], p) == if p == o.px && Last(s, p) <= k then o.id else TailId(s, p)
  {
    hide Last;
    EnqueueLast(s, o, k, p);
    InsertAt(s, o, k);
  }

  lemma FirstBeforeLast(s: seq<Resting>, p: nat)
    ensures Last(s, p) == 0 <==> First(s, p) == |s|
    ensures Last(s, p) > 0 ==> First(s, p) < Last(s, p)
  {
  }

  /** First and last position of a price after one insertion at k. */

  lemma InsertAt(s: seq<Resting>, o: Resting, k: nat)
    requires k <= |s|
    ensures var e := s[..k] + [o] + s[k..];
            |e| == |s| + 1 && forall i :: 0 <= i < |e| ==>
                e[i] == if i < k then s[i] else if i == k then o else s[i - 1]
  {
  }

  lemma EnqueueFirst(s: seq<Resting>, o: Resting, k: nat, p: nat)
    requires k <= |s|
    ensures var e := s[..k] + [o] + s[k..];
            First(e, p) == if First(s, p) < k then First(s, p)
                           else if p == o.px then k
                           else First(s, p) + 1
  {
    hide First;
    var e, f := s[..k] + [o] + s[k..], First(s, p);
    InsertAt(s, o, k);
    var at := if f < k then f else if p == o.px then k else f + 1;
    assert at < |e| ==> e[at].px == p;
    assert forall i :: 0 <= i < at ==> e[i].px != p;
  }

  lemma EnqueueLast(s: seq<Resting>, o: Resting, k: nat, p: nat)
    requires k <= |s|
    ensures var e := s[..k] + [o] + s[k..];
            Last(e, p) == if Last(s, p) > k then Last(s, p) + 1
                          else if p == o.px then k + 1
                          else Last(s, p)
  {
    hide Last;
    var e, l := s[..k] + [o] + s[k..], Last(s, p);
    InsertAt(s, o, k);
    var at := if l > k then l + 1 else if p == o.px then k + 1 else l;
    assert at > 0 ==> e[at - 1].px == p;
    assert forall i :: at <= i < |e| ==> e[i].px != p;
  }

  lemma RestQty(side: Side, s: seq<Resting>, o: Resting, levels: seq<Level>, levels': seq<Level>, orders: seq<Order>,
                orders': seq<Order>)
    requires QtyOk(s, levels, orders) && |levels'| == |levels| && |orders'| == |orders|
    requires forall p :: 0 <= p < |levels| ==> levels'[p].qty == levels[p].qty + if p == o.px then o.qty else 0
    requires forall i :: 0 <= i < |s| ==> orders'[s[i].id].qty == orders[s[i].id].qty
    requires 0 < o.id < |orders| && orders'[o.id].qty == o.qty
    ensures QtyOk(Enqueue(side, s, o), levels', orders')
  {
    hide Enqueue, Slot, TotalAt;
    EnqueueAt(side, s, o);
    forall p: nat | p < |levels| ensures levels'[p].qty == TotalAt(Enqueue(side, s, o), p) {
      TotalAtEnqueue(side, s, o, p);
    }
  }
}
