/**
 The stored form of a ladder book as a value, when it represents given queues, and how each
 primitive update of the arrays keeps that.
 */
module LadderStore {
  import opened LobTypes
  import opened PriceTime
  import opened Trading
  import opened SlotLaws
  import opened TradingLaws
  import opened LadderRep

  datatype Store = Store(bidLevels: seq<Level>, askLevels: seq<Level>, orders: seq<Order>) {
    function Levels(side: Side): seq<Level> { if side.Buy? then bidLevels else askLevels }
  }

  /** Links, heads, tails, prices and free slots are right; quantities are not looked at. */
  ghost predicate Linked(c: Config, b: Sides, stack: seq<nat>, held: seq<nat>, st: Store) {
    && |st.bidLevels| == |st.askLevels| == c.maxPx + 1 && |st.orders| == c.maxOrders + 1
    && st.orders[0] == EMPTY_ORDER
    && SideLinked(c, Buy, b.bids, st.bidLevels, st.orders)
    && SideLinked(c, Sell, b.asks, st.askLevels, st.orders)
    && Slots(c, b, stack, held)
    && FreeOk(stack, st.orders)
  }

  ghost predicate SideLinked(c: Config, side: Side, s: seq<Resting>, levels: seq<Level>, orders: seq<Order>) {
    && Sorted(side, s)
    && (forall k :: 0 <= k < |s| ==> c.minPx <= s[k].px <= c.maxPx)
    && HeadsOk(s, levels)
    && NodesOk(side, s, orders)
  }

  ghost predicate Counted(b: Sides, st: Store) {
    QtyOk(b.bids, st.bidLevels, st.orders) && QtyOk(b.asks, st.askLevels, st.orders)
  }

  /** The store represents the queues b and the free stack, with some slots in use by a call. */
  ghost predicate Represents(c: Config, b: Sides, stack: seq<nat>, held: seq<nat>, st: Store) {
    Linked(c, b, stack, held, st) && Counted(b, st) && SidesOk(c, b)
  }

  lemma LinkedOn(c: Config, b: Sides, stack: seq<nat>, held: seq<nat>, st: Store, side: Side)
    requires Linked(c, b, stack, held, st)
    ensures SideLinked(c, side, b.On(side), st.Levels(side), st.orders)
    ensures |st.Levels(side)| == c.maxPx + 1
    ensures Distinct(b.On(side))
    ensures forall i :: 0 <= i < |b.On(side)| ==> 1 <= b.On(side)[i].id <= c.maxOrders
  {
    var s := b.On(side);
    forall i | 0 <= i < |s|
      ensures 1 <= s[i].id <= c.maxOrders
      ensures forall j :: 0 <= j < |s| && j != i ==> s[j].id != s[i].id
    {
      SlotAt(c, b, stack, held, side, i);
    }
  }

  lemma LinkedFromSides(c: Config, b: Sides, stack: seq<nat>, held: seq<nat>, st: Store, side: Side)
    requires |st.bidLevels| == |st.askLevels| == c.maxPx + 1 && |st.orders| == c.maxOrders + 1
             && st.orders[0] == EMPTY_ORDER
    requires SideLinked(c, side, b.On(side), st.Levels(side), st.orders)
    requires SideLinked(c, side.Opposite(), b.On(side.Opposite()), st.Levels(side.Opposite()), st.orders)
    requires Slots(c, b, stack, held) && FreeOk(stack, st.orders)
    ensures Linked(c, b, stack, held, st)
  {
  }

  /** Orders outside these slots are looked at by nobody else. */
  lemma OtherSideFrame(c: Config, b: Sides, stack: seq<nat>, held: seq<nat>, side: Side, orders: seq<Order>,
                       orders': seq<Order>, free': seq<nat>)
    requires Slots(c, b, stack, held)
    requires NodesOk(side.Opposite(), b.On(side.Opposite()), orders)
    requires |orders'| == |orders| == c.maxOrders + 1
    requires forall j: nat :: 1 <= j <= c.maxOrders && j !in Ids(b.On(side)) && j !in held ==> orders'[j] == orders[j]
    requires FreeOk(stack, orders)
    ensures NodesOk(side.Opposite(), b.On(side.Opposite()), orders')
    ensures forall k :: 0 <= k < |b.On(side.Opposite())| ==>
              var id := b.On(side.Opposite())[k].id;
              id <= c.maxOrders && orders'[id] == orders[id]
    ensures FreeOk(stack, orders')
  {
    var o := b.On(side.Opposite());
    forall k | 0 <= k < |o|
      ensures NodeOk(side.Opposite(), o, k, orders') && orders'[o[k].id] == orders[o[k].id]
    {
      SlotAt(c, b, stack, held, side.Opposite(), k);
      assert NodeOk(side.Opposite(), o, k, orders);
    }
    forall i | 0 <= i < |stack|
      ensures 0 < stack[i] < |orders'| && orders'[stack[i]] == EMPTY_ORDER
    {
      StackAt(c, b, stack, held, i);
    }
  }

  // ---------- unlink ----------

  /** levels' differs from levels only where taking out s[k] moves an end of its level. */
  ghost predicate Detached(s: seq<Resting>, k: nat, levels: seq<Level>, levels': seq<Level>)
    requires k < |s|
  {
    && |levels'| == |levels|
    && (forall p :: 0 <= p < |levels| ==> levels'[p].qty == levels[p].qty)
    && (forall p :: 0 <= p < |levels| && p != s[k].px ==>
          levels'[p].head == levels[p].head && levels'[p].tail == levels[p].tail)
    && (s[k].px < |levels| ==>
          && levels'[s[k].px].head == (if PrevId(s, k) == 0 then NextId(s, k) else levels[s[k].px].head)
          && levels'[s[k].px].tail == (if NextId(s, k) == 0 then PrevId(s, k) else levels[s[k].px].tail))
  }

  lemma UnlinkKeeps(c: Config, b: Sides, stack: seq<nat>, held: seq<nat>, st: Store, st': Store, side: Side, k: nat)
    requires Linked(c, b, stack, held, st)
    requires k < |b.On(side)| && b.On(side)[k].id < |st.orders|
    requires Bypassed(st.orders, st'.orders, b.On(side)[k].id)
    requires Detached(b.On(side), k, st.Levels(side), st'.Levels(side))
    requires st'.Levels(side.Opposite()) == st.Levels(side.Opposite())
    ensures Linked(c, b.With(side, Remove(b.On(side), k)), stack, held + [b.On(side)[k].id], st')
  {
    var s := b.On(side);
    LinkedOn(c, b, stack, held, st, side);
    LinkedOn(c, b, stack, held, st, side.Opposite());
    BypassFrame(side, s, k, st.orders, st'.orders);
    OtherSideFrame(c, b, stack, held, side, st.orders, st'.orders, stack);
    SlotsRemove(c, b, stack, held, side, k);
    UnlinkSide(c, side, s, k, st.Levels(side), st'.Levels(side), st.orders, st'.orders);
    LinkedFromSides(c, b.With(side, Remove(s, k)), stack, held + [s[k].id], st', side);
  }

  lemma UnlinkSide(c: Config, side: Side, s: seq<Resting>, k: nat, levels: seq<Level>, levels': seq<Level>,
                   orders: seq<Order>, orders': seq<Order>)
    requires SideLinked(c, side, s, levels, orders) && Distinct(s)
    requires k < |s| && s[k].id < |orders|
    requires forall i :: 0 <= i < |s| ==> s[i].id > 0
    requires Bypassed(orders, orders', s[k].id)
    requires Detached(s, k, levels, levels')
    ensures SideLinked(c, side, Remove(s, k), levels', orders')
  {
    UnlinkNodes(side, s, k, orders, orders');
    UnlinkHeads(side, s, k, levels, levels');
    RemoveSorted(side, s, k);
    var r := Remove(s, k);
    assert forall i :: 0 <= i < |r| ==> r[i] == s[if i < k then i else i + 1];
  }

  lemma BypassFrame(side: Side, s: seq<Resting>, k: nat, orders: seq<Order>, orders': seq<Order>)
    requires k < |s| && NodesOk(side, s, orders) && s[k].id < |orders|
    requires Bypassed(orders, orders', s[k].id)
    ensures forall j: nat :: j < |orders| && j !in Ids(s) ==> orders'[j] == orders[j]
  {
    var ids := Ids(s);
    assert NodeOk(side, s, k, orders);
    assert ids[k] == s[k].id;
    assert k > 0 ==> ids[k - 1] == s[k - 1].id;
    assert k + 1 < |s| ==> ids[k + 1] == s[k + 1].id;
    forall j: nat | j < |orders| && j !in ids
      ensures orders'[j] == orders[j]
    {
      assert orders'[j] == Bypass(orders, s[k].id, j);
    }
  }

  // ---------- release and acquire ----------

  lemma ReleaseKeeps(c: Config, b: Sides, stack: seq<nat>, held: seq<nat>, id: nat, st: Store, st': Store)
    requires Linked(c, b, stack, held + [id], st) && Counted(b, st)
    requires id < |st.orders|
    requires st' == st.(orders := st.orders[id := EMPTY_ORDER])
    ensures Linked(c, b, stack + [id], held, st') && Counted(b, st')
  {
    HeldFrame(c, b, stack, held + [id], |held|, st, st');
    SlotsRelease(c, b, stack, held, id);
    HeldAt(c, b, stack, held + [id], |held|);
    var stack' := stack + [id];
    assert forall i :: 0 <= i < |stack'| ==> stack'[i] == if i < |stack| then stack[i] else id;
  }

  /** Rewriting a held slot disturbs nothing. */
  lemma HeldFrame(c: Config, b: Sides, stack: seq<nat>, held: seq<nat>, h: nat, st: Store, st': Store)
    requires Linked(c, b, stack, held, st)
    requires h < |held| && held[h] < |st.orders|
    requires |st'.orders| == |st.orders| && st'.bidLevels == st.bidLevels && st'.askLevels == st.askLevels
    requires forall j :: 0 <= j < |st.orders| && j != held[h] ==> st'.orders[j] == st.orders[j]
    ensures Linked(c, b, stack, held, st')
    ensures Counted(b, st) ==> Counted(b, st')
  {
    HeldAt(c, b, stack, held, h);
    HeldFrameSide(c, b, stack, held, h, st, st', Buy);
    HeldFrameSide(c, b, stack, held, h, st, st', Sell);
  }

  lemma HeldFrameSide(c: Config, b: Sides, stack: seq<nat>, held: seq<nat>, h: nat, st: Store, st': Store, side: Side)
    requires Linked(c, b, stack, held, st)
    requires h < |held| && held[h] < |st.orders|
    requires |st'.orders| == |st.orders| && st'.bidLevels == st.bidLevels && st'.askLevels == st.askLevels
    requires forall j :: 0 <= j < |st.orders| && j != held[h] ==> st'.orders[j] == st.orders[j]
    ensures SideLinked(c, side, b.On(side), st'.Levels(side), st'.orders)
    ensures QtyOk(b.On(side), st.Levels(side), st.orders) ==> QtyOk(b.On(side), st'.Levels(side), st'.orders)
  {
    var s := b.On(side);
    forall k | 0 <= k < |s|
      ensures s[k].id < |st.orders| && st'.orders[s[k].id] == st.orders[s[k].id]
      ensures NodeOk(side, s, k, st'.orders)
    {
      SlotAt(c, b, stack, held, side, k);
      assert NodeOk(side, s, k, st.orders);
    }
  }

  /** The held slot may be rewritten freely. */
  lemma HeldUpdate(c: Config, b: Sides, stack: seq<nat>, id: nat, st: Store, o: Order)
    requires Represents(c, b, stack, [id], st)
    ensures 1 <= id < |st.orders| && Represents(c, b, stack, [id], st.(orders := st.orders[id := o]))
  {
    HeldAt(c, b, stack, [id], 0);
    HeldFrame(c, b, stack, [id], 0, st, st.(orders := st.orders[id := o]));
  }

  lemma AcquireKeeps(c: Config, b: Sides, stack: seq<nat>, st: Store)
    requires Represents(c, b, stack, [], st) && stack != []
    ensures var n := |stack| - 1; Represents(c, b, stack[..n], [stack[n]], st)
    ensures var n := |stack| - 1; 1 <= stack[n] <= c.maxOrders && st.orders[stack[n]] == EMPTY_ORDER
  {
    SlotsAcquire(c, b, stack);
  }

  // ---------- rest ----------

  /** levels' differs from levels only where o joins its level. */
  ghost predicate Joined(o: Resting, levels: seq<Level>, levels': seq<Level>) {
    && |levels'| == |levels|
    && (forall p :: 0 <= p < |levels| && p != o.px ==> levels'[p] == levels[p])
    && (o.px < |levels| ==>
          levels'[o.px] == Level(if levels[o.px].tail != 0 then levels[o.px].head else o.id, o.id,
                                 levels[o.px].qty + o.qty))
  }

  lemma RestKeeps(c: Config, b: Sides, stack: seq<nat>, st: Store, st': Store, side: Side, o: Resting)
    requires Represents(c, b, stack, [o.id], st)
    requires c.minPx <= o.px <= c.maxPx && o.qty > 0 && Room(b, side, o.px, o.qty)
    requires 0 < o.id < |st.orders|
    requires st.orders[o.id].px == o.px && st.orders[o.id].side == side && st.orders[o.id].qty == o.qty
    requires Appended(st.orders, st'.orders, o.id, TailId(b.On(side), o.px))
    requires Joined(o, st.Levels(side), st'.Levels(side))
    requires st'.Levels(side.Opposite()) == st.Levels(side.Opposite())
    ensures Represents(c, b.With(side, Enqueue(side, b.On(side), o)), stack, [], st')
  {
    hide Represents, Linked, Counted, SidesOk, QtyOk, SideOk, Slots, FreeOk;
    var s := b.On(side);
    Parts(c, b, stack, [o.id], st, side);
    Parts(c, b, stack, [o.id], st, side.Opposite());
    HeldAt(c, b, stack, [o.id], 0);
    AppendFrame(s, o, st.orders, st'.orders);
    OtherSideFrame(c, b, stack, [o.id], side, st.orders, st'.orders, stack);
    SlotsEnqueue(c, b, stack, side, o);
    RestSide(c, b, stack, st, st', side, o);
    RestLinks(c, side, s, o, st.Levels(side), st'.Levels(side), st.orders, st'.orders);
    LinkedFromSides(c, b.With(side, Enqueue(side, s, o)), stack, [], st', side);
    Whole(c, b.With(side, Enqueue(side, s, o)), stack, [], st');
  }

  lemma Whole(c: Config, b: Sides, stack: seq<nat>, held: seq<nat>, st: Store)
    requires Linked(c, b, stack, held, st) && Counted(b, st) && SidesOk(c, b)
    ensures Represents(c, b, stack, held, st)
  {
  }

  lemma JoinedHeads(side: Side, s: seq<Resting>, o: Resting, levels: seq<Level>, levels': seq<Level>)
    requires Sorted(side, s) && o.id > 0 && HeadsOk(s, levels) && Joined(o, levels, levels')
    requires forall i :: 0 <= i < |s| ==> s[i].id > 0
    ensures HeadsOk(Enqueue(side, s, o), levels')
  {
    RestHeads(side, s, o, levels, levels');
  }

  lemma RestLinks(c: Config, side: Side, s: seq<Resting>, o: Resting, levels: seq<Level>, levels': seq<Level>,
                  orders: seq<Order>, orders': seq<Order>)
    requires SideLinked(c, side, s, levels, orders) && Distinct(s)
    requires o.id !in Ids(s) && c.minPx <= o.px <= c.maxPx
    requires forall i :: 0 <= i < |s| ==> s[i].id > 0
    requires 0 < o.id < |orders| && orders[o.id].px == o.px && orders[o.id].side == side
    requires Appended(orders, orders', o.id, TailId(s, o.px))
    requires Joined(o, levels, levels')
    ensures SideLinked(c, side, Enqueue(side, s, o), levels', orders')
  {
    hide HeadsOk, NodesOk, Sorted, Appended, Distinct, Slot;
    assert forall i :: 0 <= i < |s| ==> Ids(s)[i] == s[i].id;
    RestNodes(side, s, o, orders, orders');
    JoinedHeads(side, s, o, levels, levels');
    EnqueueSorted(side, s, o);
    var e := Enqueue(side, s, o);
    var k := Slot(side, s, o.px);
    assert forall i :: 0 <= i < |e| ==> e[i] == if i < k then s[i] else if i == k then o else s[i - 1];
  }

  lemma AppendFrame(s: seq<Resting>, o: Resting, orders: seq<Order>, orders': seq<Order>)
    requires o.id < |orders|
    requires Appended(orders, orders', o.id, TailId(s, o.px))
    ensures forall j: nat :: j < |orders| && j !in Ids(s) && j != o.id ==> orders'[j] == orders[j]
    ensures forall j: nat :: j < |orders| ==> orders'[j].qty == orders[j].qty
  {
    var ids := Ids(s);
    var l := Last(s, o.px);
    assert l > 0 ==> ids[l - 1] == s[l - 1].id;
    forall j: nat | j < |orders|
      ensures orders'[j].qty == orders[j].qty
      ensures j !in ids && j != o.id ==> orders'[j] == orders[j]
    {
      assert orders'[j] == Append(orders, o.id, TailId(s, o.px), j);
    }
  }

  lemma RestSide(c: Config, b: Sides, stack: seq<nat>, st: Store, st': Store, side: Side, o: Resting)
    requires Represents(c, b, stack, [o.id], st)
    requires c.minPx <= o.px <= c.maxPx && o.qty > 0 && Room(b, side, o.px, o.qty)
    requires 0 < o.id < |st.orders| && |st'.orders| == |st.orders| && st.orders[o.id].qty == o.qty
    requires forall j :: 0 <= j < |st.orders| ==> st'.orders[j].qty == st.orders[j].qty
    requires Joined(o, st.Levels(side), st'.Levels(side))
    requires st'.Levels(side.Opposite()) == st.Levels(side.Opposite())
    ensures var b' := b.With(side, Enqueue(side, b.On(side), o)); SidesOk(c, b') && Counted(b', st')
  {
    hide SideLinked, SidesOk, Room, Enqueue, TotalAt, Slots, FreeOk;
    EnqueueOk(c, b, side, o);
    RestQty(side, b.On(side), o, st.Levels(side), st'.Levels(side), st.orders, st'.orders);
    OtherSideCounted(b, st, st', side);
  }

  // ---------- fill ----------

  lemma ReduceKeeps(c: Config, b: Sides, stack: seq<nat>, held: seq<nat>, st: Store, st': Store, side: Side, take: nat)
    requires Represents(c, b, stack, held, st)
    requires b.On(side) != [] && take <= b.On(side)[0].qty
    requires b.On(side)[0].id < |st.orders| && b.On(side)[0].px < |st.Levels(side)|
    requires take <= st.orders[b.On(side)[0].id].qty && take <= st.Levels(side)[b.On(side)[0].px].qty
    requires var id := b.On(side)[0].id; st'.orders == st.orders[id := st.orders[id].(qty := st.orders[id].qty - take)]
    requires var px, l := b.On(side)[0].px, st.Levels(side);
             st'.Levels(side) == l[px := l[px].(qty := l[px].qty - take)]
    requires st'.Levels(side.Opposite()) == st.Levels(side.Opposite())
    ensures var b' := b.With(side, Reduced(b.On(side), take)); Linked(c, b', stack, held, st') && Counted(b', st')
    ensures take < b.On(side)[0].qty ==> SidesOk(c, b.With(side, Reduced(b.On(side), take)))
  {
    hide Represents, Linked, Counted, SidesOk, SideLinked, QtyOk, SideOk, Slots, FreeOk;
    var s := b.On(side);
    Parts(c, b, stack, held, st, side);
    ReduceOther(c, b, stack, held, st, st', side);
    SlotsReduce(c, b, stack, held, side, 0, s[0].qty - take);
    ReduceSide(c, side, s, st.Levels(side), st'.Levels(side), st.orders, st'.orders, take);
    ReplaceSide(c, b, stack, held, st', side, Reduced(s, take));
  }

  /** What a represented book says about one side. */
  lemma Parts(c: Config, b: Sides, stack: seq<nat>, held: seq<nat>, st: Store, side: Side)
    requires Represents(c, b, stack, held, st)
    ensures Linked(c, b, stack, held, st) && Counted(b, st) && SidesOk(c, b) && Slots(c, b, stack, held)
            && FreeOk(stack, st.orders)
    ensures SideLinked(c, side, b.On(side), st.Levels(side), st.orders)
    ensures QtyOk(b.On(side), st.Levels(side), st.orders) && SideOk(c, side, b.On(side))
    ensures |st.bidLevels| == |st.askLevels| == c.maxPx + 1 && |st.orders| == c.maxOrders + 1
            && st.orders[0] == EMPTY_ORDER
    ensures Distinct(b.On(side))
    ensures forall i :: 0 <= i < |b.On(side)| ==> 1 <= b.On(side)[i].id <= c.maxOrders
  {
    LinkedOn(c, b, stack, held, st, side);
  }

  /** Putting a checked queue in place of one side. */
  lemma ReplaceSide(c: Config, b: Sides, stack: seq<nat>, held: seq<nat>, st: Store, side: Side, s: seq<Resting>)
    requires |st.bidLevels| == |st.askLevels| == c.maxPx + 1 && |st.orders| == c.maxOrders + 1
             && st.orders[0] == EMPTY_ORDER
    requires SideLinked(c, side, s, st.Levels(side), st.orders) && QtyOk(s, st.Levels(side), st.orders)
    requires SideLinked(c, side.Opposite(), b.On(side.Opposite()), st.Levels(side.Opposite()), st.orders)
    requires QtyOk(b.On(side.Opposite()), st.Levels(side.Opposite()), st.orders)
    requires Slots(c, b.With(side, s), stack, held) && FreeOk(stack, st.orders)
    ensures Linked(c, b.With(side, s), stack, held, st) && Counted(b.With(side, s), st)
    ensures SidesOk(c, b) && SideOk(c, side, s) ==> SidesOk(c, b.With(side, s))
  {
  }

  lemma ReduceOther(c: Config, b: Sides, stack: seq<nat>, held: seq<nat>, st: Store, st': Store, side: Side)
    requires Linked(c, b, stack, held, st) && Counted(b, st)
    requires b.On(side) != [] && |st'.orders| == |st.orders|
    requires forall j :: 0 <= j < |st.orders| && j != b.On(side)[0].id ==> st'.orders[j] == st.orders[j]
    requires st'.Levels(side.Opposite()) == st.Levels(side.Opposite())
    ensures SideLinked(c, side.Opposite(), b.On(side.Opposite()), st'.Levels(side.Opposite()), st'.orders)
    ensures QtyOk(b.On(side.Opposite()), st'.Levels(side.Opposite()), st'.orders)
    ensures FreeOk(stack, st'.orders)
  {
    assert Ids(b.On(side))[0] == b.On(side)[0].id;
    LinkedOn(c, b, stack, held, st, side.Opposite());
    OtherSideFrame(c, b, stack, held, side, st.orders, st'.orders, stack);
    OtherSideCounted(b, st, st', side);
  }

  lemma OtherSideCounted(b: Sides, st: Store, st': Store, side: Side)
    requires Counted(b, st) && |st'.orders| == |st.orders|
    requires st'.Levels(side.Opposite()) == st.Levels(side.Opposite())
    requires forall k :: 0 <= k < |b.On(side.Opposite())| ==>
               var id := b.On(side.Opposite())[k].id; id < |st.orders| && st'.orders[id].qty == st.orders[id].qty
    ensures QtyOk(b.On(side.Opposite()), st'.Levels(side.Opposite()), st'.orders)
  {
    assert QtyOk(b.On(side.Opposite()), st.Levels(side.Opposite()), st.orders);
  }

  /** Less quantity at the front changes no link. */
  lemma ReduceLinks(c: Config, side: Side, s: seq<Resting>, levels: seq<Level>, levels': seq<Level>,
                    orders: seq<Order>, orders': seq<Order>, take: nat)
    requires SideLinked(c, side, s, levels, orders) && SideOk(c, side, s)
    requires s != [] && take <= s[0].qty && s[0].id < |orders| && s[0].px < |levels| && take <= orders[s[0].id].qty
    requires take <= levels[s[0].px].qty
    requires orders' == orders[s[0].id := orders[s[0].id].(qty := orders[s[0].id].qty - take)]
    requires levels' == levels[s[0].px := levels[s[0].px].(qty := levels[s[0].px].qty - take)]
    ensures SideLinked(c, side, Reduced(s, take), levels', orders')
  {
    hide SideOk, HeadId, TailId, Sorted, Reduced, TotalAt;
    var s' := Reduced(s, take);
    ReduceQueue(c, side, s, take);
    SameEnds(s, s');
    forall k | 0 <= k < |s'|
      ensures NodeOk(side, s', k, orders')
    {
      assert NodeOk(side, s, k, orders);
    }
  }

  /** The front order, its record and its level lose the same quantity. */
  lemma ReduceQtys(c: Config, side: Side, s: seq<Resting>, levels: seq<Level>, levels': seq<Level>,
                   orders: seq<Order>, orders': seq<Order>, take: nat)
    requires Distinct(s) && QtyOk(s, levels, orders) && SideOk(c, side, s)
    requires s != [] && take <= s[0].qty && s[0].id < |orders| && s[0].px < |levels| && take <= orders[s[0].id].qty
    requires take <= levels[s[0].px].qty
    requires orders' == orders[s[0].id := orders[s[0].id].(qty := orders[s[0].id].qty - take)]
    requires levels' == levels[s[0].px := levels[s[0].px].(qty := levels[s[0].px].qty - take)]
    ensures QtyOk(Reduced(s, take), levels', orders')
  {
    hide SideOk, Sorted, TotalAt;
    ReduceQueue(c, side, s, take);
    assert forall k :: 0 < k < |s| ==> s[k].id != s[0].id;
  }

  lemma ReduceSide(c: Config, side: Side, s: seq<Resting>, levels: seq<Level>, levels': seq<Level>, orders: seq<Order>,
                   orders': seq<Order>, take: nat)
    requires SideLinked(c, side, s, levels, orders) && Distinct(s) && QtyOk(s, levels, orders) && SideOk(c, side, s)
    requires s != [] && take <= s[0].qty && s[0].id < |orders| && s[0].px < |levels|
    requires take <= orders[s[0].id].qty && take <= levels[s[0].px].qty
    requires orders' == orders[s[0].id := orders[s[0].id].(qty := orders[s[0].id].qty - take)]
    requires levels' == levels[s[0].px := levels[s[0].px].(qty := levels[s[0].px].qty - take)]
    ensures SideLinked(c, side, Reduced(s, take), levels', orders')
    ensures QtyOk(Reduced(s, take), levels', orders')
    ensures take < s[0].qty ==> SideOk(c, side, Reduced(s, take))
  {
    hide SideLinked, QtyOk, SideOk, Distinct;
    ReduceQueue(c, side, s, take);
    ReduceLinks(c, side, s, levels, levels', orders, orders', take);
    ReduceQtys(c, side, s, levels, levels', orders, orders', take);
  }

  /** Heads and tails depend on ids and prices only. */
  lemma SameEnds(s: seq<Resting>, t: seq<Resting>)
    requires |s| == |t|
    requires forall k :: 0 <= k < |s| ==> t[k].id == s[k].id && t[k].px == s[k].px
    ensures forall p :: HeadId(t, p) == HeadId(s, p) && TailId(t, p) == TailId(s, p)
  {
    forall p
      ensures First(t, p) == First(s, p) && Last(t, p) == Last(s, p)
    {
      var f, g := First(s, p), First(t, p);
      assert f < |s| ==> t[f].px == p;
      assert g < |t| ==> s[g].px == p;
      var l, m := Last(s, p), Last(t, p);
      assert l > 0 ==> t[l - 1].px == p;
      assert m > 0 ==> s[m - 1].px == p;
    }
  }

  // ---------- level ends and totals ----------

  /** The front of a queue, read off its best level. */
  lemma FrontLevel(c: Config, side: Side, s: seq<Resting>, px: nat)
    requires SideOk(c, side, s)
    requires forall i :: 0 <= i < |s| ==> s[i].id > 0
    requires s == [] || !Ahead(side, s[0].px, px)
    ensures HeadId(s, px) == (if s != [] && s[0].px == px then s[0].id else 0)
    ensures TotalAt(s, px) == 0 <==> s == [] || s[0].px != px
    ensures s != [] && s[0].px == px ==> s[0].qty <= TotalAt(s, px)
  {
    var f := First(s, px);
    assert 0 < f < |s| ==> !Ahead(side, s[f].px, s[0].px);
    TotalAtZero(s, px);
  }
}
