/**
 The same rules over ordered maps and queues: the control book. Levels are a map from price to a
 first-in first-out list of ids, orders a map from id to record, ids a counter.
 */
module TreeBook {
  import opened Wrappers
  import opened LobTypes
  import opened PriceTime
  import opened Trading
  import opened SlotLaws
  import opened TradingLaws
  import opened LimitLaws
  import opened MatchProgress

  datatype TreeLevel = TreeLevel(fifo: seq<nat>, qty: nat)
  datatype Rec = Rec(px: nat, qty: nat, side: Side)

  datatype Shelf = Shelf(bids: map<nat, TreeLevel>, asks: map<nat, TreeLevel>, orders: map<nat, Rec>) {
    function On(side: Side): map<nat, TreeLevel> { if side.Buy? then bids else asks }

    function With(side: Side, m: map<nat, TreeLevel>): Shelf {
      if side.Buy? then this.(bids := m) else this.(asks := m)
    }
  }

  /** levels holds s price by price; only the level `open` may be empty (0: none may). */
  ghost predicate LevelsHold(s: seq<Resting>, levels: map<nat, TreeLevel>, open: nat) {
    && (forall k :: 0 <= k < |s| ==> s[k].px in levels)
    && (forall p :: p in levels ==>
          levels[p] == TreeLevel(LevelIds(s, p), TotalAt(s, p)) && (levels[p].fifo == [] ==> p == open != 0))
  }

  ghost predicate RecsHold(side: Side, s: seq<Resting>, orders: map<nat, Rec>) {
    forall k :: 0 <= k < |s| ==> s[k].id in orders && orders[s[k].id] == Rec(s[k].px, s[k].qty, side)
  }

  ghost predicate Distinctly(b: Sides, below: nat) {
    forall id: nat :: Uses(b, [], [])[id] <= if 1 <= id < below then 1 else 0
  }

  /** The shelf stores the queues b; `side`'s level `open` may be empty. */
  ghost predicate Stores(c: Config, b: Sides, below: nat, st: Shelf, side: Side, open: nat) {
    && c.minPx >= 1 && SidesOk(c, b) && Distinctly(b, below)
    && LevelsHold(b.On(side), st.On(side), open)
    && LevelsHold(b.On(side.Opposite()), st.On(side.Opposite()), 0)
    && RecsHold(Buy, b.bids, st.orders) && RecsHold(Sell, b.asks, st.orders)
    && NoStrays(b, st.orders)
  }

  /** Changing one record leaves a side alone that does not have it. */
  lemma RecsFrame(side: Side, s: seq<Resting>, orders: map<nat, Rec>, orders': map<nat, Rec>, id: nat)
    requires RecsHold(side, s, orders) && id !in Ids(s)
    requires forall j :: j in orders && j != id ==> j in orders' && orders'[j] == orders[j]
    ensures RecsHold(side, s, orders')
  {
    forall k | 0 <= k < |s|
      ensures s[k].id in orders' && orders'[s[k].id] == Rec(s[k].px, s[k].qty, side)
    {
      assert Ids(s)[k] == s[k].id;
    }
  }

  /** Every record is an order of the book. */
  ghost predicate NoStrays(b: Sides, orders: map<nat, Rec>) {
    forall id :: id in orders ==> id in Ids(b.bids) || id in Ids(b.asks)
  }

  lemma NoStraysWithout(b: Sides, orders: map<nat, Rec>, side: Side, k: nat)
    requires NoStrays(b, orders) && k < |b.On(side)|
    ensures NoStrays(b.With(side, Remove(b.On(side), k)), orders - {b.On(side)[k].id})
  {
    var s := b.On(side);
    var rest := Remove(s, k);
    forall id | id in Ids(s) && id != s[k].id
      ensures id in Ids(rest)
    {
      var i :| 0 <= i < |s| && Ids(s)[i] == id;
      assert Ids(rest)[if i < k then i else i - 1] == id;
    }
  }

  lemma NoStraysWith(b: Sides, orders: map<nat, Rec>, side: Side, o: Resting, r: Rec)
    requires NoStrays(b, orders)
    ensures NoStrays(b.With(side, Enqueue(side, b.On(side), o)), orders[o.id := r])
  {
    var s := b.On(side);
    var e := Enqueue(side, s, o);
    IdsEnqueue(side, s, o);
    forall id | id in Ids(s) || id == o.id
      ensures id in Ids(e)
    {
      assert id in multiset(Ids(s)) <==> id in Ids(s);
      assert id in multiset(Ids(e)) <==> id in Ids(e);
    }
  }

  lemma DistinctAt(b: Sides, below: nat, side: Side, k: nat)
    requires Distinctly(b, below) && k < |b.On(side)|
    ensures var id := b.On(side)[k].id;
            && 1 <= id < below && id !in Ids(b.On(side.Opposite()))
            && (forall j :: 0 <= j < |b.On(side)| && j != k ==> b.On(side)[j].id != id)
  {
    var ids := Ids(b.On(side));
    var id := b.On(side)[k].id;
    assert ids[k] == id && id in multiset(ids);
    assert Uses(b, [], [])[id] == multiset(ids)[id] + multiset(Ids(b.On(side.Opposite())))[id];
    assert id in multiset(Ids(b.On(side.Opposite()))) <==> id in Ids(b.On(side.Opposite()));
    forall j | 0 <= j < |ids| && j != k
      ensures ids[j] != id
    {
      if ids[j] == id {
        TwiceIsTwo(ids, if j < k then j else k, if j < k then k else j);
        assert false;
      }
    }
    assert forall j :: 0 <= j < |ids| ==> ids[j] == b.On(side)[j].id;
  }

  lemma DistinctlyRemove(b: Sides, below: nat, side: Side, k: nat)
    requires Distinctly(b, below) && k < |b.On(side)|
    ensures Distinctly(b.With(side, Remove(b.On(side), k)), below)
  {
    IdsRemove(b.On(side), k);
    var b' := b.With(side, Remove(b.On(side), k));
    assert forall id: nat :: Uses(b', [], [])[id] <= Uses(b, [], [])[id];
  }

  lemma DistinctlyReduce(b: Sides, below: nat, side: Side, qty: nat)
    requires Distinctly(b, below) && b.On(side) != []
    ensures Distinctly(b.With(side, b.On(side)[0 := b.On(side)[0].(qty := qty)]), below)
  {
    var b' := b.With(side, b.On(side)[0 := b.On(side)[0].(qty := qty)]);
    assert Ids(b'.On(side)) == Ids(b.On(side));
    assert Uses(b', [], []) == Uses(b, [], []);
  }

  lemma DistinctlyEnqueue(b: Sides, side: Side, o: Resting)
    requires Distinctly(b, o.id) && o.id >= 1
    ensures Distinctly(b.With(side, Enqueue(side, b.On(side), o)), o.id + 1)
    ensures o.id !in Ids(b.bids) && o.id !in Ids(b.asks)
  {
    IdsEnqueue(side, b.On(side), o);
    var b' := b.With(side, Enqueue(side, b.On(side), o));
    assert Uses(b, [], [])[o.id] == 0;
    assert o.id in multiset(Ids(b.bids)) <==> o.id in Ids(b.bids);
    assert o.id in multiset(Ids(b.asks)) <==> o.id in Ids(b.asks);
    assert forall id: nat :: Uses(b', [], [])[id] == Uses(b, [], [])[id] + if id == o.id then 1 else 0;
  }

  // ---------- one fill ----------

  /** The shelf after the front order of `side` at px gave up take. */
  function Fill(st: Shelf, side: Side, px: nat, makerId: nat, take: nat): Shelf
    requires makerId in st.orders && px in st.On(side) && take <= st.orders[makerId].qty
    requires take <= st.On(side)[px].qty && st.On(side)[px].fifo != []
  {
    var r := st.orders[makerId];
    var lv := st.On(side)[px];
    var gone := take == r.qty;
    var levels := st.On(side)[px := TreeLevel(if gone then lv.fifo[1..] else lv.fifo, lv.qty - take)];
    st.(orders := if gone then st.orders - {makerId}
        else st.orders[makerId := r.(qty := r.qty - take)]).With(side, levels)
  }

  function FrontLess(s: seq<Resting>, take: nat): seq<Resting>
    requires s != [] && take <= s[0].qty
  {
    if take == s[0].qty then s[1..] else Reduced(s, take)
  }

  /** The records of the front order. */
  lemma FrontStored(c: Config, b: Sides, below: nat, st: Shelf, side: Side, open: nat)
    requires Stores(c, b, below, st, side, open) && b.On(side) != []
    ensures var r := b.On(side)[0];
            && r.qty > 0 && c.minPx <= r.px <= c.maxPx && r.px in st.On(side) && r.id in st.orders
            && st.orders[r.id] == Rec(r.px, r.qty, side)
            && st.On(side)[r.px].fifo != [] && st.On(side)[r.px].fifo[0] == r.id
            && r.qty <= st.On(side)[r.px].qty
  {
    assert SideOk(c, side, b.On(side));
    assert LevelsHold(b.On(side), st.On(side), open);
    assert RecsHold(side, b.On(side), st.orders);
  }

  lemma FillLevels(s: seq<Resting>, levels: map<nat, TreeLevel>, take: nat)
    requires s != [] && take <= s[0].qty && LevelsHold(s, levels, s[0].px) && s[0].px in levels && s[0].px > 0
    requires take <= levels[s[0].px].qty && levels[s[0].px].fifo != []
    ensures var lv := levels[s[0].px];
            LevelsHold(FrontLess(s, take),
                       levels[s[0].px := TreeLevel(if take == s[0].qty then lv.fifo[1..] else lv.fifo,
                                                   lv.qty - take)], s[0].px)
  {
    var s' := FrontLess(s, take);
    if take != s[0].qty {
      assert s'[1..] == s[1..];
    }
    assert forall k :: 0 <= k < |s'| ==> s'[k].px == s[k + |s| - |s'|].px;
  }

  lemma FillOk(c: Config, b: Sides, side: Side, take: nat)
    requires SidesOk(c, b) && b.On(side) != [] && take <= b.On(side)[0].qty
    ensures SidesOk(c, b.With(side, FrontLess(b.On(side), take)))
  {
    var s := b.On(side);
    assert SideOk(c, side, s);
    if take == s[0].qty {
      RemoveOk(c, b, side, 0);
      assert Remove(s, 0) == s[1..];
    } else {
      ReduceQueue(c, side, s, take);
    }
  }

  lemma FillRecs(b: Sides, below: nat, side: Side, orders: map<nat, Rec>, take: nat)
    requires Distinctly(b, below) && b.On(side) != [] && take <= b.On(side)[0].qty
    requires RecsHold(side, b.On(side), orders) && RecsHold(side.Opposite(), b.On(side.Opposite()), orders)
    requires NoStrays(b, orders)
    ensures var r := b.On(side)[0];
            var b' := b.With(side, FrontLess(b.On(side), take));
            var orders' := if take == r.qty then orders - {r.id}
                else orders[r.id := orders[r.id].(qty := r.qty - take)];
            && RecsHold(side, b'.On(side), orders') && RecsHold(side.Opposite(), b'.On(side.Opposite()), orders')
            && NoStrays(b', orders')
  {
    var s, o := b.On(side), b.On(side.Opposite());
    var r := s[0];
    var s' := FrontLess(s, take);
    var orders' := if take == r.qty then orders - {r.id} else orders[r.id := orders[r.id].(qty := r.qty - take)];
    DistinctAt(b, below, side, 0);
    RecsFrame(side.Opposite(), o, orders, orders', r.id);
    FillSideRecs(side, s, orders, take);
    if take == r.qty {
      NoStraysWithout(b, orders, side, 0);
      assert Remove(s, 0) == s[1..];
    } else {
      assert Ids(s') == Ids(s);
    }
  }

  lemma FillSideRecs(side: Side, s: seq<Resting>, orders: map<nat, Rec>, take: nat)
    requires RecsHold(side, s, orders) && s != [] && take <= s[0].qty
    requires forall j :: 1 <= j < |s| ==> s[j].id != s[0].id
    ensures var r := s[0];
            r.id in orders && RecsHold(side, FrontLess(s, take),
              if take == r.qty then orders - {r.id} else orders[r.id := orders[r.id].(qty := r.qty - take)])
  {
    var s' := FrontLess(s, take);
    var d := |s| - |s'|;
    assert forall k :: 0 <= k < |s'| ==>
          s'[k].id == s[k + d].id && s'[k].px == s[k + d].px && (k + d > 0 ==> s'[k] == s[k + d]);
  }

  lemma FillKeeps(c: Config, b: Sides, below: nat, st: Shelf, side: Side, px: nat, take: nat)
    requires Stores(c, b, below, st, side, px) && b.On(side) != [] && b.On(side)[0].px == px
    requires take <= b.On(side)[0].qty
    requires b.On(side)[0].id in st.orders && st.orders[b.On(side)[0].id].qty == b.On(side)[0].qty
    requires px in st.On(side) && take <= st.On(side)[px].qty && st.On(side)[px].fifo != []
    ensures Stores(c, b.With(side, FrontLess(b.On(side), take)), below, Fill(st, side, px, b.On(side)[0].id, take),
                   side, px)
  {
    hide SidesOk, Distinctly, LevelsHold, RecsHold, NoStrays, FrontLess;
    var s := b.On(side);
    SideParts(c, b, side);
    FillOk(c, b, side, take);
    FillLevels(s, st.On(side), take);
    FillRecs(b, below, side, st.orders, take);
    FillDistinctly(b, below, side, take);
  }

  lemma FillDistinctly(b: Sides, below: nat, side: Side, take: nat)
    requires Distinctly(b, below) && b.On(side) != [] && take <= b.On(side)[0].qty
    ensures Distinctly(b.With(side, FrontLess(b.On(side), take)), below)
  {
    hide Distinctly;
    var s := b.On(side);
    if take == s[0].qty {
      DistinctlyRemove(b, below, side, 0);
      assert Remove(s, 0) == s[1..];
    } else {
      DistinctlyReduce(b, below, side, s[0].qty - take);
    }
  }

  /** After a fill the level is empty or still has the front order. */
  lemma FrontStays(c: Config, b: Sides, below: nat, st: Shelf, side: Side, px: nat, take: nat)
    requires Stores(c, b, below, st, side, px) && b.On(side) != [] && b.On(side)[0].px == px
             && take <= b.On(side)[0].qty
    requires px in st.On(side) && st.On(side)[px].fifo != []
    ensures var s' := FrontLess(b.On(side), take);
            var fifo := if take == b.On(side)[0].qty then st.On(side)[px].fifo[1..] else st.On(side)[px].fifo;
            fifo == [] || (s' != [] && s'[0].px == px)
  {
    var s := b.On(side);
    assert SideOk(c, side, s) && LevelsHold(s, st.On(side), px);
    if take == s[0].qty {
      TailSorted(side, s);
      FrontIfAny(side, s[1..], px);
      assert st.On(side)[px].fifo[1..] == LevelIds(s[1..], px);
    }
  }

  lemma TailSorted(side: Side, s: seq<Resting>)
    requires Sorted(side, s) && s != []
    ensures Sorted(side, s[1..])
    ensures |s| > 1 ==> !Ahead(side, s[1].px, s[0].px)
  {
  }

  lemma FrontIfAny(side: Side, r: seq<Resting>, px: nat)
    requires Sorted(side, r) && (r != [] ==> !Ahead(side, r[0].px, px))
    ensures LevelIds(r, px) != [] ==> r != [] && r[0].px == px
  {
    NobodyAt(r, px);
    assert forall k :: 0 < k < |r| ==> !Ahead(side, r[k].px, r[0].px);
  }

  // ---------- closing a level ----------

  lemma CloseLevel(c: Config, b: Sides, below: nat, st: Shelf, side: Side, px: nat)
    requires Stores(c, b, below, st, side, px) && px in st.On(side)
    ensures st.On(side)[px].fifo == LevelIds(b.On(side), px)
    ensures st.On(side)[px].fifo == [] ==> Stores(c, b, below, st.With(side, st.On(side) - {px}), side, 0)
    ensures st.On(side)[px].fifo != [] ==> Stores(c, b, below, st, side, 0)
  {
    assert LevelsHold(b.On(side), st.On(side), px);
    if st.On(side)[px].fifo == [] {
      NobodyAt(b.On(side), px);
      assert LevelsHold(b.On(side), st.On(side) - {px}, 0);
    }
  }

  lemma {:induction false} NobodyAt(s: seq<Resting>, px: nat)
    ensures LevelIds(s, px) == [] <==> forall k :: 0 <= k < |s| ==> s[k].px != px
  {
    if s != [] {
      NobodyAt(s[1..], px);
      assert forall k :: 1 <= k < |s| ==> s[k] == s[1..][k - 1];
    }
  }

  lemma BothFirst(side: Side, a: nat, b: nat)
    requires !Ahead(side, a, b) && !Ahead(side, b, a)
    ensures a == b
  {
  }

  /** The map's first key is the front order's price. */
  lemma FirstKey(c: Config, b: Sides, below: nat, st: Shelf, side: Side)
    requires Stores(c, b, below, st, side, 0)
    ensures st.On(side) == map[] <==> b.On(side) == []
    ensures b.On(side) != [] ==> b.On(side)[0].px in st.On(side) && forall p :: p in st.On(side) ==>
              !Ahead(side, p, b.On(side)[0].px)
  {
    var s := b.On(side);
    assert SideOk(c, side, s) && LevelsHold(s, st.On(side), 0);
    forall p | p in st.On(side)
      ensures s != [] && !Ahead(side, p, s[0].px)
    {
      NobodyAt(s, p);
      var k :| 0 <= k < |s| && s[k].px == p;
      assert k == 0 || !Ahead(side, s[k].px, s[0].px);
    }
    assert s != [] ==> s[0].px in st.On(side);
  }

  // ---------- resting and erasing ----------

  lemma RestLevels(side: Side, s: seq<Resting>, levels: map<nat, TreeLevel>, o: Resting)
    requires Sorted(side, s) && LevelsHold(s, levels, 0)
    ensures var lv := if o.px in levels then levels[o.px] else TreeLevel([], 0);
            LevelsHold(Enqueue(side, s, o), levels[o.px := TreeLevel(lv.fifo + [o.id], lv.qty + o.qty)], 0)
  {
    hide Enqueue, Slot, LevelIds, TotalAt, Sorted;
    EnqueueAt(side, s, o);
    if o.px !in levels {
      LevelIdsNone(s, o.px);
      NobodyThere(s, o.px);
    }
    forall p: nat
      ensures LevelIds(Enqueue(side, s, o), p) == LevelIds(s, p) + (if p == o.px then [o.id] else [])
      ensures TotalAt(Enqueue(side, s, o), p) == TotalAt(s, p) + (if p == o.px then o.qty else 0)
    {
      EnqueueLevelIds(side, s, o, p);
      TotalAtEnqueue(side, s, o, p);
    }
  }

  /** The shelf after order o joins the back of its level. */
  function RestOn(st: Shelf, side: Side, o: Resting): Shelf {
    var levels := st.On(side);
    var lv := if o.px in levels then levels[o.px] else TreeLevel([], 0);
    var levels' := levels[o.px := TreeLevel(lv.fifo + [o.id], lv.qty + o.qty)];
    st.(orders := st.orders[o.id := Rec(o.px, o.qty, side)]).With(side, levels')
  }

  lemma RestKeepsRecs(side: Side, b: Sides, orders: map<nat, Rec>, o: Resting)
    requires RecsHold(side, b.On(side), orders) && RecsHold(side.Opposite(), b.On(side.Opposite()), orders)
    requires NoStrays(b, orders)
    requires o.id !in Ids(b.bids) && o.id !in Ids(b.asks)
    ensures var b' := b.With(side, Enqueue(side, b.On(side), o));
            var orders' := orders[o.id := Rec(o.px, o.qty, side)];
            && RecsHold(side, b'.On(side), orders') && RecsHold(side.Opposite(), b'.On(side.Opposite()), orders')
            && NoStrays(b', orders')
  {
    hide RecsHold, NoStrays, Enqueue, Ids;
    var orders' := orders[o.id := Rec(o.px, o.qty, side)];
    RecsFrame(side.Opposite(), b.On(side.Opposite()), orders, orders', o.id);
    RecsFrame(side, b.On(side), orders, orders', o.id);
    RecsEnqueue(side, b.On(side), orders', o);
    NoStraysWith(b, orders, side, o, Rec(o.px, o.qty, side));
  }

  lemma RecsEnqueue(side: Side, s: seq<Resting>, orders: map<nat, Rec>, o: Resting)
    requires RecsHold(side, s, orders)
    requires o.id in orders && orders[o.id] == Rec(o.px, o.qty, side)
    ensures RecsHold(side, Enqueue(side, s, o), orders)
  {
    hide Slot, Enqueue;
    EnqueueAt(side, s, o);
  }

  /** Putting one side's checked queue, levels and records in place. */
  lemma Assemble(c: Config, b: Sides, below: nat, st: Shelf, side: Side, s: seq<Resting>, levels: map<nat, TreeLevel>,
                 orders: map<nat, Rec>)
    requires c.minPx >= 1 && SidesOk(c, b.With(side, s)) && Distinctly(b.With(side, s), below)
    requires LevelsHold(s, levels, 0) && LevelsHold(b.On(side.Opposite()), st.On(side.Opposite()), 0)
    requires RecsHold(side, s, orders) && RecsHold(side.Opposite(), b.On(side.Opposite()), orders)
    requires NoStrays(b.With(side, s), orders)
    ensures Stores(c, b.With(side, s), below, st.(orders := orders).With(side, levels), side, 0)
  {
    hide SidesOk, Distinctly, LevelsHold, RecsHold, NoStrays;
  }

  lemma RestStored(c: Config, b: Sides, st: Shelf, side: Side, o: Resting)
    requires Stores(c, b, o.id, st, side, 0) && o.id >= 1
    requires c.minPx <= o.px <= c.maxPx && o.qty > 0 && Room(b, side, o.px, o.qty)
    ensures Stores(c, b.With(side, Enqueue(side, b.On(side), o)), o.id + 1, RestOn(st, side, o), side, 0)
  {
    hide SidesOk, Distinctly, LevelsHold, RecsHold, SideOk, Enqueue, NoStrays, Sorted, Room;
    EnqueueOk(c, b, side, o);
    SideParts(c, b, side);
    DistinctlyEnqueue(b, side, o);
    RestLevels(side, b.On(side), st.On(side), o);
    RestKeepsRecs(side, b, st.orders, o);
    var lv := if o.px in st.On(side) then st.On(side)[o.px] else TreeLevel([], 0);
    Assemble(c, b, o.id + 1, st, side, Enqueue(side, b.On(side), o),
             st.On(side)[o.px := TreeLevel(lv.fifo + [o.id], lv.qty + o.qty)],
             st.orders[o.id := Rec(o.px, o.qty, side)]);
  }

  /** First position of id in a list, or its length: std::find. */
  function Find(ids: seq<nat>, id: nat): (i: nat)
    ensures i <= |ids|
    ensures i < |ids| ==> ids[i] == id
    ensures forall j :: 0 <= j < i ==> ids[j] != id
  {
    if ids == [] || ids[0] == id then 0 else 1 + Find(ids[1..], id)
  }

  function Without(ids: seq<nat>, i: nat): seq<nat>
    requires i < |ids|
  {
    ids[..i] + ids[i + 1..]
  }

  /** Taking the k-th order out of the queue takes its id out of its level, and nothing else. */
  lemma RemoveLevelIds(s: seq<Resting>, k: nat, p: nat)
    requires k < |s|
    requires forall j :: 0 <= j < |s| && j != k ==> s[j].id != s[k].id
    ensures p != s[k].px ==> LevelIds(Remove(s, k), p) == LevelIds(s, p)
    ensures var ids := LevelIds(s, s[k].px);
            var i := Find(ids, s[k].id);
            i < |ids| && LevelIds(Remove(s, k), s[k].px) == Without(ids, i)
  {
    hide LevelIds, Find, Remove, Without;
    RemoveAtPrice(s, k, p);
    RemoveAtPrice(s, k, s[k].px);
    var px := s[k].px;
    NotBefore(s, k);
    FindSplit(LevelIds(s[..k], px), s[k].id, LevelIds(s[k + 1..], px));
  }

  lemma NotBefore(s: seq<Resting>, k: nat)
    requires k < |s|
    requires forall j :: 0 <= j < |s| && j != k ==> s[j].id != s[k].id
    ensures s[k].id !in LevelIds(s[..k], s[k].px)
  {
    LevelIdsSubset(s[..k], s[k].px);
    assert forall j :: 0 <= j < k ==> Ids(s[..k])[j] == s[j].id;
  }

  lemma FindSplit(a: seq<nat>, id: nat, b: seq<nat>)
    requires id !in a
    ensures var ids := a + [id] + b; Find(ids, id) == |a| && Without(ids, |a|) == a + b
  {
    var ids := a + [id] + b;
    assert ids[|a|] == id;
    assert forall j :: 0 <= j < |a| ==> ids[j] == a[j];
  }

  lemma {:induction false} LevelIdsSubset(s: seq<Resting>, p: nat)
    ensures forall id :: id in LevelIds(s, p) ==> id in Ids(s)
  {
    if s != [] {
      LevelIdsSubset(s[1..], p);
      assert Ids(s) == [s[0].id] + Ids(s[1..]);
    }
  }

  /** The levels after id was erased from its level at px. */
  function Erase(levels: map<nat, TreeLevel>, px: nat, id: nat, qty: nat): map<nat, TreeLevel>
    requires px in levels && Find(levels[px].fifo, id) < |levels[px].fifo| && qty <= levels[px].qty
  {
    var fifo := Without(levels[px].fifo, Find(levels[px].fifo, id));
    if fifo == [] then levels - {px} else levels[px := TreeLevel(fifo, levels[px].qty - qty)]
  }

  lemma EraseLevels(s: seq<Resting>, k: nat, levels: map<nat, TreeLevel>)
    requires k < |s| && LevelsHold(s, levels, 0)
    requires forall j :: 0 <= j < |s| && j != k ==> s[j].id != s[k].id
    ensures var r := s[k];
            && r.px in levels && r.qty <= levels[r.px].qty && Find(levels[r.px].fifo, r.id) < |levels[r.px].fifo|
            && LevelsHold(Remove(s, k), Erase(levels, r.px, r.id, r.qty), 0)
  {
    var px := s[k].px;
    TotalAtSplit(s, k, px);
    RemoveLevelIds(s, k, px);
    var levels' := Erase(levels, px, s[k].id, s[k].qty);
    var rest := Remove(s, k);
    forall p | p in levels'
      ensures levels'[p] == TreeLevel(LevelIds(rest, p), TotalAt(rest, p)) && levels'[p].fifo != []
    {
      EraseLevel(s, k, levels, p);
    }
    EraseCovers(s, k, levels);
  }

  lemma EraseLevel(s: seq<Resting>, k: nat, levels: map<nat, TreeLevel>, p: nat)
    requires k < |s| && p in levels && s[k].px in levels
    requires levels[p] == TreeLevel(LevelIds(s, p), TotalAt(s, p)) && levels[p].fifo != []
    requires levels[s[k].px] == TreeLevel(LevelIds(s, s[k].px), TotalAt(s, s[k].px))
    requires forall j :: 0 <= j < |s| && j != k ==> s[j].id != s[k].id
    requires Find(levels[s[k].px].fifo, s[k].id) < |levels[s[k].px].fifo| && s[k].qty <= levels[s[k].px].qty
    ensures var levels' := Erase(levels, s[k].px, s[k].id, s[k].qty);
            p in levels' ==>
                levels'[p] == TreeLevel(LevelIds(Remove(s, k), p), TotalAt(Remove(s, k), p)) && levels'[p].fifo != []
  {
    hide LevelIds, TotalAt, Remove;
    RemoveLevelIds(s, k, p);
    TotalAtRemove(s, k, p);
  }

  lemma EraseCovers(s: seq<Resting>, k: nat, levels: map<nat, TreeLevel>)
    requires k < |s| && s[k].px in levels
    requires forall i :: 0 <= i < |s| ==> s[i].px in levels
    requires forall j :: 0 <= j < |s| && j != k ==> s[j].id != s[k].id
    requires levels[s[k].px].fifo == LevelIds(s, s[k].px) && s[k].qty <= levels[s[k].px].qty
    requires Find(levels[s[k].px].fifo, s[k].id) < |levels[s[k].px].fifo|
    ensures var rest := Remove(s, k);
            forall i :: 0 <= i < |rest| ==> rest[i].px in Erase(levels, s[k].px, s[k].id, s[k].qty)
  {
    var rest := Remove(s, k);
    RemoveLevelIds(s, k, s[k].px);
    NobodyAt(rest, s[k].px);
    assert forall i :: 0 <= i < |rest| ==> rest[i] == s[if i < k then i else i + 1];
  }

  lemma EraseRecs(b: Sides, below: nat, side: Side, orders: map<nat, Rec>, k: nat)
    requires Distinctly(b, below) && k < |b.On(side)|
    requires RecsHold(side, b.On(side), orders) && RecsHold(side.Opposite(), b.On(side.Opposite()), orders)
    requires NoStrays(b, orders)
    ensures var b' := b.With(side, Remove(b.On(side), k));
            var orders' := orders - {b.On(side)[k].id};
            && RecsHold(side, b'.On(side), orders') && RecsHold(side.Opposite(), b'.On(side.Opposite()), orders')
            && NoStrays(b', orders')
  {
    var s := b.On(side);
    var orders' := orders - {s[k].id};
    DistinctAt(b, below, side, k);
    RecsFrame(side.Opposite(), b.On(side.Opposite()), orders, orders', s[k].id);
    NoStraysWithout(b, orders, side, k);
    var rest := Remove(s, k);
    assert forall i :: 0 <= i < |rest| ==> rest[i] == s[if i < k then i else i + 1];
  }

  lemma EraseStored(c: Config, b: Sides, below: nat, st: Shelf, side: Side, k: nat)
    requires Stores(c, b, below, st, side, 0) && k < |b.On(side)|
    ensures var r := b.On(side)[k];
            var levels := st.On(side);
            && r.px in levels && r.qty <= levels[r.px].qty && Find(levels[r.px].fifo, r.id) < |levels[r.px].fifo|
            && Stores(c, b.With(side, Remove(b.On(side), k)), below,
                      st.(orders := st.orders - {r.id}).With(side, Erase(levels, r.px, r.id, r.qty)), side, 0)
  {
    hide SidesOk, Distinctly, LevelsHold, RecsHold, Remove, NoStrays;
    RemoveOk(c, b, side, k);
    DistinctAt(b, below, side, k);
    DistinctlyRemove(b, below, side, k);
    EraseLevels(b.On(side), k, st.On(side));
    EraseRecs(b, below, side, st.orders, k);
  }

  /** With no level open, the two sides are alike. */
  lemma EitherSide(c: Config, b: Sides, below: nat, st: Shelf, side: Side)
    requires Stores(c, b, below, st, side, 0)
    ensures Stores(c, b, below, st, side.Opposite(), 0)
  {
  }

  class StlBook {
    const minPx: nat
    const maxPx: nat
    const maxOrders: nat
    var nextId: nat
    var live: nat
    var bids: map<nat, TreeLevel>
    var asks: map<nat, TreeLevel>
    var orders: map<nat, Rec>

    /** The queues the maps stand for. */
    ghost var sides: Sides

    function Cfg(): Config { Config(minPx, maxPx, maxOrders) }

    ghost function Snap(): Shelf
      reads this
    {
      Shelf(bids, asks, orders)
    }

    function Levels(side: Side): map<nat, TreeLevel>
      reads this
    {
      if side.Buy? then bids else asks
    }

    /** The maps store the queues while `taken` orders of the call in progress count as live. */
    ghost predicate Holds(below: nat, taken: nat, side: Side, open: nat)
      reads this
    {
      && 1 <= minPx <= maxPx && 1 <= maxOrders && 1 <= below
      && Stores(Cfg(), sides, below, Snap(), side, open)
      && live == |sides.bids| + |sides.asks| + taken
    }

    ghost predicate Valid()
      reads this
    {
      Holds(nextId, 0, Buy, 0) && live <= maxOrders && Uncrossed(sides)
    }

    ghost function Abs(): Tree
      reads this
    {
      Tree(sides, nextId)
    }

    constructor (minPx: nat, maxPx: nat, maxOrders: nat)
      requires minPx >= 1 && maxPx >= minPx && maxOrders >= 1
      ensures Valid() && Cfg() == Config(minPx, maxPx, maxOrders)
      ensures Abs() == Tree(Sides([], []), 1) && live == 0
    {
      this.minPx, this.maxPx, this.maxOrders := minPx, maxPx, maxOrders;
      nextId, live := 1, 0;
      bids, asks, orders := map[], map[], map[];
      sides := Sides([], []);
    }

    /** The checked constructor: no book for an empty price range, price 0 or no slots. */
    static method Create(minPx: nat, maxPx: nat, maxOrders: nat) returns (b: StlBook?)
      ensures b == null <==> minPx < 1 || maxPx < minPx || maxOrders < 1
      ensures b != null ==>
                fresh(b) && b.Valid() && b.Cfg() == Config(minPx, maxPx, maxOrders) && b.Abs() == Tree(Sides([], []), 1)
    {
      if minPx < 1 || maxPx < minPx || maxOrders < 1 {
        return null;
      }
      b := new StlBook(minPx, maxPx, maxOrders);
    }

    // ---------- queries ----------

    method Best(side: Side) returns (px: nat)
      requires Valid()
      ensures px == BestOf(sides.On(side))
    {
      hide LevelsHold, SidesOk, Distinctly, RecsHold;
      EitherSide(Cfg(), sides, nextId, Snap(), Buy);
      FirstKey(Cfg(), sides, nextId, Snap(), side);
      if Levels(side) == map[] {
        return 0;
      }
      px := Begin(side, nextId);
    }

    function QtyAt(side: Side, px: nat): (q: nat)
      requires Valid()
      reads this
      ensures q == TotalAt(sides.On(side), px)
    {
      assert LevelsHold(sides.On(side), Levels(side), 0);
      NobodyThereUnless(sides.On(side), px);
      if px in Levels(side) then Levels(side)[px].qty else 0
    }

    /** The first key in the map's own order. */
    method Begin(side: Side, ghost below: nat) returns (px: nat)
      requires Stores(Cfg(), sides, below, Snap(), side, 0) && sides.On(side) != []
      ensures px == sides.On(side)[0].px && px in Levels(side)
    {
      hide Stores, Ahead;
      FirstKey(Cfg(), sides, below, Snap(), side);
      var levels := Levels(side);
      ghost var front := sides.On(side)[0].px;
      assert levels == Snap().On(side);
      px :| px in levels && forall p :: p in levels ==> !Ahead(side, p, px);
      BothFirst(side, front, px);
    }

    // ---------- fills ----------

    method SetLevels(side: Side, levels: map<nat, TreeLevel>)
      modifies this`bids, this`asks
      ensures Snap() == old(Snap()).With(side, levels)
    {
      if side == Buy {
        bids := levels;
      } else {
        asks := levels;
      }
    }

    /** One fill against the front of the level at px. */
    method TakeOne(side: Side, px: nat, takerId: nat, remaining: nat, execs: array?<Exec>, cap: nat, nexec: nat,
                   ghost limit: nat, ghost below: nat, ghost taken: nat, ghost freed: seq<nat>)
        returns (take: nat, fill: Exec, ghost freed': seq<nat>)
      requires Holds(below, taken, side, px) && remaining > 0
      requires px in Levels(side) && Levels(side)[px].fifo != []
      requires sides.On(side) != [] && sides.On(side)[0].px == px && Crosses(side.Opposite(), limit, px)
      requires execs != null ==> cap <= execs.Length
      modifies this`live, this`bids, this`asks, this`orders, this`sides, execs
      ensures Holds(below, taken, side, px)
      ensures px in Levels(side)
      ensures sides.On(side.Opposite()) == old(sides).On(side.Opposite())
      ensures Levels(side)[px].fifo == [] || (sides.On(side) != [] && sides.On(side)[0].px == px)
      ensures 0 < take <= remaining
      ensures Progress(old(sides).On(side), freed, remaining, [fill], sides.On(side), freed', remaining - take,
                       side.Opposite(), takerId, limit)
      ensures Recorded(old(Buffer(execs)), Buffer(execs), cap, nexec, [fill])
    {
      hide Progress, Recorded, Stores;
      ghost var s := sides.On(side);
      FrontStored(Cfg(), sides, below, Snap(), side, px);
      FillKeeps(Cfg(), sides, below, Snap(), side, px, Min(s[0].qty, remaining));
      ProgressStep(s, freed, remaining, side.Opposite(), takerId, limit);
      var lv := Levels(side)[px];
      var makerId := lv.fifo[0];
      var maker := orders[makerId];
      take := Min(maker.qty, remaining);
      fill := Exec(makerId, takerId, px, take);
      if execs != null && nexec < cap {
        execs[nexec] := fill;
      }
      RecordOne(old(Buffer(execs)), Buffer(execs), cap, nexec, fill);
      if take == maker.qty {
        orders := orders - {makerId};
        SetLevels(side, Levels(side)[px := TreeLevel(lv.fifo[1..], lv.qty - take)]);
        live := live - 1;
        freed' := freed + [makerId];
      } else {
        orders := orders[makerId := maker.(qty := maker.qty - take)];
        SetLevels(side, Levels(side)[px := TreeLevel(lv.fifo, lv.qty - take)]);
        freed' := freed;
      }
      FrontStays(Cfg(), old(sides), below, old(Snap()), side, px, take);
      sides := sides.With(side, FrontLess(s, take));
    }

    /** Fill the taker from the first level, then drop the level if nobody is left there. */
    method TakeFront(side: Side, takerId: nat, remaining0: nat, execs: array?<Exec>, cap: nat, nexec0: nat,
                     ghost limit: nat, ghost below: nat, ghost taken: nat, ghost freed0: seq<nat>)
        returns (remaining: nat, nexec: nat, ghost fills: seq<Exec>, ghost freed: seq<nat>)
      requires Holds(below, taken, side, 0) && remaining0 > 0
      requires sides.On(side) != [] && Crosses(side.Opposite(), limit, sides.On(side)[0].px)
      requires execs != null ==> cap <= execs.Length
      modifies this`live, this`bids, this`asks, this`orders, this`sides, execs
      ensures Holds(below, taken, side, 0)
      ensures sides.On(side.Opposite()) == old(sides).On(side.Opposite())
      ensures remaining < remaining0
      ensures Progress(old(sides).On(side), freed0, remaining0, fills, sides.On(side), freed, remaining,
                       side.Opposite(), takerId, limit)
      ensures nexec == nexec0 + |fills| && Recorded(old(Buffer(execs)), Buffer(execs), cap, nexec0, fills)
    {
      hide Progress, Recorded, Stores, Crosses;
      var px := Begin(side, below);
      remaining, nexec, fills, freed := remaining0, nexec0, [], freed0;
      ProgressStart(sides.On(side), freed, remaining, side.Opposite(), takerId, limit);
      RecordedStart(Buffer(execs), cap, nexec);
      OpenLevel(Cfg(), sides, below, Snap(), side);
      assert sides == old(sides);
      while remaining != 0 && Levels(side)[px].fifo != []
        invariant Holds(below, taken, side, px) && px in Levels(side)
        invariant Levels(side)[px].fifo == [] || (sides.On(side) != [] && sides.On(side)[0].px == px)
        invariant sides.On(side.Opposite()) == old(sides).On(side.Opposite())
        invariant Crosses(side.Opposite(), limit, px)
        invariant remaining <= remaining0 && (remaining == remaining0 ==> Levels(side)[px].fifo != [])
        invariant Progress(old(sides).On(side), freed0, remaining0, fills, sides.On(side), freed, remaining,
                           side.Opposite(), takerId, limit)
        invariant nexec == nexec0 + |fills| && Recorded(old(Buffer(execs)), Buffer(execs), cap, nexec0, fills)
        decreases remaining
      {
        ghost var s, f0, buf := sides.On(side), freed, Buffer(execs);
        var take, fill;
        take, fill, freed := TakeOne(side, px, takerId, remaining, execs, cap, nexec, limit, below, taken, freed);
        ProgressTrans(old(sides).On(side), freed0, remaining0, fills, s, f0, remaining, [fill],
                      sides.On(side), freed, remaining - take, side.Opposite(), takerId, limit);
        RecordedTrans(old(Buffer(execs)), buf, Buffer(execs), cap, nexec0, fills, [fill]);
        fills := fills + [fill];
        nexec := nexec + 1;
        remaining := remaining - take;
      }
      CloseBest(side, px, below, taken);
    }

    /** A level that ran empty leaves the map. */
    method CloseBest(side: Side, px: nat, ghost below: nat, ghost taken: nat)
      requires Holds(below, taken, side, px) && px in Levels(side)
      modifies this`bids, this`asks
      ensures Holds(below, taken, side, 0)
    {
      hide Stores;
      CloseLevel(Cfg(), sides, below, Snap(), side, px);
      if Levels(side)[px].fifo == [] {
        SetLevels(side, Levels(side) - {px});
      }
    }

    /** The first level of `side` is within the taker's limit. */
    method FrontCrosses(side: Side, limit: nat, ghost below: nat) returns (yes: bool)
      requires Stores(Cfg(), sides, below, Snap(), side, 0)
      ensures yes <==> sides.On(side) != [] && Crosses(side.Opposite(), limit, sides.On(side)[0].px)
    {
      hide Stores;
      FirstKey(Cfg(), sides, below, Snap(), side);
      if Levels(side) == map[] {
        return false;
      }
      var px := Begin(side, below);
      return Crosses(side.Opposite(), limit, px);
    }

    /** Run a taker against `side`, first level first. */
    method MatchOrder(side: Side, takerId: nat, qty: nat, limit: nat, execs: array?<Exec>, cap: nat, ghost below: nat,
                      ghost taken: nat)
        returns (remaining: nat, nexec: nat, ghost fills: seq<Exec>)
      requires Holds(below, taken, side, 0)
      requires execs != null ==> cap <= execs.Length
      modifies this`live, this`bids, this`asks, this`orders, this`sides, execs
      ensures Holds(below, taken, side, 0)
      ensures sides.On(side.Opposite()) == old(sides).On(side.Opposite())
      ensures Match(old(sides).On(side), side.Opposite(), takerId, limit, qty)
              == Matched(fills, sides.On(side), remaining)
      ensures nexec == |fills| && Recorded(old(Buffer(execs)), Buffer(execs), cap, 0, fills)
    {
      hide Progress, Recorded, Stores, Crosses, Match;
      remaining, nexec, fills := qty, 0, [];
      ghost var freed := [];
      ProgressStart(sides.On(side), freed, remaining, side.Opposite(), takerId, limit);
      RecordedStart(Buffer(execs), cap, nexec);
      var crosses := FrontCrosses(side, limit, below);
      while remaining != 0 && crosses
        invariant Holds(below, taken, side, 0)
        invariant crosses <==> sides.On(side) != [] && Crosses(side.Opposite(), limit, sides.On(side)[0].px)
        invariant sides.On(side.Opposite()) == old(sides).On(side.Opposite())
        invariant Progress(old(sides).On(side), [], qty, fills, sides.On(side), freed, remaining, side.Opposite(),
                           takerId, limit)
        invariant nexec == |fills| && Recorded(old(Buffer(execs)), Buffer(execs), cap, 0, fills)
        decreases remaining
      {
        ghost var s, f0, buf, left := sides.On(side), freed, Buffer(execs), remaining;
        ghost var f;
        remaining, nexec, f, freed := TakeFront(side, takerId, remaining, execs, cap, nexec, limit, below, taken,
                                                freed);
        ProgressTrans(old(sides).On(side), [], qty, fills, s, f0, left, f,
                      sides.On(side), freed, remaining, side.Opposite(), takerId, limit);
        RecordedTrans(old(Buffer(execs)), buf, Buffer(execs), cap, 0, fills, f);
        fills := fills + f;
        crosses := FrontCrosses(side, limit, below);
      }
      ProgressDone(old(sides).On(side), [], qty, fills, sides.On(side), freed, remaining, side.Opposite(), takerId,
                   limit);
    }

    // ---------- the client's two calls ----------

    method Rest(id: nat, rec: Rec)
      requires Holds(id, 1, rec.side, 0)
      requires minPx <= rec.px <= maxPx && rec.qty > 0 && Room(sides, rec.side, rec.px, rec.qty)
      modifies this`bids, this`asks, this`orders, this`sides
      ensures Holds(id + 1, 0, rec.side, 0)
      ensures sides == Settle(old(sides), rec.side, Resting(id, rec.px, rec.qty))
    {
      hide Stores;
      ghost var o := Resting(id, rec.px, rec.qty);
      RestStored(Cfg(), sides, Snap(), rec.side, o);
      orders := orders[id := rec];
      var levels := Levels(rec.side);
      var lv := if rec.px in levels then levels[rec.px] else TreeLevel([], 0);
      SetLevels(rec.side, levels[rec.px := TreeLevel(lv.fifo + [id], lv.qty + rec.qty)]);
      sides := sides.With(rec.side, Enqueue(rec.side, sides.On(rec.side), o));
    }

    method Limit(side: Side, px: nat, qty: nat, execs: array?<Exec>, cap: nat) returns (id: nat, nexec: nat)
      requires Valid()
      requires execs != null ==> cap <= execs.Length
      requires qty > 0 && minPx <= px <= maxPx && |sides.bids| + |sides.asks| < maxOrders ==> Room(sides, side, px, qty)
      modifies this`nextId, this`live, this`bids, this`asks, this`orders, this`sides, execs
      ensures Valid()
      ensures var r := TreeLimit(Cfg(), old(Abs()), side, px, qty);
              && Abs() == r.book && id == r.id && nexec == |r.fills|
              && Recorded(old(Buffer(execs)), Buffer(execs), cap, 0, r.fills)
      ensures var ok := qty > 0 && minPx <= px <= maxPx && |old(sides.bids)| + |old(sides.asks)| < maxOrders;
              (ok <==> id != 0 || nexec > 0) && nextId == old(nextId) + if ok then 1 else 0
      ensures id == 0 && nexec == 0 ==> unchanged(this) && Buffer(execs) == old(Buffer(execs))
    {
      hide Stores, Recorded, Match, Enqueue, Uncrossed;
      RecordedStart(Buffer(execs), cap, 0);
      TreeLimitAccepts(Cfg(), Abs(), side, px, qty);
      if qty == 0 || px < minPx || px > maxPx || live >= maxOrders {
        return INVALID_ID, 0;
      }
      id := nextId;
      TreeUncrossed(Cfg(), sides, nextId, Snap(), side, px, qty, id);
      EitherSide(Cfg(), sides, nextId, Snap(), Buy);
      nextId := nextId + 1;
      live := live + 1;
      ghost var fills;
      var remaining;
      remaining, nexec, fills := MatchOrder(side.Opposite(), id, qty, px, execs, cap, id, 1);
      MatchRemaining(old(sides).On(side.Opposite()), side, id, px, qty);
      MatchShrinks(old(sides).On(side.Opposite()), side, id, px, qty);
      EitherSide(Cfg(), sides, id, Snap(), side.Opposite());
      if remaining == 0 {
        live := live - 1;
        Older(Cfg(), sides, id, Snap(), side);
        return INVALID_ID, nexec;
      }
      Rest(id, Rec(px, remaining, side));
      EitherSide(Cfg(), sides, nextId, Snap(), side);
    }

    method Cancel(id: nat) returns (ok: bool)
      requires Valid()
      modifies this`live, this`bids, this`asks, this`orders, this`sides
      ensures Valid()
      ensures Abs() == TreeCancel(old(Abs()), id)
      ensures ok <==> Live(old(sides), id)
    {
      hide Stores, Uncrossed, Live;
      FindRec(Cfg(), sides, nextId, Snap(), id);
      if id !in orders {
        return false;
      }
      var rec := orders[id];
      ghost var k := IndexOf(sides.On(rec.side), id);
      WithdrawUncrossed(sides, id);
      EitherSide(Cfg(), sides, nextId, Snap(), Buy);
      EraseStored(Cfg(), sides, nextId, Snap(), rec.side, k);
      SetLevels(rec.side, Erase(Levels(rec.side), rec.px, id, rec.qty));
      orders := orders - {id};
      live := live - 1;
      sides := Withdraw(sides, id);
      EitherSide(Cfg(), sides, nextId, Snap(), rec.side);
      return true;
    }
  }

  lemma NobodyThereUnless(s: seq<Resting>, px: nat)
    ensures (forall k :: 0 <= k < |s| ==> s[k].px != px) ==> TotalAt(s, px) == 0
  {
    if forall k :: 0 <= k < |s| ==> s[k].px != px {
      NobodyThere(s, px);
    }
  }

  lemma RecordOne(buf0: seq<Exec>, buf: seq<Exec>, cap: nat, n: nat, e: Exec)
    requires if n < cap <= |buf0| then buf == buf0[n := e] else buf == buf0 && (buf0 == [] || cap <= n)
    ensures Recorded(buf0, buf, cap, n, [e])
  {
  }

  /** A full shelf is also one with its first level open. */
  lemma OpenLevel(c: Config, b: Sides, below: nat, st: Shelf, side: Side)
    requires Stores(c, b, below, st, side, 0) && b.On(side) != []
    ensures Stores(c, b, below, st, side, b.On(side)[0].px)
    ensures b.On(side)[0].px in st.On(side) && st.On(side)[b.On(side)[0].px].fifo != []
  {
    assert LevelsHold(b.On(side), st.On(side), 0);
  }

  lemma TreeUncrossed(c: Config, b: Sides, below: nat, st: Shelf, side: Side, px: nat, qty: nat, id: nat)
    requires Stores(c, b, below, st, Buy, 0) && Uncrossed(b)
    ensures Uncrossed(Trade(b, side, px, qty, id).sides)
  {
    TradeUncrossed(c, b, side, px, qty, id);
  }

  lemma {:induction false} MatchShrinks(q: seq<Resting>, taker: Side, takerId: nat, limit: nat, qty: nat)
    ensures |Match(q, taker, takerId, limit, qty).left| <= |q|
  {
    if qty != 0 && q != [] && Crosses(taker, limit, q[0].px) && q[0].qty <= qty {
      MatchShrinks(q[1..], taker, takerId, limit, qty - q[0].qty);
    }
  }

  /** A later counter is as good. */
  lemma Older(c: Config, b: Sides, below: nat, st: Shelf, side: Side)
    requires Stores(c, b, below, st, side, 0)
    ensures Stores(c, b, below + 1, st, Buy, 0)
  {
    assert Distinctly(b, below + 1);
  }

  /** The record map answers for the whole book. */
  lemma FindRec(c: Config, b: Sides, below: nat, st: Shelf, id: nat)
    requires Stores(c, b, below, st, Buy, 0)
    ensures id in st.orders <==> Live(b, id)
    ensures !Live(b, id) ==> Withdraw(b, id) == b
    ensures id in st.orders ==>
              var r := st.orders[id];
              var k := IndexOf(b.On(r.side), id);
              && k < |b.On(r.side)| && b.On(r.side)[k] == Resting(id, r.px, r.qty)
              && Withdraw(b, id) == b.With(r.side, Remove(b.On(r.side), k))
  {
    RestsIffId(b.bids, id);
    RestsIffId(b.asks, id);
    if Live(b, id) {
      var side := if Rests(b.bids, id) then Buy else Sell;
      assert RecsHold(side, b.On(side), st.orders);
      assert b.On(side)[IndexOf(b.On(side), id)].id == id;
    }
  }

  /** What a client may take from a valid book. */
  lemma StlBookFacts(book: StlBook)
    requires book.Valid()
    ensures book.live == |book.sides.bids| + |book.sides.asks| <= book.maxOrders
  {
  }
}
