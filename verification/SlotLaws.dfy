/** How order slots move between the queues, the free stack and the call in progress. */
module SlotLaws {
  import opened LobTypes
  import opened PriceTime
  import opened Trading

  lemma IdsRemove(s: seq<Resting>, k: nat)
    requires k < |s|
    ensures multiset(Ids(s)) == multiset(Ids(Remove(s, k))) + multiset{s[k].id}
  {
    var ids := Ids(s);
    assert ids == ids[..k] + [ids[k]] + ids[k + 1..];
    assert Ids(Remove(s, k)) == ids[..k] + ids[k + 1..];
  }

  lemma IdsEnqueue(side: Side, s: seq<Resting>, o: Resting)
    ensures multiset(Ids(Enqueue(side, s, o))) == multiset(Ids(s)) + multiset{o.id}
  {
    var e := Enqueue(side, s, o);
    var k := Slot(side, s, o.px);
    IdsRemove(e, k);
    assert Remove(e, k) == s;
  }

  lemma TwiceIsTwo(ids: seq<nat>, i: nat, j: nat)
    requires i < j < |ids| && ids[i] == ids[j]
    ensures multiset(ids)[ids[i]] >= 2
  {
    assert ids == ids[..j] + ids[j..];
    assert ids[i] == ids[..j][i] && ids[j] == ids[j..][0];
    assert ids[i] in ids[..j] && ids[j] in ids[j..];
    assert multiset(ids) == multiset(ids[..j]) + multiset(ids[j..]);
  }

  /** A resting order's slot is in range and nowhere else. */
  lemma SlotAt(c: Config, b: Sides, stack: seq<nat>, held: seq<nat>, side: Side, k: nat)
    requires Slots(c, b, stack, held)
    requires k < |b.On(side)|
    ensures var id := b.On(side)[k].id;
            && 1 <= id <= c.maxOrders
            && id !in Ids(b.On(side.Opposite())) && id !in stack && id !in held
            && (forall j :: 0 <= j < |b.On(side)| && j != k ==> b.On(side)[j].id != id)
  {
    var ids := Ids(b.On(side));
    var id := b.On(side)[k].id;
    assert ids[k] == id;
    assert id in multiset(ids);
    assert Uses(b, stack, held)[id] == multiset(ids)[id] + multiset(Ids(b.On(side.Opposite())))[id]
                                       + multiset(stack)[id] + multiset(held)[id];
    assert id in multiset(Ids(b.On(side.Opposite()))) <==> id in Ids(b.On(side.Opposite()));
    assert id in multiset(stack) <==> id in stack;
    assert id in multiset(held) <==> id in held;
    forall j | 0 <= j < |ids| && j != k
      ensures ids[j] != id
    {
      if ids[j] == id {
        TwiceIsTwo(ids, if j < k then j else k, if j < k then k else j);
        assert false;
      }
    }
    forall j | 0 <= j < |b.On(side)| && j != k
      ensures b.On(side)[j].id != id
    {
      assert ids[j] == b.On(side)[j].id;
    }
  }

  /** A free slot is in range and nobody rests there. */
  lemma StackAt(c: Config, b: Sides, stack: seq<nat>, held: seq<nat>, i: nat)
    requires Slots(c, b, stack, held)
    requires i < |stack|
    ensures 1 <= stack[i] <= c.maxOrders
    ensures stack[i] !in Ids(b.bids) && stack[i] !in Ids(b.asks) && stack[i] !in held
    ensures forall j :: 0 <= j < |stack| && j != i ==> stack[j] != stack[i]
  {
    var id := stack[i];
    assert id in multiset(stack);
    assert Uses(b, stack, held)[id] == multiset(Ids(b.bids))[id] + multiset(Ids(b.asks))[id]
                                       + multiset(stack)[id] + multiset(held)[id];
    assert id in multiset(Ids(b.bids)) <==> id in Ids(b.bids);
    assert id in multiset(Ids(b.asks)) <==> id in Ids(b.asks);
    assert id in multiset(held) <==> id in held;
    forall j | 0 <= j < |stack| && j != i
      ensures stack[j] != id
    {
      if stack[j] == id {
        TwiceIsTwo(stack, if j < i then j else i, if j < i then i else j);
        assert false;
      }
    }
  }

  lemma HeldAt(c: Config, b: Sides, stack: seq<nat>, held: seq<nat>, i: nat)
    requires Slots(c, b, stack, held)
    requires i < |held|
    ensures 1 <= held[i] <= c.maxOrders
    ensures held[i] !in Ids(b.bids) && held[i] !in Ids(b.asks) && held[i] !in stack
    ensures forall j :: 0 <= j < |held| && j != i ==> held[j] != held[i]
  {
    assert Uses(b, stack, held) == Uses(b, held, stack);
    StackAt(c, b, held, stack, i);
  }

  lemma SlotsAcquire(c: Config, b: Sides, stack: seq<nat>)
    requires Slots(c, b, stack, []) && stack != []
    ensures Slots(c, b, stack[..|stack| - 1], [stack[|stack| - 1]])
  {
    var n := |stack| - 1;
    assert stack == stack[..n] + [stack[n]];
    assert Uses(b, stack[..n], [stack[n]]) == Uses(b, stack, []);
  }

  lemma SlotsRelease(c: Config, b: Sides, stack: seq<nat>, held: seq<nat>, id: nat)
    requires Slots(c, b, stack, held + [id])
    ensures Slots(c, b, stack + [id], held)
  {
    assert Uses(b, stack + [id], held) == Uses(b, stack, held + [id]);
  }

  lemma SlotsRemove(c: Config, b: Sides, stack: seq<nat>, held: seq<nat>, side: Side, k: nat)
    requires Slots(c, b, stack, held)
    requires k < |b.On(side)|
    ensures Slots(c, b.With(side, Remove(b.On(side), k)), stack, held + [b.On(side)[k].id])
  {
    IdsRemove(b.On(side), k);
    var b' := b.With(side, Remove(b.On(side), k));
    assert Uses(b', stack, held + [b.On(side)[k].id]) == Uses(b, stack, held);
  }

  lemma SlotsEnqueue(c: Config, b: Sides, stack: seq<nat>, side: Side, o: Resting)
    requires Slots(c, b, stack, [o.id])
    ensures Slots(c, b.With(side, Enqueue(side, b.On(side), o)), stack, [])
  {
    IdsEnqueue(side, b.On(side), o);
    assert Uses(b.With(side, Enqueue(side, b.On(side), o)), stack, []) == Uses(b, stack, [o.id]);
  }

  /** A partial fill moves no slot. */
  lemma SlotsReduce(c: Config, b: Sides, stack: seq<nat>, held: seq<nat>, side: Side, k: nat, qty: nat)
    requires Slots(c, b, stack, held)
    requires k < |b.On(side)|
    ensures var s := b.On(side); Slots(c, b.With(side, s[k := s[k].(qty := qty)]), stack, held)
  {
    var s := b.On(side);
    var b' := b.With(side, s[k := s[k].(qty := qty)]);
    assert Ids(b'.On(side)) == Ids(s);
    assert Uses(b', stack, held) == Uses(b, stack, held);
  }

  /** An id in range that nobody rests under and nobody holds is a free slot, and conversely. */
  lemma NotLiveIsFree(c: Config, l: Ladder, id: nat)
    requires Slots(c, l.sides, l.stack, []) && 1 <= id <= c.maxOrders
    ensures Live(l.sides, id) <==> id !in l.stack
  {
    RestsIffId(l.sides.bids, id);
    RestsIffId(l.sides.asks, id);
    assert Uses(l.sides, l.stack, [])[id] == multiset(Ids(l.sides.bids))[id] + multiset(Ids(l.sides.asks))[id]
                                             + multiset(l.stack)[id];
    assert id in multiset(Ids(l.sides.bids)) <==> id in Ids(l.sides.bids);
    assert id in multiset(Ids(l.sides.asks)) <==> id in Ids(l.sides.asks);
    assert id in multiset(l.stack) <==> id in l.stack;
  }

  lemma RestsIffId(s: seq<Resting>, id: nat)
    ensures Rests(s, id) <==> id in Ids(s)
  {
    var k := IndexOf(s, id);
    if k < |s| {
      assert Ids(s)[k] == id;
    }
  }
}
