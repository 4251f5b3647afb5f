/**
 A whole book as two priority queues, and the two things a client can do to it. `Trade` and
 `Withdraw` are shared by both books; the two differ only in how they hand out ids, which is
 what `Ladder` (a LIFO stack of free slots, slots reused) and `Tree` (a counter, ids never
 reused) describe.
 */
module Trading {
  import opened LobTypes
  import opened PriceTime

  datatype Config = Config(minPx: nat, maxPx: nat, maxOrders: nat)

  datatype Sides = Sides(bids: seq<Resting>, asks: seq<Resting>) {
    function On(side: Side): seq<Resting> { if side.Buy? then bids else asks }

    function With(side: Side, s: seq<Resting>): Sides {
      if side.Buy? then this.(bids := s) else this.(asks := s)
    }
  }

  datatype Traded = Traded(sides: Sides, fills: seq<Exec>, remaining: nat)

  /** Match against the other side; what is left rests behind its own price. */
  function Trade(b: Sides, side: Side, px: nat, qty: nat, id: nat): Traded {
    var m := Match(b.On(side.Opposite()), side, id, px, qty);
    Traded(Settle(b.With(side.Opposite(), m.left), side, Resting(id, px, m.remaining)), m.fills, m.remaining)
  }

  function Settle(b: Sides, side: Side, o: Resting): Sides {
    if o.qty == 0 then b else b.With(side, Enqueue(side, b.On(side), o))
  }

  /** Where the order rests in s, or |s|. */
  function IndexOf(s: seq<Resting>, id: nat): (k: nat)
    ensures k <= |s|
    ensures k < |s| ==> s[k].id == id
    ensures forall i :: 0 <= i < k ==> s[i].id != id
  {
    if s == [] || s[0].id == id then 0 else 1 + IndexOf(s[1..], id)
  }

  predicate Rests(s: seq<Resting>, id: nat) {
    IndexOf(s, id) < |s|
  }

  predicate Live(b: Sides, id: nat) {
    Rests(b.bids, id) || Rests(b.asks, id)
  }

  function Withdraw(b: Sides, id: nat): Sides {
    if Rests(b.bids, id) then b.(bids := Remove(b.bids, IndexOf(b.bids, id)))
    else if Rests(b.asks, id) then b.(asks := Remove(b.asks, IndexOf(b.asks, id)))
    else b
  }

  // ---------- the two id disciplines ----------

  predicate InRange(c: Config, px: nat, qty: nat) {
    qty != 0 && c.minPx <= px <= c.maxPx
  }

  datatype Ladder = Ladder(sides: Sides, stack: seq<nat>)

  datatype Tree = Tree(sides: Sides, nextId: nat)

  datatype Outcome<B> = Outcome(book: B, id: nat, fills: seq<Exec>)

  predicate LadderAccepts(c: Config, l: Ladder, px: nat, qty: nat) {
    InRange(c, px, qty) && l.stack != []
  }

  /** The slot is taken from the stack before matching; consumed makers' slots go back in the
      order they are consumed, and the taker's own slot last if nothing of it rests. */
  function LadderLimit(c: Config, l: Ladder, side: Side, px: nat, qty: nat): Outcome<Ladder> {
    if !LadderAccepts(c, l, px, qty) then Outcome(l, INVALID_ID, [])
    else
      var id := l.stack[|l.stack| - 1];
      var t := Trade(l.sides, side, px, qty, id);
      var freed := Freed(l.sides.On(side.Opposite()), side, id, px, qty);
      var stack := l.stack[..|l.stack| - 1] + freed;
      if t.remaining == 0 then Outcome(Ladder(t.sides, stack + [id]), INVALID_ID, t.fills)
      else Outcome(Ladder(t.sides, stack), id, t.fills)
  }

  function LadderCancel(l: Ladder, id: nat): Ladder {
    if Live(l.sides, id) then Ladder(Withdraw(l.sides, id), l.stack + [id]) else l
  }

  /** The makers a match uses up, in order. */
  function Freed(q: seq<Resting>, taker: Side, takerId: nat, limit: nat, qty: nat): seq<nat> {
    if qty == 0 || q == [] || !Crosses(taker, limit, q[0].px) || q[0].qty > qty then []
    else [q[0].id] + Freed(q[1..], taker, takerId, limit, qty - q[0].qty)
  }

  predicate TreeAccepts(c: Config, t: Tree, px: nat, qty: nat) {
    InRange(c, px, qty) && |t.sides.bids| + |t.sides.asks| < c.maxOrders
  }

  function TreeLimit(c: Config, b: Tree, side: Side, px: nat, qty: nat): Outcome<Tree> {
    if !TreeAccepts(c, b, px, qty) then Outcome(b, INVALID_ID, [])
    else
      var t := Trade(b.sides, side, px, qty, b.nextId);
      Outcome(Tree(t.sides, b.nextId + 1), if t.remaining == 0 then INVALID_ID else b.nextId, t.fills)
  }

  function TreeCancel(b: Tree, id: nat): Tree {
    Tree(Withdraw(b.sides, id), b.nextId)
  }

  // ---------- what every state of a book satisfies ----------

  ghost predicate SideOk(c: Config, side: Side, s: seq<Resting>) {
    && Sorted(side, s)
    && Positive(s)
    && (forall k :: 0 <= k < |s| ==> c.minPx <= s[k].px <= c.maxPx)
    && (forall px :: TotalAt(s, px) < TWO_TO_32)
  }

  /** No resting bid reaches a resting ask. */
  ghost predicate Uncrossed(b: Sides) {
    forall i, j :: 0 <= i < |b.bids| && 0 <= j < |b.asks| ==> b.bids[i].px < b.asks[j].px
  }

  ghost predicate SidesOk(c: Config, b: Sides) {
    SideOk(c, Buy, b.bids) && SideOk(c, Sell, b.asks)
  }

  function Uses(b: Sides, stack: seq<nat>, held: seq<nat>): multiset<nat> {
    multiset(Ids(b.bids)) + multiset(Ids(b.asks)) + multiset(stack) + multiset(held)
  }

  /** Every slot 1..maxOrders is in exactly one place, once: resting, on the free stack, or held
      by the call in progress. */
  ghost predicate Slots(c: Config, b: Sides, stack: seq<nat>, held: seq<nat>) {
    && |b.bids| + |b.asks| + |stack| + |held| == c.maxOrders
    && forall id: nat :: Uses(b, stack, held)[id] == if 1 <= id <= c.maxOrders then 1 else 0
  }

  /** The level an order would rest on does not reach 2^32. */
  predicate Room(b: Sides, side: Side, px: nat, qty: nat) {
    TotalAt(b.On(side), px) + qty < TWO_TO_32
  }
}
