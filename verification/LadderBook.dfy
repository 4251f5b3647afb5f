/**
 The ladder book: a level array per side, an order pool linked through slot numbers, and a stack
 of free slots. Every method is proved against the queue functions of `Trading`.
 */
module LadderBook {
  import opened Wrappers
  import opened LobTypes
  import opened PriceTime
  import opened Trading
  import opened SlotLaws
  import opened LadderRep
  import opened LadderStore
  import opened TradingLaws
  import opened LimitLaws
  import opened MatchProgress

  /** The best price after an order at px came to rest; 0 is no price. */
  function Better(side: Side, px: nat, best: nat): nat {
    if best == 0 || Ahead(side, px, best) then px else best
  }

  class Book {
    const minPx: nat
    const maxPx: nat
    const maxOrders: nat
    var bestBid: nat
    var bestAsk: nat
    const bidLevels: array<Level>
    const askLevels: array<Level>
    const orders: array<Order>
    const free: array<nat>
    var freeTop: nat

    /** The queues the arrays stand for. */
    ghost var sides: Sides

    function Cfg(): Config { Config(minPx, maxPx, maxOrders) }

    function Levels(side: Side): array<Level> { if side.Buy? then bidLevels else askLevels }

    ghost predicate Shape()
      reads this
    {
      && 1 <= minPx <= maxPx && 1 <= maxOrders
      && bidLevels.Length == maxPx + 1 && askLevels.Length == maxPx + 1 && bidLevels != askLevels
      && orders.Length == maxOrders + 1 && free.Length == maxOrders
      && freeTop <= maxOrders
    }

    ghost function Snap(): Store
      reads bidLevels, askLevels, orders
    {
      Store(bidLevels[..], askLevels[..], orders[..])
    }

    ghost function Stack(): seq<nat>
      requires freeTop <= free.Length
      reads this, free
    {
      free[..freeTop]
    }

    /** The arrays represent `sides` while a call holds some slots. */
    ghost predicate Holds(held: seq<nat>)
      reads this, bidLevels, askLevels, orders, free
    {
      Shape() && Represents(Cfg(), sides, Stack(), held, Snap())
    }

    ghost predicate BestsOk()
      reads this
    {
      bestBid == BestOf(sides.bids) && bestAsk == BestOf(sides.asks)
    }

    ghost predicate Valid()
      reads this, bidLevels, askLevels, orders, free
    {
      Holds([]) && BestsOk() && Uncrossed(sides)
    }

    ghost function Abs(): Ladder
      requires freeTop <= free.Length
      reads this, free
    {
      Ladder(sides, Stack())
    }

    constructor (minPx: nat, maxPx: nat, maxOrders: nat)
      requires minPx >= 1 && maxPx >= minPx && maxOrders >= 1
      ensures Valid()
      ensures Cfg() == Config(minPx, maxPx, maxOrders)
      ensures fresh(bidLevels) && fresh(askLevels) && fresh(orders) && fresh(free)
      ensures Abs() == Ladder(Sides([], []), Countdown(maxOrders))
    {
      var f := new nat[maxOrders];
      for i := 0 to maxOrders
        invariant forall j :: 0 <= j < i ==> f[j] == maxOrders - j
      {
        f[i] := maxOrders - i;
      }
      this.minPx, this.maxPx, this.maxOrders := minPx, maxPx, maxOrders;
      bidLevels := new Level[maxPx + 1](_ => EMPTY_LEVEL);
      askLevels := new Level[maxPx + 1](_ => EMPTY_LEVEL);
      orders := new Order[maxOrders + 1](_ => EMPTY_ORDER);
      free := f;
      freeTop := maxOrders;
      bestBid, bestAsk := 0, 0;
      sides := Sides([], []);
      new;
      assert free[..freeTop] == free[..];
      CountdownSlots(Cfg(), free[..]);
      EmptyRepresents(Cfg(), Stack(), Snap());
      assert Stack() == Countdown(maxOrders);
    }

    /** The checked constructor: no book for an empty price range, price 0 or no slots. */
    static method Create(minPx: nat, maxPx: nat, maxOrders: nat) returns (b: Book?)
      ensures b == null <==> minPx < 1 || maxPx < minPx || maxOrders < 1
      ensures b != null ==> fresh(b) && b.Valid() && b.Cfg() == Config(minPx, maxPx, maxOrders)
                            && b.Abs() == Ladder(Sides([], []), Countdown(maxOrders))
    {
      if minPx < 1 || maxPx < minPx || maxOrders < 1 {
        return null;
      }
      b := new Book(minPx, maxPx, maxOrders);
    }

    // ---------- queries ----------

    function LiveOrders(): (n: nat)
      requires Valid()
      reads this, bidLevels, askLevels, orders, free
      ensures n == |sides.bids| + |sides.asks|
    {
      maxOrders - freeTop
    }

    function QtyAt(side: Side, px: nat): (q: nat)
      requires Valid()
      reads this, bidLevels, askLevels, orders, free
      ensures q == TotalAt(sides.On(side), px)
    {
      RepresentsTotals(Cfg(), sides, Stack(), [], Snap(), side, px);
      if px < minPx || px > maxPx then 0
      else if side.Buy? then assert bidLevels[..][px] == bidLevels[px]; bidLevels[px].qty
      else assert askLevels[..][px] == askLevels[px]; askLevels[px].qty
    }

    // ---------- slots ----------

    method Acquire() returns (id: nat)
      requires Holds([])
      modifies this`freeTop
      ensures old(freeTop) == 0 ==> id == INVALID_ID && freeTop == 0
      ensures old(freeTop) > 0 ==> freeTop == old(freeTop) - 1 && id == free[freeTop] && id in old(Stack())
      ensures old(freeTop) > 0 ==> Holds([id]) && 1 <= id <= maxOrders && orders[id] == EMPTY_ORDER
    {
      if freeTop == 0 {
        return INVALID_ID;
      }
      AcquireKeeps(Cfg(), sides, Stack(), Snap());
      freeTop := freeTop - 1;
      assert free[..freeTop] == old(free[..freeTop])[..freeTop];
      return free[freeTop];
    }

    method Release(id: nat, ghost held: seq<nat>)
      requires Shape() && Linked(Cfg(), sides, Stack(), held + [id], Snap()) && Counted(sides, Snap())
      modifies this`freeTop, orders, free
      ensures Shape() && Linked(Cfg(), sides, Stack(), held, Snap()) && Counted(sides, Snap())
      ensures id < orders.Length && orders[..] == old(orders[..])[id := EMPTY_ORDER]
      ensures freeTop == old(freeTop) + 1 <= free.Length
      ensures free[..] == old(free[..])[old(freeTop) := id]
      ensures Stack() == old(Stack()) + [id]
    {
      HeldAt(Cfg(), sides, Stack(), held + [id], |held|);
      orders[id] := EMPTY_ORDER;
      free[freeTop] := id;
      freeTop := freeTop + 1;
      assert free[..freeTop] == old(free[..freeTop]) + [id];
      ReleaseKeeps(Cfg(), sides, old(Stack()), held, id, old(Snap()), Snap());
    }

    // ---------- links ----------

    /** Take slot id out of its level's list. */
    method Unlink(id: nat)
      requires Shape() && id < orders.Length
      requires var o := orders[id];
               && o.prev < orders.Length && o.next < orders.Length && o.px <= maxPx
               && o.prev != id && o.next != id && (o.prev != 0 ==> o.prev != o.next)
      modifies bidLevels, askLevels, orders
      ensures Bypassed(old(orders[..]), orders[..], id)
      ensures var o := old(orders[id]);
              var lv := old(Levels(orders[id].side)[orders[id].px]);
              && Levels(o.side)[..] == old(Levels(orders[id].side)[..])[o.px := Unhooked(lv, o)]
              && Levels(o.side.Opposite())[..] == old(Levels(orders[id].side.Opposite())[..])
    {
      var o := orders[id];
      var levels := Levels(o.side);
      if o.prev != 0 {
        orders[o.prev] := orders[o.prev].(next := o.next);
      } else {
        levels[o.px] := levels[o.px].(head := o.next);
      }
      if o.next != 0 {
        orders[o.next] := orders[o.next].(prev := o.prev);
      } else {
        levels[o.px] := levels[o.px].(tail := o.prev);
      }
      orders[id] := orders[id].(prev := 0, next := 0);
    }

    /** Unlink, with the queue it is taken from. */
    method UnlinkFrom(id: nat, ghost side: Side, ghost k: nat, ghost held: seq<nat>)
      requires Shape() && Linked(Cfg(), sides, Stack(), held, Snap())
      requires k < |sides.On(side)| && sides.On(side)[k].id == id
      modifies bidLevels, askLevels, orders, this`sides
      ensures sides == old(sides).With(side, Remove(old(sides).On(side), k))
      ensures Shape() && Linked(Cfg(), sides, Stack(), held + [id], Snap())
      ensures id < orders.Length && Bypassed(old(orders[..]), orders[..], id)
      ensures Detached(old(sides).On(side), k, old(Levels(side)[..]), Levels(side)[..])
      ensures Levels(side.Opposite())[..] == old(Levels(side.Opposite())[..])
      ensures forall j :: 0 <= j < orders.Length && j !in Ids(old(sides).On(side)) ==> orders[j] == old(orders[j])
    {
      hide Linked;
      ghost var st := Snap();
      UnlinkReady(Cfg(), sides, Stack(), held, st, side, k);
      assert orders[id] == st.orders[id];
      Unlink(id);
      UnlinkDone(Cfg(), sides, Stack(), held, st, Snap(), side, k);
      sides := sides.With(side, Remove(sides.On(side), k));
    }

    /** Append slot id to its level's list. */
    method Append(id: nat)
      requires Shape() && id < orders.Length && orders[id].px <= maxPx
      requires var tail := Levels(orders[id].side)[orders[id].px].tail; tail < orders.Length && tail != id
      modifies bidLevels, askLevels, orders, this`bestBid, this`bestAsk
      ensures Appended(old(orders[..]), orders[..], id, old(Levels(orders[id].side)[orders[id].px].tail))
      ensures var o := old(orders[id]);
              var lv := old(Levels(orders[id].side)[orders[id].px]);
              && Levels(o.side)[..] == old(Levels(orders[id].side)[..])[o.px := Hooked(lv, id, o.qty)]
              && Levels(o.side.Opposite())[..] == old(Levels(orders[id].side.Opposite())[..])
              && bestBid == (if o.side == Buy then Better(Buy, o.px, old(bestBid)) else old(bestBid))
              && bestAsk == (if o.side == Sell then Better(Sell, o.px, old(bestAsk)) else old(bestAsk))
    {
      var o := orders[id];
      var levels := Levels(o.side);
      var tail := levels[o.px].tail;
      orders[id] := o.(prev := tail, next := 0);
      if tail != 0 {
        orders[tail] := orders[tail].(next := id);
      } else {
        levels[o.px] := levels[o.px].(head := id);
      }
      levels[o.px] := levels[o.px].(tail := id, qty := (levels[o.px].qty + o.qty) % TWO_TO_32);
      if o.side == Buy {
        if bestBid == 0 || o.px > bestBid {
          bestBid := o.px;
        }
      } else if bestAsk == 0 || o.px < bestAsk {
        bestAsk := o.px;
      }
    }

    /** The remainder of the order in slot id joins the back of its level. */
    method Rest(id: nat, ghost side: Side)
      requires Holds([id]) && BestsOk()
      requires id < orders.Length && orders[id].side == side && orders[id].qty > 0 && minPx <= orders[id].px <= maxPx
      requires Room(sides, side, orders[id].px, orders[id].qty)
      modifies bidLevels, askLevels, orders, this`sides, this`bestBid, this`bestAsk
      ensures Holds([]) && BestsOk()
      ensures sides == Settle(old(sides), side, Resting(id, old(orders[id].px), old(orders[id].qty)))
    {
      hide Represents, Appended;
      ghost var st := Snap();
      ghost var r := Resting(id, orders[id].px, orders[id].qty);
      RestReady(Cfg(), sides, Stack(), st, side, r);
      assert Levels(side)[r.px] == st.Levels(side)[r.px];
      Append(id);
      HookJoins(r, st.Levels(side), Levels(side)[..]);
      RestKeeps(Cfg(), sides, Stack(), st, Snap(), side, r);
      BestOfEnqueue(side, sides.On(side), r);
      sides := sides.With(side, Enqueue(side, sides.On(side), r));
    }

    // ---------- fills ----------

    /** The front order of one side gives up `take`; if that is all of it, it leaves the book. */
    method Consume(makerId: nat, side: Side, take: nat, ghost taker: nat)
      requires Holds([taker])
      requires sides.On(side) != [] && sides.On(side)[0].id == makerId && 0 < take <= sides.On(side)[0].qty
      modifies bidLevels, askLevels, orders, free, this`freeTop, this`sides
      ensures Holds([taker])
      ensures var s := old(sides).On(side);
              && sides == old(sides).With(side, if take == s[0].qty then s[1..] else Reduced(s, take))
              && Stack() == if take == s[0].qty then old(Stack()) + [makerId] else old(Stack())
      ensures taker < orders.Length && orders[taker] == old(orders[taker])
    {
      FillFront(makerId, side, take, taker);
      if orders[makerId].qty == 0 {
        Retire(makerId, side, taker);
      }
    }

    method FillFront(makerId: nat, side: Side, take: nat, ghost taker: nat)
      requires Holds([taker])
      requires sides.On(side) != [] && sides.On(side)[0].id == makerId && 0 < take <= sides.On(side)[0].qty
      modifies bidLevels, askLevels, orders, this`sides
      ensures sides == old(sides).With(side, Reduced(old(sides).On(side), take))
      ensures Shape() && Linked(Cfg(), sides, Stack(), [taker], Snap()) && Counted(sides, Snap())
      ensures if take < old(sides).On(side)[0].qty then SidesOk(Cfg(), sides)
              else SidesOk(Cfg(), sides.With(side, sides.On(side)[1..]))
      ensures makerId < orders.Length && orders[makerId].qty == old(sides).On(side)[0].qty - take
      ensures sides.With(side, sides.On(side)[1..]) == old(sides).With(side, old(sides).On(side)[1..])
      ensures taker < orders.Length && orders[taker] == old(orders[taker])
    {
      hide Represents, Linked, Counted, SidesOk;
      ghost var st := Snap();
      FrontReady(Cfg(), sides, Stack(), taker, st, side);
      Fill(makerId, side, take);
      ConsumeDone(Cfg(), sides, Stack(), [taker], st, side, take);
      sides := sides.With(side, Reduced(sides.On(side), take));
    }

    /** Take `take` off the order and off its level. */
    method Fill(makerId: nat, side: Side, take: nat)
      requires Shape() && CanTakeOff(Snap(), makerId, side, take)
      modifies Levels(side), orders
      ensures Snap() == TakeOff(old(Snap()), makerId, side, take)
    {
      var levels := Levels(side);
      assert orders[..][makerId] == orders[makerId] && levels[..][orders[makerId].px] == levels[orders[makerId].px];
      var px := orders[makerId].px;
      orders[makerId] := orders[makerId].(qty := orders[makerId].qty - take);
      levels[px] := levels[px].(qty := levels[px].qty - take);
    }

    /** An order with nothing left leaves the front of the queue and its slot becomes free. */
    method Retire(makerId: nat, side: Side, ghost taker: nat)
      requires Shape() && Linked(Cfg(), sides, Stack(), [taker], Snap()) && Counted(sides, Snap())
      requires sides.On(side) != [] && sides.On(side)[0].id == makerId && sides.On(side)[0].qty == 0
      requires SidesOk(Cfg(), sides.With(side, sides.On(side)[1..]))
      modifies bidLevels, askLevels, orders, free, this`freeTop, this`sides
      ensures Holds([taker])
      ensures sides == old(sides).With(side, old(sides).On(side)[1..])
      ensures Stack() == old(Stack()) + [makerId]
      ensures taker < orders.Length && orders[taker] == old(orders[taker])
    {
      hide Linked, Counted, SidesOk, Bypassed, Detached;
      ghost var st := Snap();
      HeldNotFront(Cfg(), sides, Stack(), taker, st, side);
      UnlinkFrom(makerId, side, 0, [taker]);
      RetireCounted(Cfg(), old(sides), Stack(), [taker], st, Snap(), side);
      Release(makerId, [taker]);
    }

    /** Write a fill where the caller has room for it. */
    method Record(execs: array?<Exec>, cap: nat, n: nat, e: Exec)
      requires execs != null ==> cap <= execs.Length
      modifies execs
      ensures Recorded(old(Buffer(execs)), Buffer(execs), cap, n, [e])
    {
      if execs != null && n < cap {
        execs[n] := e;
      }
    }

    /** Fill the taker from one level, front first, until either is used up. */
    method TakeLevel(side: Side, px: nat, takerId: nat, remaining0: nat, execs: array?<Exec>, cap: nat, nexec0: nat,
                     ghost limit: nat)
        returns (remaining: nat, nexec: nat, ghost fills: seq<Exec>)
      requires Holds([takerId]) && minPx <= px <= maxPx
      requires sides.On(side) == [] || !Ahead(side, sides.On(side)[0].px, px)
      requires Crosses(side.Opposite(), limit, px)
      requires execs != null ==> cap <= execs.Length
      modifies bidLevels, askLevels, orders, free, this`freeTop, this`sides, execs
      ensures Holds([takerId])
      ensures sides.On(side.Opposite()) == old(sides).On(side.Opposite())
      ensures sides.On(side) == [] || !Ahead(side, sides.On(side)[0].px, px)
      ensures remaining == 0 || sides.On(side) == [] || sides.On(side)[0].px != px
      ensures Progress(old(sides).On(side), old(Stack()), remaining0, fills, sides.On(side), Stack(), remaining,
                       side.Opposite(), takerId, limit)
      ensures old(sides).On(side) != [] && old(sides).On(side)[0].px == px && remaining0 > 0 ==> remaining < remaining0
      ensures remaining <= remaining0
      ensures nexec == nexec0 + |fills| && Recorded(old(Buffer(execs)), Buffer(execs), cap, nexec0, fills)
      ensures fills == [] ==> free[..] == old(free[..])
      ensures takerId < orders.Length && orders[takerId] == old(orders[takerId])
    {
      hide Represents, Progress, Recorded, Match, Freed;
      remaining, nexec, fills := remaining0, nexec0, [];
      TakerSlot(Cfg(), sides, Stack(), takerId, Snap());
      ProgressStart(sides.On(side), Stack(), remaining, side.Opposite(), takerId, limit);
      RecordedStart(Buffer(execs), cap, nexec);
      LevelHead(Cfg(), sides, Stack(), [takerId], Snap(), side, px);
      while remaining != 0 && Levels(side)[px].head != 0
        invariant Holds([takerId])
        invariant sides.On(side.Opposite()) == old(sides).On(side.Opposite())
        invariant FrontAt(sides.On(side), side, px, Levels(side)[px].head)
        invariant Progress(old(sides).On(side), old(Stack()), remaining0, fills, sides.On(side), Stack(), remaining,
                           side.Opposite(), takerId, limit)
        invariant remaining <= remaining0
        invariant remaining == remaining0 ==> sides == old(sides)
        invariant nexec == nexec0 + |fills| && Recorded(old(Buffer(execs)), Buffer(execs), cap, nexec0, fills)
        invariant fills == [] ==> free[..] == old(free[..])
        invariant takerId < orders.Length && orders[takerId] == old(orders[takerId])
        decreases remaining
      {
        ghost var s, stack, buf := sides.On(side), Stack(), Buffer(execs);
        var take, fill := TakeFront(side, px, takerId, remaining, execs, cap, nexec, limit);
        ProgressTrans(old(sides).On(side), old(Stack()), remaining0, fills, s, stack, remaining, [fill],
                      sides.On(side), Stack(), remaining - take, side.Opposite(), takerId, limit);
        RecordedTrans(old(Buffer(execs)), buf, Buffer(execs), cap, nexec0, fills, [fill]);
        fills := fills + [fill];
        nexec := nexec + 1;
        remaining := remaining - take;
      }
    }

    /** One fill against the head of the level. */
    method TakeFront(side: Side, px: nat, takerId: nat, remaining: nat, execs: array?<Exec>, cap: nat, nexec: nat,
                     ghost limit: nat)
        returns (take: nat, fill: Exec)
      requires Holds([takerId]) && minPx <= px <= maxPx && remaining > 0
      requires sides.On(side) != [] && sides.On(side)[0].px == px && Levels(side)[px].head == sides.On(side)[0].id
      requires Crosses(side.Opposite(), limit, px)
      requires execs != null ==> cap <= execs.Length
      modifies bidLevels, askLevels, orders, free, this`freeTop, this`sides, execs
      ensures Holds([takerId])
      ensures sides.On(side.Opposite()) == old(sides).On(side.Opposite())
      ensures FrontAt(sides.On(side), side, px, Levels(side)[px].head)
      ensures 0 < take <= remaining
      ensures Progress(old(sides).On(side), old(Stack()), remaining, [fill], sides.On(side), Stack(), remaining - take,
                       side.Opposite(), takerId, limit)
      ensures Recorded(old(Buffer(execs)), Buffer(execs), cap, nexec, [fill])
      ensures takerId < orders.Length && orders[takerId] == old(orders[takerId])
    {
      hide Represents, Progress, Recorded;
      var makerId := Levels(side)[px].head;
      FrontRecord(Cfg(), sides, Stack(), [takerId], Snap(), side);
      FrontInRange(Cfg(), sides, Stack(), [takerId], Snap(), side);
      TakerSlot(Cfg(), sides, Stack(), takerId, Snap());
      assert orders[makerId] == Snap().orders[makerId];
      take := Min(orders[makerId].qty, remaining);
      fill := Exec(makerId, takerId, orders[makerId].px, take);
      ProgressStep(sides.On(side), Stack(), remaining, side.Opposite(), takerId, limit);
      Record(execs, cap, nexec, fill);
      Consume(makerId, side, take, takerId);
      LevelHead(Cfg(), sides, Stack(), [takerId], Snap(), side, px);
    }

    /** Lift asks, best first, while they are within a buyer's limit. */
    method LiftAsks(takerId: nat, qty: nat, limit: nat, execs: array?<Exec>, cap: nat)
        returns (remaining: nat, nexec: nat, ghost fills: seq<Exec>)
      requires Holds([takerId]) && BestsOk()
      requires execs != null ==> cap <= execs.Length
      modifies bidLevels, askLevels, orders, free, this`freeTop, this`sides, this`bestAsk, execs
      ensures Holds([takerId]) && BestsOk()
      ensures sides.bids == old(sides).bids
      ensures Match(old(sides).asks, Buy, takerId, limit, qty) == Matched(fills, sides.asks, remaining)
      ensures Stack() == old(Stack()) + Freed(old(sides).asks, Buy, takerId, limit, qty)
      ensures nexec == |fills| && Recorded(old(Buffer(execs)), Buffer(execs), cap, 0, fills)
      ensures fills == [] ==> free[..] == old(free[..])
      ensures takerId < orders.Length && orders[takerId] == old(orders[takerId])
    {
      hide Represents, Progress, Recorded, Match, Freed;
      remaining, nexec, fills := qty, 0, [];
      TakerSlot(Cfg(), sides, Stack(), takerId, Snap());
      ProgressStart(sides.asks, Stack(), remaining, Buy, takerId, limit);
      RecordedStart(Buffer(execs), cap, nexec);
      while remaining != 0 && bestAsk != 0 && bestAsk <= limit
        invariant Holds([takerId]) && BestsOk()
        invariant sides.bids == old(sides).bids
        invariant Progress(old(sides).asks, old(Stack()), qty, fills, sides.asks, Stack(), remaining, Buy, takerId,
                           limit)
        invariant nexec == |fills| && Recorded(old(Buffer(execs)), Buffer(execs), cap, 0, fills)
        invariant fills == [] ==> free[..] == old(free[..])
        invariant takerId < orders.Length && orders[takerId] == old(orders[takerId])
        decreases remaining
      {
        FrontInRange(Cfg(), sides, Stack(), [takerId], Snap(), Sell);
        ghost var s, stack, buf, left := sides.asks, Stack(), Buffer(execs), remaining;
        ghost var f;
        remaining, nexec, f := TakeLevel(Sell, bestAsk, takerId, remaining, execs, cap, nexec, limit);
        ProgressTrans(old(sides).asks, old(Stack()), qty, fills, s, stack, left, f,
                      sides.asks, Stack(), remaining, Buy, takerId, limit);
        RecordedTrans(old(Buffer(execs)), buf, Buffer(execs), cap, 0, fills, f);
        fills := fills + f;
        LevelEmpty(Cfg(), sides, Stack(), [takerId], Snap(), Sell, bestAsk);
        assert askLevels[bestAsk] == Snap().askLevels[bestAsk];
        if askLevels[bestAsk].qty == 0 {
          TightenAsk([takerId]);
        }
      }
      FrontInRange(Cfg(), sides, Stack(), [takerId], Snap(), Sell);
      ProgressDone(old(sides).asks, old(Stack()), qty, fills, sides.asks, Stack(), remaining, Buy, takerId, limit);
    }

    /** Hit bids, best first, while they are within a seller's limit. */
    method HitBids(takerId: nat, qty: nat, limit: nat, execs: array?<Exec>, cap: nat)
        returns (remaining: nat, nexec: nat, ghost fills: seq<Exec>)
      requires Holds([takerId]) && BestsOk()
      requires execs != null ==> cap <= execs.Length
      modifies bidLevels, askLevels, orders, free, this`freeTop, this`sides, this`bestBid, execs
      ensures Holds([takerId]) && BestsOk()
      ensures sides.asks == old(sides).asks
      ensures Match(old(sides).bids, Sell, takerId, limit, qty) == Matched(fills, sides.bids, remaining)
      ensures Stack() == old(Stack()) + Freed(old(sides).bids, Sell, takerId, limit, qty)
      ensures nexec == |fills| && Recorded(old(Buffer(execs)), Buffer(execs), cap, 0, fills)
      ensures fills == [] ==> free[..] == old(free[..])
      ensures takerId < orders.Length && orders[takerId] == old(orders[takerId])
    {
      hide Represents, Progress, Recorded, Match, Freed;
      remaining, nexec, fills := qty, 0, [];
      TakerSlot(Cfg(), sides, Stack(), takerId, Snap());
      ProgressStart(sides.bids, Stack(), remaining, Sell, takerId, limit);
      RecordedStart(Buffer(execs), cap, nexec);
      while remaining != 0 && bestBid != 0 && bestBid >= limit
        invariant Holds([takerId]) && BestsOk()
        invariant sides.asks == old(sides).asks
        invariant Progress(old(sides).bids, old(Stack()), qty, fills, sides.bids, Stack(), remaining, Sell, takerId,
                           limit)
        invariant nexec == |fills| && Recorded(old(Buffer(execs)), Buffer(execs), cap, 0, fills)
        invariant fills == [] ==> free[..] == old(free[..])
        invariant takerId < orders.Length && orders[takerId] == old(orders[takerId])
        decreases remaining
      {
        FrontInRange(Cfg(), sides, Stack(), [takerId], Snap(), Buy);
        ghost var s, stack, buf, left := sides.bids, Stack(), Buffer(execs), remaining;
        ghost var f;
        remaining, nexec, f := TakeLevel(Buy, bestBid, takerId, remaining, execs, cap, nexec, limit);
        ProgressTrans(old(sides).bids, old(Stack()), qty, fills, s, stack, left, f,
                      sides.bids, Stack(), remaining, Sell, takerId, limit);
        RecordedTrans(old(Buffer(execs)), buf, Buffer(execs), cap, 0, fills, f);
        fills := fills + f;
        LevelEmpty(Cfg(), sides, Stack(), [takerId], Snap(), Buy, bestBid);
        assert bidLevels[bestBid] == Snap().bidLevels[bestBid];
        if bidLevels[bestBid].qty == 0 {
          TightenBid([takerId]);
        }
      }
      FrontInRange(Cfg(), sides, Stack(), [takerId], Snap(), Buy);
      ProgressDone(old(sides).bids, old(Stack()), qty, fills, sides.bids, Stack(), remaining, Sell, takerId, limit);
    }

    /** Run the order in slot takerId against the other side. */
    method MatchOrder(takerId: nat, execs: array?<Exec>, cap: nat)
        returns (remaining: nat, nexec: nat, ghost fills: seq<Exec>)
      requires Holds([takerId]) && BestsOk() && takerId < orders.Length
      requires execs != null ==> cap <= execs.Length
      modifies bidLevels, askLevels, orders, free, this`freeTop, this`sides, this`bestBid, this`bestAsk, execs
      ensures Holds([takerId]) && BestsOk()
      ensures var o := old(orders[takerId]);
              && orders[takerId] == o
              && sides.On(o.side) == old(sides).On(o.side)
              && Match(old(sides).On(o.side.Opposite()), o.side, takerId, o.px, o.qty)
                   == Matched(fills, sides.On(o.side.Opposite()), remaining)
              && Stack() == old(Stack()) + Freed(old(sides).On(o.side.Opposite()), o.side, takerId, o.px, o.qty)
      ensures nexec == |fills| && Recorded(old(Buffer(execs)), Buffer(execs), cap, 0, fills)
      ensures fills == [] ==> free[..] == old(free[..])
    {
      hide Represents, Recorded, Match, Freed;
      var taker := orders[takerId];
      if taker.side == Buy {
        remaining, nexec, fills := LiftAsks(takerId, taker.qty, taker.px, execs, cap);
      } else {
        remaining, nexec, fills := HitBids(takerId, taker.qty, taker.px, execs, cap);
      }
    }

    // ---------- best prices ----------

    method TightenBid(ghost held: seq<nat>)
      requires Holds(held)
      requires minPx <= bestBid <= maxPx
      requires sides.bids == [] || sides.bids[0].px <= bestBid
      modifies this`bestBid
      ensures bestBid == BestOf(sides.bids)
    {
      hide Linked;
      var p := bestBid;
      while p >= minPx && bidLevels[p].qty == 0
        invariant minPx <= p <= maxPx
        invariant sides.bids == [] || sides.bids[0].px <= p
        decreases p
      {
        LevelEmpty(Cfg(), sides, Stack(), held, Snap(), Buy, p);
        if p == minPx {
          bestBid := 0;
          return;
        }
        p := p - 1;
      }
      LevelEmpty(Cfg(), sides, Stack(), held, Snap(), Buy, p);
      bestBid := p;
    }

    method TightenAsk(ghost held: seq<nat>)
      requires Holds(held)
      requires minPx <= bestAsk <= maxPx
      requires sides.asks == [] || sides.asks[0].px >= bestAsk
      modifies this`bestAsk
      ensures bestAsk == BestOf(sides.asks)
    {
      hide Linked;
      var p := bestAsk;
      while p <= maxPx && askLevels[p].qty == 0
        invariant minPx <= p <= maxPx
        invariant sides.asks == [] || sides.asks[0].px >= p
        decreases maxPx - p
      {
        LevelEmpty(Cfg(), sides, Stack(), held, Snap(), Sell, p);
        if p == maxPx {
          bestAsk := 0;
          return;
        }
        p := p + 1;
      }
      LevelEmpty(Cfg(), sides, Stack(), held, Snap(), Sell, p);
      bestAsk := p;
    }

    method OnLevelEmpty(side: Side, px: nat)
      requires Holds([]) && minPx <= px <= maxPx
      requires side == Buy && px == bestBid ==> sides.bids == [] || sides.bids[0].px <= px
      requires side == Sell && px == bestAsk ==> sides.asks == [] || sides.asks[0].px >= px
      requires !(side == Buy && px == bestBid) ==> bestBid == BestOf(sides.bids)
      requires !(side == Sell && px == bestAsk) ==> bestAsk == BestOf(sides.asks)
      modifies this`bestBid, this`bestAsk
      ensures BestsOk()
    {
      hide Represents;
      if side == Buy && px == bestBid {
        TightenBid([]);
      } else if side == Sell && px == bestAsk {
        TightenAsk([]);
      }
    }

    // ---------- the client's two calls ----------

    /** The part of a limit order after it got slot id: match, then rest what is left. */
    method Process(id: nat, side: Side, px: nat, qty: nat, execs: array?<Exec>, cap: nat)
        returns (rested: nat, nexec: nat)
      requires Holds([id]) && BestsOk() && minPx <= px <= maxPx && qty > 0
      requires execs != null ==> cap <= execs.Length
      requires Room(sides, side, px, qty)
      modifies bidLevels, askLevels, orders, free, this`freeTop, this`sides, this`bestBid, this`bestAsk, execs
      ensures Holds([]) && BestsOk()
      ensures var t := Trade(old(sides), side, px, qty, id);
              var freed := Freed(old(sides).On(side.Opposite()), side, id, px, qty);
              && sides == t.sides && nexec == |t.fills|
              && rested == (if t.remaining == 0 then INVALID_ID else id)
              && Stack() == old(Stack()) + freed + (if t.remaining == 0 then [id] else [])
              && Recorded(old(Buffer(execs)), Buffer(execs), cap, 0, t.fills)
      ensures rested != INVALID_ID && nexec == 0 ==> free[..] == old(free[..])
    {
      hide Recorded, Match, Freed, Enqueue, Linked, Counted, SidesOk;
      HeldUpdate(Cfg(), sides, Stack(), id, Snap(), Order(0, 0, qty, px, side));
      orders[id] := Order(0, 0, qty, px, side);
      ghost var fills;
      var remaining;
      remaining, nexec, fills := MatchOrder(id, execs, cap);
      MatchRemaining(old(sides).On(side.Opposite()), side, id, px, qty);
      HeldUpdate(Cfg(), sides, Stack(), id, Snap(), orders[id].(qty := remaining));
      orders[id] := orders[id].(qty := remaining);
      if remaining == 0 {
        assert [] + [id] == [id];
        Release(id, []);
        Whole(Cfg(), sides, Stack(), [], Snap());
        rested := INVALID_ID;
      } else {
        Rest(id, side);
        rested := id;
      }
    }

    method Limit(side: Side, px: nat, qty: nat, execs: array?<Exec>, cap: nat) returns (id: nat, nexec: nat)
      requires Valid()
      requires execs != null ==> cap <= execs.Length
      requires qty > 0 && minPx <= px <= maxPx && |sides.bids| + |sides.asks| < maxOrders ==> Room(sides, side, px, qty)
      modifies bidLevels, askLevels, orders, free, this`freeTop, this`sides, this`bestBid, this`bestAsk, execs
      ensures Valid()
      ensures var r := LadderLimit(Cfg(), old(Abs()), side, px, qty);
              && Abs() == r.book && id == r.id && nexec == |r.fills|
              && Recorded(old(Buffer(execs)), Buffer(execs), cap, 0, r.fills)
      ensures qty > 0 && minPx <= px <= maxPx && |old(sides.bids)| + |old(sides.asks)| < maxOrders
              <==> id != 0 || nexec > 0
      ensures id == 0 && nexec == 0 ==>
                unchanged(this, bidLevels, askLevels, orders, free) && Buffer(execs) == old(Buffer(execs))
      ensures id != INVALID_ID && nexec == 0 ==> free[..] == old(free[..])
    {
      hide Represents, Recorded, Match, Freed, Enqueue, Uncrossed, LadderLimit, Trade, Greedy;
      RecordedStart(Buffer(execs), cap, 0);
      BookFacts(this);
      LimitAccepts(Cfg(), Abs(), side, px, qty);
      LimitCases(Cfg(), Abs(), side, px, qty);
      if qty == 0 || px < minPx || px > maxPx {
        return INVALID_ID, 0;
      }
      StaysUncrossed(Cfg(), sides, Stack(), Snap(), side, px, qty);
      ghost var slot := if freeTop > 0 then Stack()[freeTop - 1] else 0;
      id := Acquire();
      if id == INVALID_ID {
        return INVALID_ID, 0;
      }
      assert id == slot && Stack() == old(Stack())[..old(freeTop) - 1];
      id, nexec := Process(id, side, px, qty, execs, cap);
    }

    /** A resting order leaves its level and its slot becomes free. */
    method TakeOut(id: nat, side: Side, px: nat, ghost k: nat)
      requires Holds([])
      requires k < |sides.On(side)| && sides.On(side)[k].id == id && sides.On(side)[k].px == px
      modifies bidLevels, askLevels, orders, free, this`freeTop, this`sides
      ensures Holds([])
      ensures sides == old(sides).With(side, Remove(old(sides).On(side), k))
      ensures Stack() == old(Stack()) + [id]
      ensures freeTop == old(freeTop) + 1 <= free.Length && free[..] == old(free[..])[old(freeTop) := id]
    {
      hide Represents, Linked, Counted, SidesOk, Bypassed, Detached;
      ghost var st := Snap();
      LiveRecord(Cfg(), sides, Stack(), st, side, k);
      assert orders[id] == st.orders[id] && Levels(side)[px] == st.Levels(side)[px];
      var levels := Levels(side);
      levels[px] := levels[px].(qty := levels[px].qty - orders[id].qty);
      ghost var st1 := Snap();
      ghost var lv := st.Levels(side)[px];
      assert st1.Levels(side) == st.Levels(side)[px := lv.(qty := lv.qty - st.orders[id].qty)];
      LevelDropped(Cfg(), sides, Stack(), st, st1, side, k);
      UnlinkFrom(id, side, k, []);
      TakenOut(Cfg(), old(sides), Stack(), st, st1, Snap(), side, k);
      Release(id, []);
      Whole(Cfg(), sides, Stack(), [], Snap());
    }

    /** Take a resting order out; false if nothing rests under this id. */
    method Cancel(id: nat) returns (ok: bool)
      requires Valid()
      modifies bidLevels, askLevels, orders, free, this`freeTop, this`sides, this`bestBid, this`bestAsk
      ensures Valid()
      ensures Abs() == LadderCancel(old(Abs()), id)
      ensures ok <==> Live(old(sides), id)
      ensures ok ==> old(freeTop) < free.Length && free[..] == old(free[..])[old(freeTop) := id]
      ensures !ok ==> unchanged(this, bidLevels, askLevels, orders, free)
    {
      hide Represents, Uncrossed, Withdraw, Live, TotalAt, Remove;
      FindLive(Cfg(), sides, Stack(), Snap(), id);
      if id == INVALID_ID || id > maxOrders {
        return false;
      }
      assert orders[id] == Snap().orders[id];
      if orders[id].qty == 0 {
        return false;
      }
      var side, px := orders[id].side, orders[id].px;
      ghost var k := IndexOf(sides.On(side), id);
      WithdrawUncrossed(sides, id);
      BestAfterRemove(Cfg(), sides, Stack(), Snap(), side, k);
      TakeOut(id, side, px, k);
      RepresentsTotals(Cfg(), sides, Stack(), [], Snap(), side, px);
      assert Levels(side)[px] == Snap().Levels(side)[px];
      if Levels(side)[px].qty == 0 {
        OnLevelEmpty(side, px);
      }
      return true;
    }
  }

  /** The initial free stack: the first slot handed out is 1. */
  function Countdown(n: nat): seq<nat> {
    seq(n, i requires 0 <= i < n => n - i)
  }

  /** The initial free stack hands out every slot once. */
  lemma CountdownSlots(c: Config, stack: seq<nat>)
    requires |stack| == c.maxOrders
    requires forall i :: 0 <= i < |stack| ==> stack[i] == c.maxOrders - i
    ensures Slots(c, Sides([], []), stack, [])
  {
    forall id: nat
      ensures multiset(stack)[id] == if 1 <= id <= c.maxOrders then 1 else 0
    {
      if 1 <= id <= c.maxOrders {
        var i := c.maxOrders - id;
        assert stack == stack[..i] + [id] + stack[i + 1..];
        assert id !in stack[..i] && id !in stack[i + 1..];
      } else {
        assert id !in stack;
      }
    }
    assert Ids([]) == [];
  }

  lemma EmptyRepresents(c: Config, stack: seq<nat>, st: Store)
    requires |st.bidLevels| == |st.askLevels| == c.maxPx + 1 && |st.orders| == c.maxOrders + 1
    requires forall p :: 0 <= p <= c.maxPx ==> st.bidLevels[p] == st.askLevels[p] == EMPTY_LEVEL
    requires forall i :: 0 <= i <= c.maxOrders ==> st.orders[i] == EMPTY_ORDER
    requires Slots(c, Sides([], []), stack, [])
    ensures Represents(c, Sides([], []), stack, [], st)
  {
    forall i | 0 <= i < |stack| ensures 1 <= stack[i] <= c.maxOrders {
      StackAt(c, Sides([], []), stack, [], i);
    }
  }

  lemma RepresentsTotals(c: Config, b: Sides, stack: seq<nat>, held: seq<nat>, st: Store, side: Side, px: nat)
    requires Represents(c, b, stack, held, st)
    ensures if c.minPx <= px <= c.maxPx then st.Levels(side)[px].qty == TotalAt(b.On(side), px)
            else TotalAt(b.On(side), px) == 0
  {
    LinkedOn(c, b, stack, held, st, side);
    if !(c.minPx <= px <= c.maxPx) {
      NobodyThere(b.On(side), px);
    }
  }

  /** Slot numbers met while taking s[k] out are in range and distinct. */
  lemma LinkSlots(c: Config, side: Side, s: seq<Resting>, k: nat, levels: seq<Level>, orders: seq<Order>)
    requires SideLinked(c, side, s, levels, orders) && Distinct(s) && |levels| == c.maxPx + 1
    requires k < |s|
    ensures s[k].id < |orders| && s[k].px < |levels|
    ensures var o := orders[s[k].id];
            && o.px == s[k].px && o.side == side && o.prev == PrevId(s, k) && o.next == NextId(s, k)
            && o.prev < |orders| && o.next < |orders|
            && o.prev != s[k].id && o.next != s[k].id
            && (o.prev != 0 ==> o.prev != o.next)
  {
    assert NodeOk(side, s, k, orders);
    assert k > 0 ==> NodeOk(side, s, k - 1, orders);
    assert k + 1 < |s| ==> NodeOk(side, s, k + 1, orders);
  }

  /** What a client may take from a valid book. */
  lemma BookFacts(book: Book)
    requires book.Valid()
    ensures book.BestsOk() && Slots(book.Cfg(), book.sides, book.Stack(), [])
    ensures |book.sides.bids| + |book.sides.asks| <= book.maxOrders
  {
  }

  lemma HookJoins(o: Resting, levels: seq<Level>, levels': seq<Level>)
    requires o.px < |levels| && levels' == levels[o.px := Hooked(levels[o.px], o.id, o.qty)]
    requires levels[o.px].qty + o.qty < TWO_TO_32
    ensures Joined(o, levels, levels')
  {
  }

  lemma RestReady(c: Config, b: Sides, stack: seq<nat>, st: Store, side: Side, o: Resting)
    requires Represents(c, b, stack, [o.id], st)
    requires o.px <= c.maxPx && Room(b, side, o.px, o.qty) && c.minPx <= o.px
    ensures 1 <= o.id <= c.maxOrders && |st.orders| == c.maxOrders + 1 && |st.Levels(side)| == c.maxPx + 1
    ensures var lv := st.Levels(side)[o.px];
            && lv.tail == TailId(b.On(side), o.px) && lv.tail <= c.maxOrders && lv.tail != o.id
            && lv.qty + o.qty < TWO_TO_32
    ensures b.On(side) != [] ==> b.On(side)[0].px >= c.minPx
  {
    var s := b.On(side);
    LinkedOn(c, b, stack, [o.id], st, side);
    TailSlot(side, s, o.px, st.Levels(side));
    HeldAt(c, b, stack, [o.id], 0);
    RepresentsTotals(c, b, stack, [o.id], st, side, o.px);
    var tail := st.Levels(side)[o.px].tail;
    if tail != 0 {
      var k :| 0 <= k < |s| && Ids(s)[k] == tail;
      assert s[k].id == tail;
    }
  }

  /** The level record after the order o leaves it. */
  function Unhooked(lv: Level, o: Order): Level {
    lv.(head := if o.prev == 0 then o.next else lv.head, tail := if o.next == 0 then o.prev else lv.tail)
  }

  /** The level record after slot id joins it with qty. */
  function Hooked(lv: Level, id: nat, qty: nat): Level {
    Level(if lv.tail != 0 then lv.head else id, id, (lv.qty + qty) % TWO_TO_32)
  }

  lemma UnhookDetaches(side: Side, s: seq<Resting>, k: nat, levels: seq<Level>, levels': seq<Level>, orders: seq<Order>)
    requires NodesOk(side, s, orders) && k < |s| && s[k].id < |orders| && s[k].px < |levels|
    requires levels' == levels[s[k].px := Unhooked(levels[s[k].px], orders[s[k].id])]
    ensures Detached(s, k, levels, levels')
  {
    assert NodeOk(side, s, k, orders);
  }

  lemma TailSlot(side: Side, s: seq<Resting>, px: nat, levels: seq<Level>)
    requires HeadsOk(s, levels) && px < |levels|
    ensures levels[px].tail == TailId(s, px)
    ensures levels[px].tail != 0 ==> levels[px].tail in Ids(s)
  {
    var l := Last(s, px);
    assert l > 0 ==> Ids(s)[l - 1] == s[l - 1].id;
  }

  lemma UnlinkReady(c: Config, b: Sides, stack: seq<nat>, held: seq<nat>, st: Store, side: Side, k: nat)
    requires Linked(c, b, stack, held, st) && k < |b.On(side)|
    ensures var id := b.On(side)[k].id;
            && 1 <= id < |st.orders| == c.maxOrders + 1
            && var o := st.orders[id];
            && o.side == side && o.px == b.On(side)[k].px && o.px <= c.maxPx && |st.Levels(side)| == c.maxPx + 1
            && o.prev < |st.orders| && o.next < |st.orders|
            && o.prev != id && o.next != id && (o.prev != 0 ==> o.prev != o.next)
  {
    LinkedOn(c, b, stack, held, st, side);
    LinkSlots(c, side, b.On(side), k, st.Levels(side), st.orders);
  }

  lemma UnlinkDone(c: Config, b: Sides, stack: seq<nat>, held: seq<nat>, st: Store, st': Store, side: Side, k: nat)
    requires Linked(c, b, stack, held, st) && k < |b.On(side)|
    requires var id := b.On(side)[k].id;
             && id < |st.orders| && st.orders[id].px < |st.Levels(side)|
             && Bypassed(st.orders, st'.orders, id)
             && var o := st.orders[id];
             st'.Levels(side) == st.Levels(side)[o.px := Unhooked(st.Levels(side)[o.px], o)]
    requires st'.Levels(side.Opposite()) == st.Levels(side.Opposite())
    ensures Linked(c, b.With(side, Remove(b.On(side), k)), stack, held + [b.On(side)[k].id], st')
    ensures Detached(b.On(side), k, st.Levels(side), st'.Levels(side))
    ensures forall j: nat :: j < |st.orders| && j !in Ids(b.On(side)) ==> st'.orders[j] == st.orders[j]
  {
    LinkedOn(c, b, stack, held, st, side);
    assert NodeOk(side, b.On(side), k, st.orders);
    UnhookDetaches(side, b.On(side), k, st.Levels(side), st'.Levels(side), st.orders);
    BypassFrame(side, b.On(side), k, st.orders, st'.orders);
    UnlinkKeeps(c, b, stack, held, st, st', side, k);
  }

  predicate CanTakeOff(st: Store, id: nat, side: Side, take: nat) {
    && id < |st.orders| && st.orders[id].px < |st.Levels(side)|
    && take <= st.orders[id].qty && take <= st.Levels(side)[st.orders[id].px].qty
  }

  function TakeOff(st: Store, id: nat, side: Side, take: nat): Store
    requires CanTakeOff(st, id, side, take)
  {
    var l := st.Levels(side);
    var px := st.orders[id].px;
    var levels := l[px := l[px].(qty := l[px].qty - take)];
    var orders := st.orders[id := st.orders[id].(qty := st.orders[id].qty - take)];
    if side.Buy? then Store(levels, st.askLevels, orders) else Store(st.bidLevels, levels, orders)
  }

  /** The front order's records are in range and agree with the queue. */
  lemma FrontReady(c: Config, b: Sides, stack: seq<nat>, taker: nat, st: Store, side: Side)
    requires Represents(c, b, stack, [taker], st) && b.On(side) != []
    ensures var r := b.On(side)[0]; forall take: nat :: take <= r.qty ==> CanTakeOff(st, r.id, side, take)
    ensures 1 <= taker <= c.maxOrders && b.On(side)[0].id != taker
  {
    FrontRecord(c, b, stack, [taker], st, side);
    HeldNotFront(c, b, stack, taker, st, side);
  }

  lemma FrontRecord(c: Config, b: Sides, stack: seq<nat>, held: seq<nat>, st: Store, side: Side)
    requires Represents(c, b, stack, held, st) && b.On(side) != []
    ensures var r := b.On(side)[0];
            && 1 <= r.id <= c.maxOrders && c.minPx <= r.px <= c.maxPx
            && |st.orders| == c.maxOrders + 1 && |st.Levels(side)| == c.maxPx + 1
            && st.orders[r.id].px == r.px && st.orders[r.id].qty == r.qty && st.orders[r.id].side == side
            && r.qty <= st.Levels(side)[r.px].qty
    ensures b.On(side)[0].qty > 0
  {
    var s := b.On(side);
    LinkedOn(c, b, stack, held, st, side);
    assert NodeOk(side, s, 0, st.orders);
    assert SideOk(c, side, s) && QtyOk(s, st.Levels(side), st.orders);
    FrontLevel(c, side, s, s[0].px);
  }

  lemma TakeOffParts(st: Store, id: nat, side: Side, take: nat)
    requires CanTakeOff(st, id, side, take)
    ensures id < |st.orders| && st.orders[id].px < |st.Levels(side)|
    ensures take <= st.orders[id].qty && take <= st.Levels(side)[st.orders[id].px].qty
    ensures var l, px := st.Levels(side), st.orders[id].px;
            var st' := TakeOff(st, id, side, take);
            && st'.orders == st.orders[id := st.orders[id].(qty := st.orders[id].qty - take)]
            && st'.Levels(side) == l[px := l[px].(qty := l[px].qty - take)]
            && st'.Levels(side.Opposite()) == st.Levels(side.Opposite())
  {
  }

  /** The queue behind the front order. */
  lemma RestOk(c: Config, b: Sides, stack: seq<nat>, held: seq<nat>, st: Store, side: Side)
    requires Represents(c, b, stack, held, st) && b.On(side) != []
    ensures SidesOk(c, b.With(side, b.On(side)[1..]))
  {
    hide Linked, Counted, SideOk;
    RemoveOk(c, b, side, 0);
    assert Remove(b.On(side), 0) == b.On(side)[1..];
  }

  lemma ConsumeDone(c: Config, b: Sides, stack: seq<nat>, held: seq<nat>, st: Store, side: Side, take: nat)
    requires Represents(c, b, stack, held, st) && b.On(side) != [] && take <= b.On(side)[0].qty
    requires CanTakeOff(st, b.On(side)[0].id, side, take)
    ensures var s := b.On(side);
            var s' := Reduced(s, take);
            var b' := b.With(side, s');
            var st' := TakeOff(st, s[0].id, side, take);
            && Linked(c, b', stack, held, st') && Counted(b', st')
            && st'.orders[s[0].id].qty == s[0].qty - take
            && b'.With(side, b'.On(side)[1..]) == b.With(side, s[1..])
            && (if take < s[0].qty then SidesOk(c, b') else SidesOk(c, b.With(side, s[1..])))
  {
    hide Represents, Linked, Counted, SidesOk, TakeOff, CanTakeOff;
    FrontRecord(c, b, stack, held, st, side);
    TakeOffParts(st, b.On(side)[0].id, side, take);
    ReduceKeeps(c, b, stack, held, st, TakeOff(st, b.On(side)[0].id, side, take), side, take);
    RestOk(c, b, stack, held, st, side);
    assert Reduced(b.On(side), take)[1..] == b.On(side)[1..];
  }

  lemma HeldNotFront(c: Config, b: Sides, stack: seq<nat>, taker: nat, st: Store, side: Side)
    requires Linked(c, b, stack, [taker], st)
    ensures 1 <= taker <= c.maxOrders && taker !in Ids(b.On(side))
    ensures b.On(side) != [] ==> b.On(side)[0].id != taker
  {
    HeldAt(c, b, stack, [taker], 0);
    assert b.On(side) != [] ==> Ids(b.On(side))[0] == b.On(side)[0].id;
  }

  lemma RetireTotals(s: seq<Resting>, levels: seq<Level>, levels': seq<Level>, orders: seq<Order>)
    requires s != [] && s[0].qty == 0 && QtyOk(s, levels, orders) && Detached(s, 0, levels, levels')
    ensures |levels'| == |levels|
    ensures forall p :: 0 <= p < |levels| ==>
              && levels'[p].qty == levels[p].qty
              && levels[p].qty == TotalAt(s, p) - (if p == s[0].px then s[0].qty else 0)
    ensures forall i :: 0 <= i < |s| && i != 0 ==> s[i].id < |orders| && orders[s[i].id].qty == s[i].qty
  {
    hide TotalAt;
  }

  lemma RetireCounted(c: Config, b: Sides, stack: seq<nat>, held: seq<nat>, st: Store, st': Store, side: Side)
    requires Linked(c, b, stack, held, st) && Counted(b, st)
    requires b.On(side) != [] && b.On(side)[0].qty == 0 && b.On(side)[0].id < |st.orders|
    requires Bypassed(st.orders, st'.orders, b.On(side)[0].id)
    requires Detached(b.On(side), 0, st.Levels(side), st'.Levels(side))
    requires st'.Levels(side.Opposite()) == st.Levels(side.Opposite())
    ensures b.With(side, Remove(b.On(side), 0)) == b.With(side, b.On(side)[1..])
    ensures Counted(b.With(side, b.On(side)[1..]), st')
  {
    hide Linked, Bypassed, QtyOk;
    assert Remove(b.On(side), 0) == b.On(side)[1..];
    RetireTotals(b.On(side), st.Levels(side), st'.Levels(side), st.orders);
    RemoveCounted(c, b, stack, held, st, st', side, 0);
  }

  /** Totals and quantities after the k-th order was unlinked, its quantity already taken off. */
  lemma LinkedSlots(c: Config, b: Sides, stack: seq<nat>, held: seq<nat>, st: Store, side: Side)
    requires Linked(c, b, stack, held, st)
    ensures forall i :: 0 <= i < |b.On(side)| ==> 0 < b.On(side)[i].id < |st.orders|
  {
    LinkedOn(c, b, stack, held, st, side);
  }

  lemma BypassedQty(orders: seq<Order>, orders': seq<Order>, id: nat)
    requires id < |orders| && Bypassed(orders, orders', id)
    ensures |orders'| == |orders| && forall j :: 0 <= j < |orders| ==> orders'[j].qty == orders[j].qty
  {
    forall j | 0 <= j < |orders|
      ensures orders'[j].qty == orders[j].qty
    {
      assert orders'[j] == LadderRep.Bypass(orders, id, j);
    }
  }

  lemma RemoveCounted(c: Config, b: Sides, stack: seq<nat>, held: seq<nat>, st: Store, st': Store, side: Side, k: nat)
    requires Linked(c, b, stack, held, st) && k < |b.On(side)| && b.On(side)[k].id < |st.orders|
    requires Bypassed(st.orders, st'.orders, b.On(side)[k].id)
    requires |st'.Levels(side)| == |st.Levels(side)| && st'.Levels(side.Opposite()) == st.Levels(side.Opposite())
    requires forall p :: 0 <= p < |st.Levels(side)| ==>
               && st'.Levels(side)[p].qty == st.Levels(side)[p].qty
               && st.Levels(side)[p].qty == TotalAt(b.On(side), p) - (if p == b.On(side)[k].px then b.On(side)[k].qty
                                                                      else 0)
    requires forall i :: 0 <= i < |b.On(side)| && i != k ==>
               b.On(side)[i].id < |st.orders| && st.orders[b.On(side)[i].id].qty == b.On(side)[i].qty
    requires QtyOk(b.On(side.Opposite()), st.Levels(side.Opposite()), st.orders)
    ensures Counted(b.With(side, Remove(b.On(side), k)), st')
  {
    hide Linked, Remove, TotalAt, Bypassed;
    var s := b.On(side);
    LinkedSlots(c, b, stack, held, st, side);
    BypassedQty(st.orders, st'.orders, s[k].id);
    RemoveTotals(s, k, st.Levels(side), st'.Levels(side), st.orders, st'.orders);
  }

  lemma RemoveTotals(s: seq<Resting>, k: nat, levels: seq<Level>, levels': seq<Level>, orders: seq<Order>,
                     orders': seq<Order>)
    requires k < |s| && |levels'| == |levels| && |orders'| == |orders|
    requires forall p :: 0 <= p < |levels| ==>
               && levels'[p].qty == levels[p].qty
               && levels[p].qty == TotalAt(s, p) - (if p == s[k].px then s[k].qty else 0)
    requires forall i :: 0 <= i < |s| ==> 0 < s[i].id < |orders|
    requires forall i :: 0 <= i < |s| && i != k ==> orders[s[i].id].qty == s[i].qty
    requires forall j :: 0 <= j < |orders| ==> orders'[j].qty == orders[j].qty
    ensures QtyOk(Remove(s, k), levels', orders')
  {
    hide Remove, TotalAt;
    RemoveAt(s, k);
    forall p: nat | p < |levels| ensures levels'[p].qty == TotalAt(Remove(s, k), p) {
      TotalAtRemove(s, k, p);
    }
  }

  /** Nobody rests ahead of px; head is the slot of the front order if that is at px, else 0. */
  predicate FrontAt(s: seq<Resting>, side: Side, px: nat, head: nat) {
    if s == [] then head == 0
    else !Ahead(side, s[0].px, px) && s[0].id > 0 && head == if s[0].px == px then s[0].id else 0
  }

  lemma LevelHead(c: Config, b: Sides, stack: seq<nat>, held: seq<nat>, st: Store, side: Side, px: nat)
    requires Represents(c, b, stack, held, st) && px <= c.maxPx
    requires b.On(side) == [] || !Ahead(side, b.On(side)[0].px, px)
    ensures |st.Levels(side)| == c.maxPx + 1
    ensures FrontAt(b.On(side), side, px, st.Levels(side)[px].head)
  {
    LinkedOn(c, b, stack, held, st, side);
    assert SideOk(c, side, b.On(side));
    FrontLevel(c, side, b.On(side), px);
  }

  lemma FrontInRange(c: Config, b: Sides, stack: seq<nat>, held: seq<nat>, st: Store, side: Side)
    requires Represents(c, b, stack, held, st)
    ensures b.On(side) != [] ==> c.minPx <= b.On(side)[0].px <= c.maxPx
    ensures |b.On(side)| > 1 ==> !Ahead(side, b.On(side)[1].px, b.On(side)[0].px)
  {
    assert SideOk(c, side, b.On(side));
  }

  lemma LevelEmpty(c: Config, b: Sides, stack: seq<nat>, held: seq<nat>, st: Store, side: Side, p: nat)
    requires Represents(c, b, stack, held, st) && p <= c.maxPx
    requires b.On(side) == [] || !Ahead(side, b.On(side)[0].px, p)
    ensures |st.Levels(side)| == c.maxPx + 1
    ensures st.Levels(side)[p].qty == 0 <==> b.On(side) == [] || b.On(side)[0].px != p
  {
    assert QtyOk(b.On(side), st.Levels(side), st.orders) && SideOk(c, side, b.On(side));
    FrontLevel(c, side, b.On(side), p);
  }

  lemma TakerSlot(c: Config, b: Sides, stack: seq<nat>, taker: nat, st: Store)
    requires Represents(c, b, stack, [taker], st)
    ensures 1 <= taker <= c.maxOrders
  {
    HeldAt(c, b, stack, [taker], 0);
  }

  /** LadderLimit, case by case. */
  lemma LimitCases(c: Config, l: Ladder, side: Side, px: nat, qty: nat)
    ensures !LadderAccepts(c, l, px, qty) ==> LadderLimit(c, l, side, px, qty) == Outcome(l, INVALID_ID, [])
    ensures LadderAccepts(c, l, px, qty) ==>
              var n := |l.stack| - 1;
              var t := Trade(l.sides, side, px, qty, l.stack[n]);
              var freed := Freed(l.sides.On(side.Opposite()), side, l.stack[n], px, qty);
              LadderLimit(c, l, side, px, qty) ==
              Outcome(Ladder(t.sides, l.stack[..n] + freed + (if t.remaining == 0 then [l.stack[n]] else [])),
                      if t.remaining == 0 then INVALID_ID else l.stack[n], t.fills)
  {
    if LadderAccepts(c, l, px, qty) {
      var n := |l.stack| - 1;
      var freed := Freed(l.sides.On(side.Opposite()), side, l.stack[n], px, qty);
      assert l.stack[..n] + freed + [] == l.stack[..n] + freed;
    }
  }

  lemma StaysUncrossed(c: Config, b: Sides, stack: seq<nat>, st: Store, side: Side, px: nat, qty: nat)
    requires Represents(c, b, stack, [], st) && Uncrossed(b)
    ensures stack != [] ==> Uncrossed(Trade(b, side, px, qty, stack[|stack| - 1]).sides)
  {
    if stack != [] {
      TradeUncrossed(c, b, side, px, qty, stack[|stack| - 1]);
    }
  }

  /** The stored record of the k-th order of a side. */
  lemma LiveRecord(c: Config, b: Sides, stack: seq<nat>, st: Store, side: Side, k: nat)
    requires Represents(c, b, stack, [], st) && k < |b.On(side)|
    ensures Linked(c, b, stack, [], st) && Counted(b, st)
    ensures SidesOk(c, b.With(side, Remove(b.On(side), k)))
    ensures |st.orders| == c.maxOrders + 1 && |st.Levels(side)| == c.maxPx + 1
    ensures var r := b.On(side)[k];
            && 1 <= r.id <= c.maxOrders && c.minPx <= r.px <= c.maxPx
            && st.orders[r.id].px == r.px && st.orders[r.id].qty == r.qty > 0 && st.orders[r.id].side == side
            && st.Levels(side)[r.px].qty == TotalAt(b.On(side), r.px) >= r.qty
  {
    var s := b.On(side);
    Parts(c, b, stack, [], st, side);
    assert NodeOk(side, s, k, st.orders);
    TotalAtSplit(s, k, s[k].px);
    RemoveOk(c, b, side, k);
  }

  /** Links do not look at totals. */
  lemma LevelDropped(c: Config, b: Sides, stack: seq<nat>, st: Store, st': Store, side: Side, k: nat)
    requires Linked(c, b, stack, [], st) && k < |b.On(side)|
    requires b.On(side)[k].px < |st.Levels(side)| && b.On(side)[k].id < |st.orders|
    requires st.orders[b.On(side)[k].id].qty <= st.Levels(side)[b.On(side)[k].px].qty
    requires var l := st.Levels(side); var px := b.On(side)[k].px;
             st'.Levels(side) == l[px := l[px].(qty := l[px].qty - st.orders[b.On(side)[k].id].qty)]
    requires st'.orders == st.orders && st'.Levels(side.Opposite()) == st.Levels(side.Opposite())
    ensures Linked(c, b, stack, [], st')
  {
    LinkedOn(c, b, stack, [], st, side);
    LinkedOn(c, b, stack, [], st, side.Opposite());
    assert HeadsOk(b.On(side), st'.Levels(side));
    LinkedFromSides(c, b, stack, [], st', side);
  }

  lemma TakenOut(c: Config, b: Sides, stack: seq<nat>, st: Store, st1: Store, st2: Store, side: Side, k: nat)
    requires Linked(c, b, stack, [], st1) && Counted(b, st) && k < |b.On(side)|
    requires b.On(side)[k].px < |st.Levels(side)| && b.On(side)[k].id < |st.orders|
    requires st.orders[b.On(side)[k].id].qty <= st.Levels(side)[b.On(side)[k].px].qty
    requires var l := st.Levels(side); var px := b.On(side)[k].px;
             st1.Levels(side) == l[px := l[px].(qty := l[px].qty - st.orders[b.On(side)[k].id].qty)]
    requires st1.orders == st.orders && st1.Levels(side.Opposite()) == st.Levels(side.Opposite())
    requires Bypassed(st1.orders, st2.orders, b.On(side)[k].id)
    requires Detached(b.On(side), k, st1.Levels(side), st2.Levels(side))
    requires st2.Levels(side.Opposite()) == st1.Levels(side.Opposite())
    ensures Counted(b.With(side, Remove(b.On(side), k)), st2)
  {
    assert QtyOk(b.On(side), st.Levels(side), st.orders);
    assert QtyOk(b.On(side.Opposite()), st1.Levels(side.Opposite()), st1.orders);
    RemoveCounted(c, b, stack, [], st1, st2, side, k);
  }

  /** The record of a slot tells whether an order rests there, and where. */
  lemma FindLive(c: Config, b: Sides, stack: seq<nat>, st: Store, id: nat)
    requires Represents(c, b, stack, [], st)
    ensures |st.orders| == c.maxOrders + 1
    ensures Live(b, id) ==> 1 <= id <= c.maxOrders
    ensures 1 <= id <= c.maxOrders ==> (Live(b, id) <==> st.orders[id].qty != 0)
    ensures Live(b, id) ==>
              var side := st.orders[id].side;
              var k := IndexOf(b.On(side), id);
              && k < |b.On(side)| && st.orders[id].px == b.On(side)[k].px && c.minPx <= st.orders[id].px <= c.maxPx
              && |st.Levels(side)| == c.maxPx + 1
              && Withdraw(b, id) == b.With(side, Remove(b.On(side), k))
  {
    RestsIffId(b.bids, id);
    RestsIffId(b.asks, id);
    if Live(b, id) {
      var side := if Rests(b.bids, id) then Buy else Sell;
      var k := IndexOf(b.On(side), id);
      SlotAt(c, b, stack, [], side, k);
      LiveRecord(c, b, stack, st, side, k);
    } else if 1 <= id <= c.maxOrders {
      NotLiveIsFree(c, Ladder(b, stack), id);
      var i :| 0 <= i < |stack| && stack[i] == id;
      assert st.orders[stack[i]] == EMPTY_ORDER;
    }
  }

  /** Where the best price is after one order has left. */
  lemma BestAfterRemove(c: Config, b: Sides, stack: seq<nat>, st: Store, side: Side, k: nat)
    requires Represents(c, b, stack, [], st) && k < |b.On(side)|
    ensures var r := Remove(b.On(side), k);
            var px := b.On(side)[k].px;
            && (TotalAt(r, px) != 0 || px != BestOf(b.On(side)) ==> BestOf(r) == BestOf(b.On(side)))
            && (px == BestOf(b.On(side)) ==> r == [] || !Ahead(side, r[0].px, px))
  {
    assert SideOk(c, side, b.On(side));
    FrontAfterRemove(c, side, b.On(side), k);
  }

  lemma FrontAfterRemove(c: Config, side: Side, s: seq<Resting>, k: nat)
    requires SideOk(c, side, s) && k < |s|
    ensures var r := Remove(s, k);
            var px := s[k].px;
            && (TotalAt(r, px) != 0 || px != BestOf(s) ==> BestOf(r) == BestOf(s))
            && (px == BestOf(s) ==> r == [] || !Ahead(side, r[0].px, px))
  {
    var r := Remove(s, k);
    if k > 0 {
      assert r[0] == s[0];
    } else {
      assert r == s[1..];
      assert |s| > 1 ==> !Ahead(side, s[1].px, s[0].px);
      NextAtSamePrice(side, r, s[0].px);
    }
  }

  /** If anybody is left at the front price, the new front is one of them. */
  lemma NextAtSamePrice(side: Side, r: seq<Resting>, px: nat)
    requires Sorted(side, r) && Positive(r)
    requires r != [] ==> !Ahead(side, r[0].px, px)
    ensures TotalAt(r, px) != 0 ==> r != [] && r[0].px == px
  {
    TotalAtZero(r, px);
  }
}
