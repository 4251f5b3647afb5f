/** The benchmark driver, run against each of the two books. */
module BookBench {
  import opened Wrappers
  import opened LobTypes
  import opened PriceTime
  import opened Trading
  import opened MatchProgress
  import opened LadderStore
  import opened LadderBook
  import opened TreeBook
  import opened Clients
  import opened DriverLaws
  import opened Refinement

  /** The driver draws quantities 1 to 8. */
  ghost predicate SmallDraws<G(!new)>(r: Draws<G>) {
    forall g: G :: r.qty(g).0 <= 8
  }

  function Count(b: Sides): nat { |b.bids| + |b.asks| }

  ghost predicate Small(s: seq<Resting>) {
    forall k :: 0 <= k < |s| ==> s[k].qty <= 8
  }

  /** At most `most` orders of at most 8 lots each. */
  ghost predicate SmallLots(b: Sides, most: nat) {
    Small(b.bids) && Small(b.asks) && Count(b) <= most
  }

  /** So few orders that no level reaches 2^32 when one more is accepted. */
  predicate FewEnough(most: nat, maxOrders: nat) {
    8 * Min(most + 1, maxOrders) < TWO_TO_32
  }

  lemma {:induction false} SmallTotal(s: seq<Resting>, px: nat)
    requires Small(s)
    ensures TotalAt(s, px) <= 8 * |s|
  {
    if s != [] {
      SmallTotal(s[1..], px);
    }
  }

  lemma SmallLeft(q: seq<Resting>, taker: Side, id: nat, limit: nat, qty: nat)
    requires Positive(q) && Small(q)
    ensures Small(Match(q, taker, id, limit, qty).left) && |Match(q, taker, id, limit, qty).left| <= |q|
  {
    hide Match;
    MatchLeavesSurvivors(q, taker, id, limit, qty);
    var left := Match(q, taker, id, limit, qty).left;
    forall k | 0 <= k < |left|
      ensures left[k].qty <= 8
    {
      assert Survivor(left[k], q[k + |q| - |left|]);
    }
  }

  lemma SmallEnqueue(side: Side, s: seq<Resting>, o: Resting)
    requires Small(s) && o.qty <= 8
    ensures Small(Enqueue(side, s, o)) && |Enqueue(side, s, o)| == |s| + 1
  {
    hide Slot, Enqueue;
    EnqueueAt(side, s, o);
  }

  lemma SmallRemove(s: seq<Resting>, k: nat)
    requires Small(s) && k < |s|
    ensures Small(Remove(s, k)) && |Remove(s, k)| == |s| - 1
  {
    hide Remove;
    RemoveAt(s, k);
  }

  lemma SmallTrade(c: Config, b: Sides, side: Side, px: nat, qty: nat, id: nat, most: nat)
    requires SidesOk(c, b) && SmallLots(b, most) && qty <= 8
    ensures SmallLots(Trade(b, side, px, qty, id).sides, most + 1)
  {
    hide Match, Enqueue, Small, Positive, Sorted;
    var opp := side.Opposite();
    assert SideOk(c, opp, b.On(opp));
    SmallLeft(b.On(opp), side, id, px, qty);
    MatchRemaining(b.On(opp), side, id, px, qty);
    SmallEnqueue(side, b.On(side), Resting(id, px, Match(b.On(opp), side, id, px, qty).remaining));
  }

  lemma SmallWithdraw(b: Sides, id: nat, most: nat)
    requires SmallLots(b, most)
    ensures SmallLots(Withdraw(b, id), most)
  {
    hide Small, Remove, IndexOf;
    if Rests(b.bids, id) {
      SmallRemove(b.bids, IndexOf(b.bids, id));
    } else if Rests(b.asks, id) {
      SmallRemove(b.asks, IndexOf(b.asks, id));
    }
  }

  /** Add up the stored fills, as many as the buffer kept. */
  method TallyExecs(execs: array<Exec>, nexec: nat, st: Stats, ghost fills: seq<Exec>) returns (st': Stats)
    requires execs.Length == 32 && |fills| == nexec
    requires exists buf0 :: Recorded(buf0, execs[..], EXEC_CAP, 0, fills)
    ensures st' == Tally(st, Stored(Prints(fills)))
    ensures var first := if nexec > 32 then Prints(fills)[..32] else Prints(fills);
            && st'.fillQty == st.fillQty + Lots(first)
            && st'.checksum == st.checksum + Prices(first) + 1000003 * Lots(first)
  {
    ghost var all := Stored(Prints(fills));
    var e: nat := 0;
    st' := st;
    while e < nexec && e < EXEC_CAP
      invariant e <= |all|
      invariant Tally(st, all) == Tally(st', all[e..])
    {
      assert execs[..][e] == fills[e];
      st' := st'.(fillQty := st'.fillQty + execs[e].qty,
                  checksum := st'.checksum + execs[e].px + execs[e].qty * 1000003);
      e := e + 1;
    }
    assert all[e..] == [];
    TallySums(st, all);
  }

  lemma EngineSides(c: Config, l: Ladder, t: Tree)
    ensures LadderEngine(c).sides(l) == l.sides && TreeEngine(c).sides(t) == t.sides
  {
  }

  // ---------- the driver on Book ----------

  method LadderSubmit<G(!new)>(book: Book, execs: array<Exec>, r: Draws<G>, g: G, live: seq<nat>, st: Stats,
                            ghost d: Driver<Ladder, G>, ghost most: nat)
      returns (g': G, live': seq<nat>, st': Stats)
    requires book.Valid() && SmallLots(book.sides, most) && FewEnough(most, book.maxOrders) && SmallDraws(r)
    requires execs.Length == 32 && d.client == Client(book.Abs(), live) && d.st == st
    modifies book.bidLevels, book.askLevels, book.orders, book.free, book`freeTop, book`sides, book`bestBid,
             book`bestAsk, execs
    ensures book.Valid() && SmallLots(book.sides, most + 1)
    ensures Driver(Client(book.Abs(), live'), g', st') == TakeSubmit(LadderEngine(book.Cfg()), r, d, g)
  {
    hide Represents, Uncrossed, LadderLimit, Recorded, SmallLots, Room, Tally, SmallDraws;
    var (side, g1) := r.side(g);
    var (px, g2) := r.px(g1);
    var (qty, g3) := r.qty(g2);
    LadderReady(book, side, px, qty, r, g2, most);
    ghost var before, out := book.Abs(), LadderLimit(book.Cfg(), book.Abs(), side, px, qty);
    var id, nexec := book.Limit(side, px, qty, execs, EXEC_CAP);
    st' := TallyExecs(execs, nexec, st.(fills := st.fills + nexec), out.fills);
    live' := if id != INVALID_ID then live + [id] else live;
    g', st' := g3, st'.(ops := st'.ops + 1);
  }

  lemma LadderReady<G(!new)>(book: Book, side: Side, px: nat, qty: nat, r: Draws<G>, g: G, most: nat)
    requires book.Valid() && SmallLots(book.sides, most) && FewEnough(most, book.maxOrders) && SmallDraws(r)
    requires qty == r.qty(g).0
    ensures qty > 0 && book.minPx <= px <= book.maxPx && |book.sides.bids| + |book.sides.asks| < book.maxOrders
            ==> Room(book.sides, side, px, qty)
    ensures SmallLots(LadderLimit(book.Cfg(), book.Abs(), side, px, qty).book.sides, most + 1)
  {
    hide Small, TotalAt, Trade, Freed;
    BookFacts(book);
    if LadderAccepts(book.Cfg(), book.Abs(), px, qty) {
      SmallTotal(book.sides.On(side), px);
      SmallTrade(book.Cfg(), book.sides, side, px, qty, book.Abs().stack[|book.Abs().stack| - 1], most);
    }
  }

  method LadderWithdraw<G(!new)>(book: Book, g: G, live: seq<nat>, st: Stats, ghost d: Driver<Ladder, G>,
                                 ghost most: nat)
      returns (live': seq<nat>, st': Stats)
    requires book.Valid() && SmallLots(book.sides, most) && live != [] && d.client == Client(book.Abs(), live)
             && d.st == st
    modifies book.bidLevels, book.askLevels, book.orders, book.free, book`freeTop, book`sides, book`bestBid,
             book`bestAsk
    ensures book.Valid() && SmallLots(book.sides, most)
    ensures Driver(Client(book.Abs(), live'), g, st') == TakeCancel(LadderEngine(book.Cfg()), d, g)
  {
    hide Represents, Uncrossed, SmallLots, Live, Withdraw;
    var id := live[|live| - 1];
    SmallWithdraw(book.sides, id, most);
    var ok := book.Cancel(id);
    live' := live[..|live| - 1];
    st' := st.(ops := st.ops + 1, cancels := st.cancels + if ok then 1 else 0);
  }

  method RunLadder<G(!new)>(book: Book, n: nat, cancelPct: int, r: Draws<G>, seed: G) returns (sum: Summary)
    requires book.Valid() && SmallLots(book.sides, Count(book.sides)) && SmallDraws(r)
    requires 8 * Min(Count(book.sides) + n, book.maxOrders) < TWO_TO_32
    modifies book.bidLevels, book.askLevels, book.orders, book.free, book`freeTop, book`sides, book`bestBid,
             book`bestAsk
    ensures book.Valid()
    ensures sum == Drive(LadderEngine(book.Cfg()), r, cancelPct, old(book.Abs()), seed, n)
    ensures Explained(LadderEngine(book.Cfg()), r, cancelPct, old(book.Abs()), seed, n, sum)
  {
    hide Represents, Uncrossed, Small, SmallDraws, TakeSubmit, TakeCancel, LadderEngine, Turns, Explained;
    var execs := new Exec[EXEC_CAP](_ => Exec(0, 0, 0, 0));
    var live: seq<nat> := [];
    var st, g := Stats(0, 0, 0, 0, 0), seed;
    ghost var e, start, count0 := LadderEngine(book.Cfg()), Fresh(book.Abs(), seed), Count(book.sides);
    for i := 0 to n
      invariant book.Valid() && SmallLots(book.sides, count0 + i)
      invariant Turns(e, r, cancelPct, start, n) == Turns(e, r, cancelPct, Driver(Client(book.Abs(), live), g, st),
                                                          n - i)
    {
      ghost var d := Driver(Client(book.Abs(), live), g, st);
      TurnsUnfold(e, r, cancelPct, d, n - i);
      var withdraw := false;
      if live != [] {
        var (pct, g1) := r.pct(g);
        withdraw, g := pct < cancelPct, g1;
      }
      if withdraw {
        live, st := LadderWithdraw(book, g, live, st, d, count0 + i);
      } else {
        g, live, st := LadderSubmit(book, execs, r, g, live, st, d, count0 + i);
      }
      assert Turn(e, r, cancelPct, d) == Driver(Client(book.Abs(), live), g, st);
    }
    TurnsUnfold(e, r, cancelPct, Driver(Client(book.Abs(), live), g, st), 0);
    EngineSides(book.Cfg(), book.Abs(), Tree(Sides([], []), 0));
    var bestBid, bestAsk, count := book.bestBid, book.bestAsk, book.LiveOrders();
    sum := Summary(st.(checksum := st.checksum + bestBid + bestAsk + count + st.fills + st.fillQty + st.cancels),
                   bestBid, bestAsk, count);
    BookFacts(book);
    FiguresExplained(e, r, cancelPct, start.client.book, seed, n);
  }

  // ---------- the driver on StlBook ----------

  method TreeSubmit<G(!new)>(book: StlBook, execs: array<Exec>, r: Draws<G>, g: G, live: seq<nat>, st: Stats,
                            ghost d: Driver<Tree, G>, ghost most: nat)
      returns (g': G, live': seq<nat>, st': Stats)
    requires book.Valid() && SmallLots(book.sides, most) && FewEnough(most, book.maxOrders) && SmallDraws(r)
    requires execs.Length == 32 && d.client == Client(book.Abs(), live) && d.st == st
    modifies book`nextId, book`live, book`bids, book`asks, book`orders, book`sides, execs
    ensures book.Valid() && SmallLots(book.sides, most + 1)
    ensures Driver(Client(book.Abs(), live'), g', st') == TakeSubmit(TreeEngine(book.Cfg()), r, d, g)
  {
    hide Stores, Uncrossed, TreeLimit, Recorded, SmallLots, Room, Tally, SmallDraws;
    var (side, g1) := r.side(g);
    var (px, g2) := r.px(g1);
    var (qty, g3) := r.qty(g2);
    TreeReady(book, side, px, qty, r, g2, most);
    ghost var before, out := book.Abs(), TreeLimit(book.Cfg(), book.Abs(), side, px, qty);
    var id, nexec := book.Limit(side, px, qty, execs, EXEC_CAP);
    st' := TallyExecs(execs, nexec, st.(fills := st.fills + nexec), out.fills);
    live' := if id != INVALID_ID then live + [id] else live;
    g', st' := g3, st'.(ops := st'.ops + 1);
  }

  lemma TreeReady<G(!new)>(book: StlBook, side: Side, px: nat, qty: nat, r: Draws<G>, g: G, most: nat)
    requires book.Valid() && SmallLots(book.sides, most) && FewEnough(most, book.maxOrders) && SmallDraws(r)
    requires qty == r.qty(g).0
    ensures qty > 0 && book.minPx <= px <= book.maxPx && |book.sides.bids| + |book.sides.asks| < book.maxOrders
            ==> Room(book.sides, side, px, qty)
    ensures SmallLots(TreeLimit(book.Cfg(), book.Abs(), side, px, qty).book.sides, most + 1)
  {
    hide Small, TotalAt, Trade, Freed;
    if TreeAccepts(book.Cfg(), book.Abs(), px, qty) {
      SmallTotal(book.sides.On(side), px);
      SmallTrade(book.Cfg(), book.sides, side, px, qty, book.nextId, most);
    }
  }

  method TreeWithdraw<G(!new)>(book: StlBook, g: G, live: seq<nat>, st: Stats, ghost d: Driver<Tree, G>,
                               ghost most: nat)
      returns (live': seq<nat>, st': Stats)
    requires book.Valid() && SmallLots(book.sides, most) && live != [] && d.client == Client(book.Abs(), live)
             && d.st == st
    modifies book`nextId, book`live, book`bids, book`asks, book`orders, book`sides
    ensures book.Valid() && SmallLots(book.sides, most)
    ensures Driver(Client(book.Abs(), live'), g, st') == TakeCancel(TreeEngine(book.Cfg()), d, g)
  {
    hide Stores, Uncrossed, SmallLots, Live, Withdraw;
    var id := live[|live| - 1];
    SmallWithdraw(book.sides, id, most);
    var ok := book.Cancel(id);
    live' := live[..|live| - 1];
    st' := st.(ops := st.ops + 1, cancels := st.cancels + if ok then 1 else 0);
  }

  method RunTree<G(!new)>(book: StlBook, n: nat, cancelPct: int, r: Draws<G>, seed: G) returns (sum: Summary)
    requires book.Valid() && SmallLots(book.sides, Count(book.sides)) && SmallDraws(r)
    requires 8 * Min(Count(book.sides) + n, book.maxOrders) < TWO_TO_32
    modifies book`nextId, book`live, book`bids, book`asks, book`orders, book`sides
    ensures book.Valid()
    ensures sum == Drive(TreeEngine(book.Cfg()), r, cancelPct, old(book.Abs()), seed, n)
    ensures Explained(TreeEngine(book.Cfg()), r, cancelPct, old(book.Abs()), seed, n, sum)
  {
    hide Stores, Uncrossed, Small, SmallDraws, TakeSubmit, TakeCancel, TreeEngine, Turns, Explained;
    var execs := new Exec[EXEC_CAP](_ => Exec(0, 0, 0, 0));
    var live: seq<nat> := [];
    var st, g := Stats(0, 0, 0, 0, 0), seed;
    ghost var e, start, count0 := TreeEngine(book.Cfg()), Fresh(book.Abs(), seed), Count(book.sides);
    for i := 0 to n
      invariant book.Valid() && SmallLots(book.sides, count0 + i)
      invariant Turns(e, r, cancelPct, start, n) == Turns(e, r, cancelPct, Driver(Client(book.Abs(), live), g, st),
                                                          n - i)
    {
      ghost var d := Driver(Client(book.Abs(), live), g, st);
      TurnsUnfold(e, r, cancelPct, d, n - i);
      var withdraw := false;
      if live != [] {
        var (pct, g1) := r.pct(g);
        withdraw, g := pct < cancelPct, g1;
      }
      if withdraw {
        live, st := TreeWithdraw(book, g, live, st, d, count0 + i);
      } else {
        g, live, st := TreeSubmit(book, execs, r, g, live, st, d, count0 + i);
      }
      assert Turn(e, r, cancelPct, d) == Driver(Client(book.Abs(), live), g, st);
    }
    TurnsUnfold(e, r, cancelPct, Driver(Client(book.Abs(), live), g, st), 0);
    EngineSides(book.Cfg(), Ladder(Sides([], []), []), book.Abs());
    var bestBid := book.Best(Buy);
    var bestAsk := book.Best(Sell);
    var count := book.live;
    sum := Summary(st.(checksum := st.checksum + bestBid + bestAsk + count + st.fills + st.fillQty + st.cancels),
                   bestBid, bestAsk, count);
    StlBookFacts(book);
    FiguresExplained(e, r, cancelPct, start.client.book, seed, n);
  }

  /** The whole benchmark: both books, the same draws, and the check that must not fire. */
  method Benchmark<G(!new)>(minPx: nat, maxPx: nat, maxOrders: nat, n: nat, cancelPct: int, r: Draws<G>, seed: G)
      returns (ladder: Summary, tree: Summary)
    requires minPx >= 1 && maxPx >= minPx && maxOrders >= 1 && SmallDraws(r)
    requires 8 * Min(n, maxOrders) < TWO_TO_32
    ensures ladder == tree
    ensures Explained(LadderEngine(Config(minPx, maxPx, maxOrders)), r, cancelPct,
                      Ladder(Sides([], []), Countdown(maxOrders)), seed, n, ladder)
  {
    hide Represents, Stores, Drive, SmallDraws, Explained;
    var book := new Book(minPx, maxPx, maxOrders);
    ghost var l := book.Abs();
    BookFacts(book);
    ladder := RunLadder(book, n, cancelPct, r, seed);
    var control := new StlBook(minPx, maxPx, maxOrders);
    ghost var t := control.Abs();
    tree := RunTree(control, n, cancelPct, r, seed);
    SameSummary(Config(minPx, maxPx, maxOrders), r, cancelPct, l, t, seed, n);
  }
}
