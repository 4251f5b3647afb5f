/** Whole tapes of requests, played on the two real books. */
module TapeRun {
  import opened LobTypes
  import opened PriceTime
  import opened Trading
  import opened MatchProgress
  import opened LadderStore
  import opened LadderBook
  import opened TreeBook
  import opened Clients
  import opened Refinement

  // ---------- how much can rest ----------

  /** All the lots a tape asks for. */
  function Demand(tape: seq<Op>): nat {
    if tape == [] then 0 else (if tape[0].Submit? then tape[0].qty else 0) + Demand(tape[1..])
  }

  function Volume(s: seq<Resting>): nat {
    if s == [] then 0 else s[0].qty + Volume(s[1..])
  }

  function Resident(b: Sides): nat { Volume(b.bids) + Volume(b.asks) }

  lemma {:induction false} VolumeConcat(a: seq<Resting>, b: seq<Resting>)
    ensures Volume(a + b) == Volume(a) + Volume(b)
  {
    if a == [] {
      assert a + b == b;
    } else {
      assert (a + b)[1..] == a[1..] + b;
      VolumeConcat(a[1..], b);
    }
  }

  lemma {:induction false} LevelWithinVolume(s: seq<Resting>, px: nat)
    ensures TotalAt(s, px) <= Volume(s)
  {
    if s != [] {
      LevelWithinVolume(s[1..], px);
    }
  }

  lemma {:induction false} MatchVolume(q: seq<Resting>, taker: Side, takerId: nat, limit: nat, qty: nat)
    ensures var m := Match(q, taker, takerId, limit, qty);
            Volume(m.left) <= Volume(q) && m.remaining <= qty && |m.fills| <= |q|
  {
    if qty == 0 || q == [] || !Crosses(taker, limit, q[0].px) {
    } else if q[0].qty <= qty {
      MatchVolume(q[1..], taker, takerId, limit, qty - q[0].qty);
    } else {
      assert Match(q, taker, takerId, limit, qty).left[1..] == q[1..];
    }
  }

  lemma EnqueueVolume(side: Side, s: seq<Resting>, o: Resting)
    ensures Volume(Enqueue(side, s, o)) == Volume(s) + o.qty
  {
    hide Slot;
    var k := Slot(side, s, o.px);
    VolumeConcat(s[..k] + [o], s[k..]);
    VolumeConcat(s[..k], [o]);
    VolumeConcat(s[..k], s[k..]);
    assert s[..k] + s[k..] == s;
    assert [o][1..] == [];
  }

  lemma RemoveVolume(s: seq<Resting>, k: nat)
    requires k < |s|
    ensures Volume(Remove(s, k)) <= Volume(s)
  {
    VolumeConcat(s[..k], s[k + 1..]);
    VolumeConcat(s[..k], [s[k]] + s[k + 1..]);
    assert s == s[..k] + ([s[k]] + s[k + 1..]);
    assert ([s[k]] + s[k + 1..])[1..] == s[k + 1..];
  }

  lemma TradeVolume(b: Sides, side: Side, px: nat, qty: nat, id: nat)
    ensures var t := Trade(b, side, px, qty, id);
            Resident(t.sides) <= Resident(b) + qty && |t.fills| <= |b.On(side.Opposite())|
  {
    hide Match, Enqueue, Volume;
    MatchVolume(b.On(side.Opposite()), side, id, px, qty);
    EnqueueVolume(side, b.On(side), Resting(id, px, Match(b.On(side.Opposite()), side, id, px, qty).remaining));
  }

  lemma WithdrawVolume(b: Sides, id: nat)
    ensures Resident(Withdraw(b, id)) <= Resident(b)
  {
    hide Volume, Remove, IndexOf;
    if Rests(b.bids, id) {
      RemoveVolume(b.bids, IndexOf(b.bids, id));
    } else if Rests(b.asks, id) {
      RemoveVolume(b.asks, IndexOf(b.asks, id));
    }
  }

  // ---------- reading the fills ----------

  /** The prints of a call whose buffer was large enough. */
  method ReadPrints(execs: array<Exec>, nexec: nat, ghost fills: seq<Exec>) returns (prints: seq<Print>)
    requires |fills| == nexec <= execs.Length
    requires exists buf0 :: Recorded(buf0, execs[..], execs.Length, 0, fills)
    ensures prints == Prints(fills)
  {
    prints := [];
    while |prints| < nexec
      invariant |prints| <= nexec
      invariant prints == Prints(fills)[..|prints|]
    {
      var e := |prints|;
      assert execs[..][e] == fills[e];
      prints := prints + [Print(execs[e].px, execs[e].qty)];
    }
  }

  // ---------- Book ----------

  lemma LadderLimitVolume(c: Config, l: Ladder, side: Side, px: nat, qty: nat)
    ensures var r := LadderLimit(c, l, side, px, qty);
            && Resident(r.book.sides) <= Resident(l.sides) + qty
            && |r.fills| <= |l.sides.bids| + |l.sides.asks|
  {
    hide Trade, Volume, Freed;
    if LadderAccepts(c, l, px, qty) {
      TradeVolume(l.sides, side, px, qty, l.stack[|l.stack| - 1]);
    }
  }

  /** One request to Book. */
  method StepLadder(book: Book, execs: array<Exec>, handles: seq<nat>, op: Op) returns (handles': seq<nat>, seen: Seen)
    requires book.Valid() && execs.Length == book.maxOrders
    requires Resident(book.sides) + Demand([op]) < TWO_TO_32
    modifies book.bidLevels, book.askLevels, book.orders, book.free, book`freeTop, book`sides, book`bestBid,
             book`bestAsk,
             execs
    ensures book.Valid() && Resident(book.sides) <= Resident(old(book.sides)) + Demand([op])
    ensures Step(LadderEngine(book.Cfg()), Client(old(book.Abs()), handles), op) == (Client(book.Abs(), handles'), seen)
  {
    hide Represents, Uncrossed, LadderLimit, Recorded, Volume, TotalAt, Live, Withdraw;
    DemandOne(op);
    match op
    case Submit(side, px, qty) =>
      BookFacts(book);
      LadderLimitVolume(book.Cfg(), book.Abs(), side, px, qty);
      LevelWithinVolume(book.sides.On(side), px);
      ghost var out := LadderLimit(book.Cfg(), book.Abs(), side, px, qty);
      var id, nexec := book.Limit(side, px, qty, execs, execs.Length);
      var prints := ReadPrints(execs, nexec, out.fills);
      handles' := if id == INVALID_ID then handles else handles + [id];
      seen := Submitted(prints, id != INVALID_ID);
    case Withdrawal(h) =>
      handles' := handles;
      if h >= |handles| {
        return handles, NoSuchHandle;
      }
      WithdrawVolume(book.sides, handles[h]);
      var ok := book.Cancel(handles[h]);
      seen := Cancelled(ok);
  }

  lemma DemandOne(op: Op)
    ensures Demand([op]) == if op.Submit? then op.qty else 0
  {
  }

  lemma RunNext<B>(e: Engine<B>, s: Client<B>, tape: seq<Op>, i: nat, seen: seq<Seen>)
    requires i <= |tape|
    ensures i == |tape| ==> Run(e, s, tape[i..]) == (s, [])
    ensures i < |tape| ==>
              var (s1, a) := Step(e, s, tape[i]);
              var (t, more) := Run(e, s, tape[i..]);
              var (t1, more1) := Run(e, s1, tape[i + 1..]);
              t == t1 && seen + more == seen + [a] + more1
    ensures i < |tape| ==> Demand(tape[i..]) == Demand([tape[i]]) + Demand(tape[i + 1..])
  {
    hide Step;
    if i < |tape| {
      assert tape[i..][1..] == tape[i + 1..];
      var (s1, a) := Step(e, s, tape[i]);
      var (t1, more1) := Run(e, s1, tape[i + 1..]);
      assert seen + ([a] + more1) == seen + [a] + more1;
      DemandOne(tape[i]);
    }
  }

  /** A tape against Book: the answers are those of the run of the queue functions. */
  method PlayLadder(book: Book, tape: seq<Op>) returns (handles: seq<nat>, seen: seq<Seen>)
    requires book.Valid() && Resident(book.sides) + Demand(tape) < TWO_TO_32
    modifies book.bidLevels, book.askLevels, book.orders, book.free, book`freeTop, book`sides, book`bestBid,
             book`bestAsk
    ensures book.Valid()
    ensures Run(LadderEngine(book.Cfg()), Client(old(book.Abs()), []), tape) == (Client(book.Abs(), handles), seen)
  {
    hide Represents, Uncrossed, Resident, Demand, LadderEngine, Step, Run;
    var execs := new Exec[book.maxOrders](_ => Exec(0, 0, 0, 0));
    handles, seen := [], [];
    ghost var e, start := LadderEngine(book.Cfg()), Client(book.Abs(), []);
    assert tape[0..] == tape;
    assert [] + Run(e, start, tape).1 == Run(e, start, tape).1;
    for i := 0 to |tape|
      invariant book.Valid() && Resident(book.sides) + Demand(tape[i..]) < TWO_TO_32
      invariant Run(e, start, tape).0 == Run(e, Client(book.Abs(), handles), tape[i..]).0
      invariant Run(e, start, tape).1 == seen + Run(e, Client(book.Abs(), handles), tape[i..]).1
    {
      RunNext(e, Client(book.Abs(), handles), tape, i, seen);
      var answer;
      handles, answer := StepLadder(book, execs, handles, tape[i]);
      seen := seen + [answer];
    }
    RunNext(e, Client(book.Abs(), handles), tape, |tape|, seen);
    assert seen + [] == seen;
  }

  // ---------- StlBook ----------

  lemma TreeLimitVolume(c: Config, t: Tree, side: Side, px: nat, qty: nat)
    ensures var r := TreeLimit(c, t, side, px, qty);
            && Resident(r.book.sides) <= Resident(t.sides) + qty
            && |r.fills| <= |t.sides.bids| + |t.sides.asks|
  {
    hide Trade, Volume;
    if TreeAccepts(c, t, px, qty) {
      TradeVolume(t.sides, side, px, qty, t.nextId);
    }
  }

  /** One request to StlBook. */
  method StepTree(book: StlBook, execs: array<Exec>, handles: seq<nat>, op: Op) returns (handles': seq<nat>, seen: Seen)
    requires book.Valid() && execs.Length == book.maxOrders
    requires Resident(book.sides) + Demand([op]) < TWO_TO_32
    modifies book`nextId, book`live, book`bids, book`asks, book`orders, book`sides, execs
    ensures book.Valid() && Resident(book.sides) <= Resident(old(book.sides)) + Demand([op])
    ensures Step(TreeEngine(book.Cfg()), Client(old(book.Abs()), handles), op) == (Client(book.Abs(), handles'), seen)
  {
    hide Stores, Uncrossed, TreeLimit, Recorded, Volume, TotalAt, Live, Withdraw;
    DemandOne(op);
    match op
    case Submit(side, px, qty) =>
      StlBookFacts(book);
      TreeLimitVolume(book.Cfg(), book.Abs(), side, px, qty);
      LevelWithinVolume(book.sides.On(side), px);
      ghost var out := TreeLimit(book.Cfg(), book.Abs(), side, px, qty);
      var id, nexec := book.Limit(side, px, qty, execs, execs.Length);
      var prints := ReadPrints(execs, nexec, out.fills);
      handles' := if id == INVALID_ID then handles else handles + [id];
      seen := Submitted(prints, id != INVALID_ID);
    case Withdrawal(h) =>
      handles' := handles;
      if h >= |handles| {
        return handles, NoSuchHandle;
      }
      WithdrawVolume(book.sides, handles[h]);
      var ok := book.Cancel(handles[h]);
      seen := Cancelled(ok);
  }

  /** A tape against StlBook. */
  method PlayTree(book: StlBook, tape: seq<Op>) returns (handles: seq<nat>, seen: seq<Seen>)
    requires book.Valid() && Resident(book.sides) + Demand(tape) < TWO_TO_32
    modifies book`nextId, book`live, book`bids, book`asks, book`orders, book`sides
    ensures book.Valid()
    ensures Run(TreeEngine(book.Cfg()), Client(old(book.Abs()), []), tape) == (Client(book.Abs(), handles), seen)
  {
    hide Stores, Uncrossed, Resident, Demand, TreeEngine, Step, Run;
    var execs := new Exec[book.maxOrders](_ => Exec(0, 0, 0, 0));
    handles, seen := [], [];
    ghost var e, start := TreeEngine(book.Cfg()), Client(book.Abs(), []);
    assert tape[0..] == tape;
    assert [] + Run(e, start, tape).1 == Run(e, start, tape).1;
    for i := 0 to |tape|
      invariant book.Valid() && Resident(book.sides) + Demand(tape[i..]) < TWO_TO_32
      invariant Run(e, start, tape).0 == Run(e, Client(book.Abs(), handles), tape[i..]).0
      invariant Run(e, start, tape).1 == seen + Run(e, Client(book.Abs(), handles), tape[i..]).1
    {
      RunNext(e, Client(book.Abs(), handles), tape, i, seen);
      var answer;
      handles, answer := StepTree(book, execs, handles, tape[i]);
      seen := seen + [answer];
    }
    RunNext(e, Client(book.Abs(), handles), tape, |tape|, seen);
    assert seen + [] == seen;
  }

  // ---------- both ----------

  /** One tape on two fresh books: the same answers if and only if every cancel on it is safe. */
  method PlayBoth(minPx: nat, maxPx: nat, maxOrders: nat, tape: seq<Op>) returns (ladder: seq<Seen>, tree: seq<Seen>)
    requires minPx >= 1 && maxPx >= minPx && maxOrders >= 1
    requires Demand(tape) < TWO_TO_32
    ensures var c := Config(minPx, maxPx, maxOrders);
            ladder == tree <==> SafeTape(c, Client(Ladder(Sides([], []), Countdown(maxOrders)), []), tape)
  {
    hide Represents, Stores, Uncrossed, Demand, LadderEngine, TreeEngine, Run, SafeTape;
    var book := new Book(minPx, maxPx, maxOrders);
    var control := new StlBook(minPx, maxPx, maxOrders);
    ghost var c, l := book.Cfg(), book.Abs();
    BookFacts(book);
    FreshTracked(c, l.stack);
    Interchangeable(c, Client(l, []), Client(control.Abs(), []), tape);
    var h1, h2;
    h1, ladder := PlayLadder(book, tape);
    h2, tree := PlayTree(control, tape);
  }
}
