/**
 What the benchmark driver's figures count, in terms of what a client of the book gets to see; and what the
 answers a client sees say.
 */
module DriverLaws {
  import opened LobTypes
  import opened PriceTime
  import opened Trading
  import opened SlotLaws
  import opened LimitLaws
  import opened Clients

  // ---------- sums over a transcript ----------

  function Lots(prints: seq<Print>): nat {
    if prints == [] then 0 else prints[0].qty + Lots(prints[1..])
  }

  function Prices(prints: seq<Print>): nat {
    if prints == [] then 0 else prints[0].px + Prices(prints[1..])
  }

  /** How many cancels were answered yes. */
  function CancelsIn(seen: seq<Seen>): nat {
    if seen == [] then 0 else (if seen[0] == Cancelled(true) then 1 else 0) + CancelsIn(seen[1..])
  }

  function PrintsOf(a: Seen): seq<Print> { if a.Submitted? then a.prints else [] }

  function FillsIn(seen: seq<Seen>): nat {
    if seen == [] then 0 else |PrintsOf(seen[0])| + FillsIn(seen[1..])
  }

  /** The first 32 prints of an answer. */
  function First32(a: Seen): seq<Print> {
    if |PrintsOf(a)| > 32 then PrintsOf(a)[..32] else PrintsOf(a)
  }

  function LotsIn(seen: seq<Seen>): nat {
    if seen == [] then 0 else Lots(First32(seen[0])) + LotsIn(seen[1..])
  }

  function PricesIn(seen: seq<Seen>): nat {
    if seen == [] then 0 else Prices(First32(seen[0])) + PricesIn(seen[1..])
  }

  // ---------- the tape the draws dictate ----------

  /** With something to withdraw and a percentage drawn below the threshold, the newest handle not yet
      withdrawn; otherwise an order of drawn side, price and quantity. live are the positions, among all
      handles, of those not yet withdrawn. */
  function Script<B, G>(e: Engine<B>, r: Draws<G>, cancelPct: int, s: Client<B>, live: seq<nat>, g: G, n: nat)
      : (tape: seq<Op>)
    ensures |tape| == n
    decreases n
  {
    if n == 0 then []
    else if live != [] && r.pct(g).0 < cancelPct then
      var op := Withdrawal(live[|live| - 1]);
      [op] + Script(e, r, cancelPct, Step(e, s, op).0, live[..|live| - 1], r.pct(g).1, n - 1)
    else
      var (side, g1) := r.side(if live == [] then g else r.pct(g).1);
      var (px, g2) := r.px(g1);
      var (qty, g3) := r.qty(g2);
      var s' := Step(e, s, Submit(side, px, qty)).0;
      var live' := if |s'.handles| > |s.handles| then live + [|s.handles|] else live;
      [Submit(side, px, qty)] + Script(e, r, cancelPct, s', live', g3, n - 1)
  }

  lemma ScriptUnfold<B, G>(e: Engine<B>, r: Draws<G>, cancelPct: int, s: Client<B>, live: seq<nat>, g: G, n: nat)
    requires n > 0
    ensures var tape := Script(e, r, cancelPct, s, live, g, n);
            if live != [] && r.pct(g).0 < cancelPct then
              && tape[0] == Withdrawal(live[|live| - 1])
              && tape[1..] == Script(e, r, cancelPct, Step(e, s, tape[0]).0, live[..|live| - 1], r.pct(g).1, n - 1)
            else
              var (side, g1) := r.side(if live == [] then g else r.pct(g).1);
              var (px, g2) := r.px(g1);
              var (qty, g3) := r.qty(g2);
              var s' := Step(e, s, Submit(side, px, qty)).0;
              && tape[0] == Submit(side, px, qty)
              && tape[1..] == Script(e, r, cancelPct, s', if |s'.handles| > |s.handles| then live + [|s.handles|]
                                                            else live, g3, n - 1)
  {
    hide Step;
  }

  /** The driver holds the client's handles at the positions live, and the client's book. */
  ghost predicate Follows<B, G>(d: Driver<B, G>, s: Client<B>, live: seq<nat>, g: G) {
    && d.client.book == s.book && d.g == g
    && |d.client.handles| == |live|
    && forall i :: 0 <= i < |live| ==> live[i] < |s.handles| && d.client.handles[i] == s.handles[live[i]]
  }

  /** The driver's figures after answer `a`. */
  predicate Counted(st: Stats, st': Stats, a: Seen) {
    && st'.ops == st.ops + 1
    && st'.cancels == st.cancels + CancelsIn([a])
    && st'.fills == st.fills + |PrintsOf(a)|
    && st'.fillQty == st.fillQty + Lots(First32(a))
    && st'.checksum == st.checksum + Prices(First32(a)) + 1000003 * Lots(First32(a))
  }

  lemma {:induction false} TallySums(st: Stats, prints: seq<Print>)
    ensures Tally(st, prints) == st.(fillQty := st.fillQty + Lots(prints),
                                     checksum := st.checksum + Prices(prints) + 1000003 * Lots(prints))
    decreases |prints|
  {
    if prints != [] {
      var p := prints[0];
      TallySums(st.(fillQty := st.fillQty + p.qty, checksum := st.checksum + p.px + p.qty * 1000003), prints[1..]);
    }
  }

  lemma CancelTurn<B, G>(e: Engine<B>, r: Draws<G>, cancelPct: int, d: Driver<B, G>, s: Client<B>, live: seq<nat>)
    requires Follows(d, s, live, d.g) && live != [] && r.pct(d.g).0 < cancelPct
    ensures var d' := Turn(e, r, cancelPct, d);
            var (s', a) := Step(e, s, Withdrawal(live[|live| - 1]));
            Follows(d', s', live[..|live| - 1], r.pct(d.g).1) && Counted(d.st, d'.st, a)
  {
    var a := Step(e, s, Withdrawal(live[|live| - 1])).1;
    assert [a][1..] == [] && CancelsIn([]) == 0;
  }

  /** Clients of one book get the same answer, and the same new handle if there is one. */
  lemma SubmitSame<B>(e: Engine<B>, c: Client<B>, s: Client<B>, side: Side, px: nat, qty: nat)
    requires c.book == s.book
    ensures var (c', a) := Step(e, c, Submit(side, px, qty));
            var (s', a') := Step(e, s, Submit(side, px, qty));
            && a == a' && a.Submitted? && c'.book == s'.book
            && if |s'.handles| > |s.handles|
               then c'.handles == c.handles + [s'.handles[|s.handles|]] && s'.handles[..|s.handles|] == s.handles
               else c'.handles == c.handles && s'.handles == s.handles
  {
  }

  lemma FollowsOn<B, G>(d: Driver<B, G>, s: Client<B>, live: seq<nat>, d': Driver<B, G>, s': Client<B>)
    requires Follows(d, s, live, d.g) && d'.client.book == s'.book
    requires if |s'.handles| > |s.handles|
             then d'.client.handles == d.client.handles + [s'.handles[|s.handles|]]
                  && s'.handles[..|s.handles|] == s.handles
             else d'.client.handles == d.client.handles && s'.handles == s.handles
    ensures Follows(d', s', if |s'.handles| > |s.handles| then live + [|s.handles|] else live, d'.g)
  {
    assert forall k :: 0 <= k < |s.handles| && |s'.handles| > |s.handles| ==>
          s'.handles[k] == s'.handles[..|s.handles|][k];
  }

  /** The figures after a submit. */
  lemma SubmitCounts(st: Stats, a: Seen)
    requires a.Submitted?
    ensures var t := Tally(st.(fills := st.fills + |a.prints|), Stored(a.prints));
            Counted(st, t.(ops := t.ops + 1), a)
  {
    hide Tally;
    TallySums(st.(fills := st.fills + |a.prints|), Stored(a.prints));
    assert [a][1..] == [] && CancelsIn([]) == 0;
  }

  lemma SubmitTurn<B, G>(e: Engine<B>, r: Draws<G>, cancelPct: int, d: Driver<B, G>, s: Client<B>, live: seq<nat>)
    requires Follows(d, s, live, d.g) && !(live != [] && r.pct(d.g).0 < cancelPct)
    ensures var d' := Turn(e, r, cancelPct, d);
            var (side, g1) := r.side(if live == [] then d.g else r.pct(d.g).1);
            var (px, g2) := r.px(g1);
            var (qty, g3) := r.qty(g2);
            var (s', a) := Step(e, s, Submit(side, px, qty));
            && Follows(d', s', if |s'.handles| > |s.handles| then live + [|s.handles|] else live, g3)
            && Counted(d.st, d'.st, a)
  {
    hide Tally, Stored, Step, Counted;
    var (side, g1) := r.side(if live == [] then d.g else r.pct(d.g).1);
    var (px, g2) := r.px(g1);
    var (qty, g3) := r.qty(g2);
    SubmitSame(e, d.client, s, side, px, qty);
    SubmitCounts(d.st, Step(e, s, Submit(side, px, qty)).1);
    FollowsOn(d, s, live, Turn(e, r, cancelPct, d), Step(e, s, Submit(side, px, qty)).0);
  }

  /** The figures grew by the sums over the answers. */
  predicate Grew(st: Stats, st': Stats, n: nat, seen: seq<Seen>) {
    && st'.ops == st.ops + n && |seen| == n
    && st'.cancels == st.cancels + CancelsIn(seen)
    && st'.fills == st.fills + FillsIn(seen)
    && st'.fillQty == st.fillQty + LotsIn(seen)
    && st'.checksum == st.checksum + PricesIn(seen) + 1000003 * LotsIn(seen)
  }

  lemma GrewMore(st: Stats, st1: Stats, st2: Stats, a: Seen, n: nat, more: seq<Seen>)
    requires Counted(st, st1, a) && Grew(st1, st2, n, more)
    ensures Grew(st, st2, n + 1, [a] + more)
  {
    hide Lots, Prices, First32, PrintsOf;
    assert ([a] + more)[1..] == more && ([a] + more)[0] == a;
    assert [a][1..] == [] && CancelsIn([]) == 0;
  }

  lemma {:induction false} TurnsCount<B, G>(e: Engine<B>, r: Draws<G>, cancelPct: int, d: Driver<B, G>, s: Client<B>,
                                            live: seq<nat>, n: nat)
    requires Follows(d, s, live, d.g)
    ensures var d' := Turns(e, r, cancelPct, d, n);
            var (s', seen) := Run(e, s, Script(e, r, cancelPct, s, live, d.g, n));
            d'.client.book == s'.book && Grew(d.st, d'.st, n, seen)
    decreases n
  {
    var tape := Script(e, r, cancelPct, s, live, d.g, n);
    RunUnfold(e, s, tape);
    hide Turn, Step, Run, Script, Counted, Grew;
    if n == 0 {
      GrewNothing(d.st);
    } else {
      ScriptUnfold(e, r, cancelPct, s, live, d.g, n);
      var d1 := Turn(e, r, cancelPct, d);
      var (s1, a) := Step(e, s, tape[0]);
      var live1 := if live != [] && r.pct(d.g).0 < cancelPct then live[..|live| - 1]
        else if |s1.handles| > |s.handles| then live + [|s.handles|] else live;
      if live != [] && r.pct(d.g).0 < cancelPct {
        CancelTurn(e, r, cancelPct, d, s, live);
      } else {
        SubmitTurn(e, r, cancelPct, d, s, live);
      }
      TurnsCount(e, r, cancelPct, d1, s1, live1, n - 1);
      GrewMore(d.st, d1.st, Turns(e, r, cancelPct, d1, n - 1).st, a, n - 1, Run(e, s1, tape[1..]).1);
    }
  }

  lemma GrewNothing(st: Stats)
    ensures Grew(st, st, 0, [])
  {
  }

  /** The driver's figures explained by one tape of n requests, the one its draws dictate, and the answers a
      client sees on it: operations are the requests; cancels the cancels answered yes; fills all prints;
      the filled quantity and the checksum add up the first 32 prints of each answer; best prices and the
      live count are those of the book after the tape. */
  ghost predicate Explained<B, G>(e: Engine<B>, r: Draws<G>, cancelPct: int, book: B, g: G, n: nat, sum: Summary) {
    var (s, seen) := Run(e, Client(book, []), Script(e, r, cancelPct, Client(book, []), [], g, n));
    var b := e.sides(s.book);
    && |seen| == sum.stats.ops == n
    && sum.stats.cancels == CancelsIn(seen)
    && sum.stats.fills == FillsIn(seen)
    && sum.stats.fillQty == LotsIn(seen)
    && sum.bestBid == BestOf(b.bids) && sum.bestAsk == BestOf(b.asks) && sum.live == |b.bids| + |b.asks|
    && sum.stats.checksum == PricesIn(seen) + 1000003 * LotsIn(seen)
         + sum.bestBid + sum.bestAsk + sum.live + sum.stats.fills + sum.stats.fillQty + sum.stats.cancels
  }

  lemma FiguresExplained<B, G>(e: Engine<B>, r: Draws<G>, cancelPct: int, book: B, g: G, n: nat)
    ensures Explained(e, r, cancelPct, book, g, n, Drive(e, r, cancelPct, book, g, n))
  {
    hide Turns, Run, Script, CancelsIn, FillsIn, LotsIn, PricesIn;
    TurnsCount(e, r, cancelPct, Fresh(book, g), Client(book, []), [], n);
  }

  // ---------- what an answer says ----------

  lemma {:induction false} LotsArePrinted(fills: seq<Exec>)
    ensures Lots(Prints(fills)) == FilledQty(fills)
  {
    if fills != [] {
      LotsArePrinted(fills[1..]);
      assert Prints(fills)[1..] == Prints(fills[1..]);
    }
  }

  /** The answer to an order, in terms of its arguments and of the number of resting orders. */
  ghost predicate Answers(c: Config, count: nat, side: Side, px: nat, qty: nat, prints: seq<Print>, rested: bool) {
    var ok := qty > 0 && c.minPx <= px <= c.maxPx && count < c.maxOrders;
    && Lots(prints) <= qty
    && (!ok ==> prints == [])
    && (rested <==> ok && Lots(prints) < qty)
    && (forall i :: 0 <= i < |prints| ==> if side == Buy then prints[i].px <= px else prints[i].px >= px)
  }

  ghost predicate Explains<B>(c: Config, b: Sides, s: Client<B>, op: Op, s': Client<B>, a: Seen) {
    match op
    case Submit(side, px, qty) =>
      && a.Submitted? && Answers(c, |b.bids| + |b.asks|, side, px, qty, a.prints, a.rested)
      && |s'.handles| == |s.handles| + (if a.rested then 1 else 0) && s.handles <= s'.handles
    case Withdrawal(h) =>
      && s'.handles == s.handles
      && a == if h < |s.handles| then Cancelled(exists side: Side :: s.handles[h] in Ids(b.On(side))) else NoSuchHandle
  }

  lemma TradeAnswers(c: Config, b: Sides, side: Side, px: nat, qty: nat, id: nat)
    requires SidesOk(c, b)
    ensures var t := Trade(b, side, px, qty, id);
            && Lots(Prints(t.fills)) + t.remaining == qty
            && forall i :: 0 <= i < |t.fills| ==>
                 if side == Buy then Prints(t.fills)[i].px <= px else Prints(t.fills)[i].px >= px
  {
    hide Match, Enqueue, Lots, SidesOk;
    LotsArePrinted(Trade(b, side, px, qty, id).fills);
    MatchConserves(b.On(side.Opposite()), side, id, px, qty, px);
    InsideTheLimit(c, b, side, px, qty, id);
  }

  /** What a client of the ladder sees: an accepted order rests exactly when its prints leave something over,
      and every print is inside its limit; a cancel is answered yes exactly when an order rests under the
      handle's id; and the handles grow by the ids of the orders that rest. */
  lemma LadderAnswers(c: Config, s: Client<Ladder>, op: Op)
    requires Slots(c, s.book.sides, s.book.stack, []) && SidesOk(c, s.book.sides)
    ensures var (s', a) := Step(LadderEngine(c), s, op);
            Explains(c, s.book.sides, s, op, s', a)
  {
    hide Trade, Freed, Lots, SidesOk, Live, Withdraw;
    match op
    case Submit(side, px, qty) =>
      if LadderAccepts(c, s.book, px, qty) {
        StackAt(c, s.book.sides, s.book.stack, [], |s.book.stack| - 1);
        TradeAnswers(c, s.book.sides, side, px, qty, s.book.stack[|s.book.stack| - 1]);
      } else {
        LotsArePrinted([]);
      }
    case Withdrawal(h) =>
      if h < |s.handles| {
        WithdrawTakesOne(s.book.sides, s.handles[h]);
      }
  }

  /** The same for a client of the tree. */
  lemma TreeAnswers(c: Config, s: Client<Tree>, op: Op)
    requires s.book.nextId >= 1 && SidesOk(c, s.book.sides)
    ensures var (s', a) := Step(TreeEngine(c), s, op);
            Explains(c, s.book.sides, s, op, s', a)
  {
    hide Trade, Lots, SidesOk, Live, Withdraw;
    match op
    case Submit(side, px, qty) =>
      if TreeAccepts(c, s.book, px, qty) {
        TradeAnswers(c, s.book.sides, side, px, qty, s.book.nextId);
      } else {
        LotsArePrinted([]);
      }
    case Withdrawal(h) =>
      if h < |s.handles| {
        WithdrawTakesOne(s.book.sides, s.handles[h]);
      }
  }
}
