/**
 Clients of a book, written once for both books: an engine is what a client can ask of a book,
 a tape is a sequence of requests, and the benchmark driver is a loop over random draws.
 */
module Clients {
  import opened LobTypes
  import opened PriceTime
  import opened Trading

  datatype Engine<!B> = Engine(limit: (B, Side, nat, nat) -> Outcome<B>, cancel: (B, nat) -> B, sides: B -> Sides)

  function LadderEngine(c: Config): Engine<Ladder> {
    Engine((b: Ladder, s: Side, p: nat, q: nat) => LadderLimit(c, b, s, p, q),
           (b: Ladder, id: nat) => LadderCancel(b, id), (b: Ladder) => b.sides)
  }

  function TreeEngine(c: Config): Engine<Tree> {
    Engine((b: Tree, s: Side, p: nat, q: nat) => TreeLimit(c, b, s, p, q), (b: Tree, id: nat) => TreeCancel(b, id),
           (b: Tree) => b.sides)
  }

  /** A client remembers the id of every order of its that came to rest, in that order. */
  datatype Client<B> = Client(book: B, handles: seq<nat>)

  // ---------- tapes ----------

  datatype Op = Submit(side: Side, px: nat, qty: nat) | Withdrawal(handle: nat)

  /** A fill without the names: what both books can agree on literally. */
  datatype Print = Print(px: nat, qty: nat)

  datatype Seen = Submitted(prints: seq<Print>, rested: bool) | Cancelled(ok: bool) | NoSuchHandle

  function Prints(fills: seq<Exec>): (r: seq<Print>)
    ensures |r| == |fills|
    ensures forall i :: 0 <= i < |fills| ==> r[i] == Print(fills[i].px, fills[i].qty)
  {
    seq(|fills|, i requires 0 <= i < |fills| => Print(fills[i].px, fills[i].qty))
  }

  function Step<B>(e: Engine<B>, s: Client<B>, op: Op): (Client<B>, Seen) {
    match op
    case Submit(side, px, qty) =>
      var r := e.limit(s.book, side, px, qty);
      (Client(r.book, if r.id == INVALID_ID then s.handles else s.handles + [r.id]),
       Submitted(Prints(r.fills), r.id != INVALID_ID))
    case Withdrawal(h) =>
      if h >= |s.handles| then (s, NoSuchHandle)
      else (s.(book := e.cancel(s.book, s.handles[h])), Cancelled(Live(e.sides(s.book), s.handles[h])))
  }

  function Run<B>(e: Engine<B>, s: Client<B>, tape: seq<Op>): (Client<B>, seq<Seen>)
    decreases |tape|
  {
    if tape == [] then (s, [])
    else
      var (s1, seen) := Step(e, s, tape[0]);
      var (s2, more) := Run(e, s1, tape[1..]);
      (s2, [seen] + more)
  }

  lemma RunUnfold<B>(e: Engine<B>, s: Client<B>, tape: seq<Op>)
    ensures tape == [] ==> Run(e, s, tape) == (s, [])
    ensures tape != [] ==>
              var (s1, seen) := Step(e, s, tape[0]);
              var (s2, more) := Run(e, s1, tape[1..]);
              Run(e, s, tape) == (s2, [seen] + more)
  {
  }

  // ---------- the benchmark driver ----------

  /** A deterministic source of the driver's draws, whatever its state G is. */
  datatype Draws<!G> = Draws(pct: G -> (nat, G), side: G -> (Side, G), px: G -> (nat, G), qty: G -> (nat, G))

  datatype Stats = Stats(ops: nat, fills: nat, fillQty: nat, cancels: nat, checksum: nat)

  datatype Summary = Summary(stats: Stats, bestBid: nat, bestAsk: nat, live: nat)

  const EXEC_CAP: nat := 32

  datatype Driver<B, G> = Driver(client: Client<B>, g: G, st: Stats)

  /** What the driver adds up from the stored fills. */
  function Tally(st: Stats, prints: seq<Print>): Stats
    decreases |prints|
  {
    if prints == [] then st
    else
      var p := prints[0];
      Tally(st.(fillQty := st.fillQty + p.qty, checksum := st.checksum + p.px + p.qty * 1000003), prints[1..])
  }

  function Stored(prints: seq<Print>): seq<Print> {
    if |prints| <= EXEC_CAP then prints else prints[..EXEC_CAP]
  }

  function Popped<B>(s: Client<B>): Client<B>
    requires s.handles != []
  {
    s.(handles := s.handles[..|s.handles| - 1])
  }

  function TakeCancel<B, G>(e: Engine<B>, d: Driver<B, G>, g: G): Driver<B, G>
    requires d.client.handles != []
  {
    var (s, seen) := Step(e, d.client, Withdrawal(|d.client.handles| - 1));
    Driver(Popped(s), g, d.st.(ops := d.st.ops + 1, cancels := d.st.cancels + if seen == Cancelled(true) then 1 else 0))
  }

  function TakeSubmit<B, G>(e: Engine<B>, r: Draws<G>, d: Driver<B, G>, g: G): Driver<B, G> {
    var (side, g1) := r.side(g);
    var (px, g2) := r.px(g1);
    var (qty, g3) := r.qty(g2);
    var (s, seen) := Step(e, d.client, Submit(side, px, qty));
    if seen.Submitted? then
      var st := Tally(d.st.(fills := d.st.fills + |seen.prints|), Stored(seen.prints));
      Driver(s, g3, st.(ops := st.ops + 1))
    else d
  }

  /** One iteration of the driver. The percentage is drawn only when there is a handle to cancel. */
  function Turn<B, G>(e: Engine<B>, r: Draws<G>, cancelPct: int, d: Driver<B, G>): Driver<B, G> {
    if d.client.handles == [] then TakeSubmit(e, r, d, d.g)
    else
      var (pct, g) := r.pct(d.g);
      if pct < cancelPct then TakeCancel(e, d, g) else TakeSubmit(e, r, d, g)
  }

  function Turns<B, G>(e: Engine<B>, r: Draws<G>, cancelPct: int, d: Driver<B, G>, n: nat): Driver<B, G>
    decreases n
  {
    if n == 0 then d else Turns(e, r, cancelPct, Turn(e, r, cancelPct, d), n - 1)
  }

  function Summarize<B, G>(e: Engine<B>, d: Driver<B, G>): Summary {
    var b := e.sides(d.client.book);
    var bestBid, bestAsk, live := BestOf(b.bids), BestOf(b.asks), |b.bids| + |b.asks|;
    Summary(d.st.(checksum := d.st.checksum + bestBid + bestAsk + live + d.st.fills + d.st.fillQty + d.st.cancels),
            bestBid, bestAsk, live)
  }

  function Fresh<B, G>(book: B, g: G): Driver<B, G> {
    Driver(Client(book, []), g, Stats(0, 0, 0, 0, 0))
  }

  /** The driver's result for n iterations on a given book. */
  function Drive<B, G>(e: Engine<B>, r: Draws<G>, cancelPct: int, book: B, g: G, n: nat): Summary {
    Summarize(e, Turns(e, r, cancelPct, Fresh(book, g), n))
  }
}
