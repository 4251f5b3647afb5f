/**
 Where the two books part: a handle kept after its order was filled. The tape below has the ladder
 reuse slot 1, so the old handle cancels somebody else's order in the ladder and nothing in the
 tree.
 */
module StaleHandle {
  import opened LobTypes
  import opened PriceTime
  import opened Trading
  import opened Clients
  import opened Refinement

  const TWO_SLOTS := Config(1, 20, 2)

  const STALE_TAPE: seq<Op> := [Submit(Buy, 10, 5), Submit(Sell, 10, 5), Submit(Buy, 10, 1), Submit(Buy, 9, 1),
                                Withdrawal(0)]

  function Start(): Client<Ladder> { Client(Ladder(Sides([], []), [2, 1]), []) }

  function At(n: nat): Client<Ladder> {
    if n == 0 then Start()
    else if n == 1 then Client(Ladder(Sides([Resting(1, 10, 5)], []), [2]), [1])
    else if n == 2 then Client(Ladder(Sides([], []), [1, 2]), [1])
    else if n == 3 then Client(Ladder(Sides([Resting(2, 10, 1)], []), [1]), [1, 2])
    else Client(Ladder(Sides([Resting(2, 10, 1), Resting(1, 9, 1)], []), []), [1, 2, 1])
  }

  lemma Walk1()
    ensures Step(LadderEngine(TWO_SLOTS), At(0), Submit(Buy, 10, 5)).0 == At(1)
  {
    assert Match([], Buy, 1, 10, 5) == Matched([], [], 5);
    assert Enqueue(Buy, [], Resting(1, 10, 5)) == [Resting(1, 10, 5)];
    assert [2, 1][..1] + [] == [2];
    assert LadderLimit(TWO_SLOTS, At(0).book, Buy, 10, 5) == Outcome(At(1).book, 1, []);
  }

  lemma Walk2()
    ensures Step(LadderEngine(TWO_SLOTS), At(1), Submit(Sell, 10, 5)).0 == At(2)
  {
    var q := [Resting(1, 10, 5)];
    assert q[1..] == [];
    assert Match(q, Sell, 2, 10, 5) == After([Exec(1, 2, 10, 5)], Matched([], [], 0));
    assert Freed(q, Sell, 2, 10, 5) == [1];
    assert [2][..0] + [1] + [2] == [1, 2];
    assert LadderLimit(TWO_SLOTS, At(1).book, Sell, 10, 5).book == At(2).book;
  }

  lemma Walk3()
    ensures Step(LadderEngine(TWO_SLOTS), At(2), Submit(Buy, 10, 1)).0 == At(3)
  {
    assert Match([], Buy, 2, 10, 1) == Matched([], [], 1);
    assert Enqueue(Buy, [], Resting(2, 10, 1)) == [Resting(2, 10, 1)];
    assert [1, 2][..1] + [] == [1];
    assert LadderLimit(TWO_SLOTS, At(2).book, Buy, 10, 1) == Outcome(At(3).book, 2, []);
  }

  lemma Walk4()
    ensures Step(LadderEngine(TWO_SLOTS), At(3), Submit(Buy, 9, 1)).0 == At(4)
  {
    var q := [Resting(2, 10, 1)];
    assert q[1..] == [];
    assert Slot(Buy, q, 9) == 1;
    assert Enqueue(Buy, q, Resting(1, 9, 1)) == [Resting(2, 10, 1), Resting(1, 9, 1)];
    assert Match([], Buy, 1, 9, 1) == Matched([], [], 1);
    assert [1][..0] + [] == [];
    assert LadderLimit(TWO_SLOTS, At(3).book, Buy, 9, 1) == Outcome(At(4).book, 1, []);
  }

  lemma LastIsUnsafe()
    ensures !Safe(At(4), 0)
  {
    var b := At(4).book.sides.bids;
    assert b[1..] == [Resting(1, 9, 1)];
    assert IndexOf(b, 1) == 1;
    assert At(4).handles[2] == 1;
  }

  /** The tape is unsafe, so the two books answer it differently. */
  lemma SafeTapeUnfold(c: Config, s: Client<Ladder>, tape: seq<Op>)
    requires tape != []
    ensures SafeTape(c, s, tape) <==> SafeOp(s, tape[0]) && SafeTape(c, Step(LadderEngine(c), s, tape[0]).0, tape[1..])
  {
  }

  lemma BooksCanDiffer()
    ensures !SafeTape(TWO_SLOTS, Start(), STALE_TAPE)
    ensures Run(LadderEngine(TWO_SLOTS), Start(), STALE_TAPE).1
            != Run(TreeEngine(TWO_SLOTS), Client(Tree(Sides([], []), 1), []), STALE_TAPE).1
  {
    hide Step, LadderEngine, TreeEngine, Safe, Run, SafeTape, Tracked, Slots;
    Walk1();
    Walk2();
    Walk3();
    Walk4();
    LastIsUnsafe();
    var t1, t2, t3, t4 := STALE_TAPE[1..], STALE_TAPE[2..], STALE_TAPE[3..], STALE_TAPE[4..];
    assert t1[1..] == t2 && t2[1..] == t3 && t3[1..] == t4;
    SafeTapeUnfold(TWO_SLOTS, At(4), t4);
    SafeTapeUnfold(TWO_SLOTS, At(3), t3);
    SafeTapeUnfold(TWO_SLOTS, At(2), t2);
    SafeTapeUnfold(TWO_SLOTS, At(1), t1);
    SafeTapeUnfold(TWO_SLOTS, At(0), STALE_TAPE);
    StartSlots();
    FreshTracked(TWO_SLOTS, [2, 1]);
    Interchangeable(TWO_SLOTS, Start(), Client(Tree(Sides([], []), 1), []), STALE_TAPE);
  }

  lemma StartSlots()
    ensures Slots(TWO_SLOTS, Sides([], []), [2, 1], [])
  {
    assert Ids([]) == [];
    assert multiset([2, 1]) == multiset{2, 1};
  }
}
