/**
 The matching rules, stated without ladders, links or maps. One side of a book is a single
 sequence of resting orders in priority order: best price first, and at one price first come
 first. Both books are proved against these functions.
 */
module PriceTime {
  import opened LobTypes
  import opened Wrappers

  datatype Resting = Resting(id: nat, px: nat, qty: nat)

  /** Price p is strictly better than price q for orders resting on `side`. */
  predicate Ahead(side: Side, p: nat, q: nat) {
    if side.Buy? then p > q else p < q
  }

  /** A taker with this limit may trade against an order resting at px. */
  predicate Crosses(taker: Side, limit: nat, px: nat) {
    if taker.Buy? then px <= limit else px >= limit
  }

  ghost predicate Sorted(side: Side, s: seq<Resting>) {
    forall i, j :: 0 <= i < j < |s| ==> !Ahead(side, s[j].px, s[i].px)
  }

  ghost predicate Positive(s: seq<Resting>) {
    forall k :: 0 <= k < |s| ==> s[k].qty > 0
  }

  function Ids(s: seq<Resting>): (r: seq<nat>)
    ensures |r| == |s|
    ensures forall k :: 0 <= k < |s| ==> r[k] == s[k].id
  {
    seq(|s|, i requires 0 <= i < |s| => s[i].id)
  }

  /** How many orders stay ahead of a newcomer at px: its place in the queue. */
  function Slot(side: Side, s: seq<Resting>, px: nat): (k: nat)
    ensures k <= |s|
    ensures forall i :: 0 <= i < k ==> !Ahead(side, px, s[i].px)
    ensures k < |s| ==> Ahead(side, px, s[k].px)
  {
    if s == [] || Ahead(side, px, s[0].px) then 0 else 1 + Slot(side, s[1..], px)
  }

  function Enqueue(side: Side, s: seq<Resting>, o: Resting): seq<Resting> {
    var k := Slot(side, s, o.px);
    s[..k] + [o] + s[k..]
  }

  function Remove(s: seq<Resting>, k: nat): seq<Resting>
    requires k < |s|
  {
    s[..k] + s[k + 1..]
  }

  /** The price at the front, or 0 when nobody rests. */
  function BestOf(s: seq<Resting>): nat {
    if s == [] then 0 else s[0].px
  }

  function TotalAt(s: seq<Resting>, px: nat): nat {
    if s == [] then 0 else (if s[0].px == px then s[0].qty else 0) + TotalAt(s[1..], px)
  }

  /** The orders at one price, in priority order. */
  function LevelIds(s: seq<Resting>, px: nat): seq<nat> {
    if s == [] then [] else (if s[0].px == px then [s[0].id] else []) + LevelIds(s[1..], px)
  }

  function FilledQty(fills: seq<Exec>): nat {
    if fills == [] then 0 else fills[0].qty + FilledQty(fills[1..])
  }

  function FilledAt(fills: seq<Exec>, px: nat): nat {
    if fills == [] then 0 else (if fills[0].px == px then fills[0].qty else 0) + FilledAt(fills[1..], px)
  }

  function FilledFrom(fills: seq<Exec>, maker: nat): nat {
    if fills == [] then 0
    else (if fills[0].makerId == maker then fills[0].qty else 0) + FilledFrom(fills[1..], maker)
  }

  // ---------- matching ----------

  datatype Matched = Matched(fills: seq<Exec>, left: seq<Resting>, remaining: nat)

  /** What a taker of `qty` at `limit` does to the opposite side q. */
  function Match(q: seq<Resting>, taker: Side, takerId: nat, limit: nat, qty: nat): Matched {
    if qty == 0 || q == [] || !Crosses(taker, limit, q[0].px) then Matched([], q, qty)
    else
      var take := Min(q[0].qty, qty);
      var fill := Exec(q[0].id, takerId, q[0].px, take);
      if take == q[0].qty then
        After([fill], Match(q[1..], taker, takerId, limit, qty - take))
      else
        Matched([fill], [q[0].(qty := q[0].qty - take)] + q[1..], qty - take)
  }

  function After(fills: seq<Exec>, m: Matched): Matched {
    m.(fills := fills + m.fills)
  }

  /** The three cases of a match. */
  lemma MatchUnfold(q: seq<Resting>, taker: Side, takerId: nat, limit: nat, qty: nat)
    ensures var m := Match(q, taker, takerId, limit, qty);
            if qty == 0 || q == [] || !Crosses(taker, limit, q[0].px) then m == Matched([], q, qty)
            else if q[0].qty <= qty then
              m == After([Exec(q[0].id, takerId, q[0].px, q[0].qty)],
                         Match(q[1..], taker, takerId, limit, qty - q[0].qty))
            else
              m == Matched([Exec(q[0].id, takerId, q[0].px, qty)], [q[0].(qty := q[0].qty - qty)] + q[1..], 0)
  {
  }

  // ---------- sequences of resting orders ----------

  lemma {:induction false} TotalAtConcat(a: seq<Resting>, b: seq<Resting>, px: nat)
    ensures TotalAt(a + b, px) == TotalAt(a, px) + TotalAt(b, px)
  {
    if a == [] {
      assert a + b == b;
    } else {
      assert (a + b)[1..] == a[1..] + b;
      TotalAtConcat(a[1..], b, px);
    }
  }

  lemma {:induction false} TotalAtSplit(s: seq<Resting>, k: nat, px: nat)
    requires k < |s|
    ensures TotalAt(s, px) == TotalAt(s[..k], px) + (if s[k].px == px then s[k].qty else 0) + TotalAt(s[k + 1..], px)
  {
    assert s == s[..k] + ([s[k]] + s[k + 1..]);
    TotalAtConcat(s[..k], [s[k]] + s[k + 1..], px);
    assert ([s[k]] + s[k + 1..])[1..] == s[k + 1..];
  }

  lemma TotalAtRemove(s: seq<Resting>, k: nat, px: nat)
    requires k < |s|
    ensures TotalAt(Remove(s, k), px) == TotalAt(s, px) - (if s[k].px == px then s[k].qty else 0)
  {
    TotalAtSplit(s, k, px);
    TotalAtConcat(s[..k], s[k + 1..], px);
  }

  lemma TotalAtEnqueue(side: Side, s: seq<Resting>, o: Resting, px: nat)
    ensures TotalAt(Enqueue(side, s, o), px) == TotalAt(s, px) + (if o.px == px then o.qty else 0)
  {
    var k := Slot(side, s, o.px);
    var e := Enqueue(side, s, o);
    TotalAtSplit(e, k, px);
    assert e[..k] == s[..k] && e[k + 1..] == s[k..];
    TotalAtConcat(s[..k], s[k..], px);
    assert s == s[..k] + s[k..];
  }

  /** A level's total tells whether anyone rests there. */
  lemma {:induction false} TotalAtZero(s: seq<Resting>, px: nat)
    requires Positive(s)
    ensures TotalAt(s, px) == 0 <==> forall k :: 0 <= k < |s| ==> s[k].px != px
  {
    if s != [] {
      TotalAtZero(s[1..], px);
      assert forall k :: 1 <= k < |s| ==> s[k] == s[1..][k - 1];
    }
  }

  lemma {:induction false} NobodyThere(s: seq<Resting>, px: nat)
    requires forall k :: 0 <= k < |s| ==> s[k].px != px
    ensures TotalAt(s, px) == 0
  {
    if s != [] {
      NobodyThere(s[1..], px);
    }
  }

  lemma {:induction false} LevelIdsConcat(a: seq<Resting>, b: seq<Resting>, px: nat)
    ensures LevelIds(a + b, px) == LevelIds(a, px) + LevelIds(b, px)
  {
    if a == [] {
      assert a + b == b;
    } else {
      assert (a + b)[1..] == a[1..] + b;
      LevelIdsConcat(a[1..], b, px);
      var h := if a[0].px == px then [a[0].id] else [];
      assert h + (LevelIds(a[1..], px) + LevelIds(b, px)) == h + LevelIds(a[1..], px) + LevelIds(b, px);
    }
  }

  lemma {:induction false} LevelIdsNone(s: seq<Resting>, px: nat)
    requires forall k :: 0 <= k < |s| ==> s[k].px != px
    ensures LevelIds(s, px) == []
  {
    if s != [] {
      LevelIdsNone(s[1..], px);
    }
  }

  lemma {:induction false} LevelIdsAll(s: seq<Resting>, px: nat)
    requires forall k :: 0 <= k < |s| ==> s[k].px == px
    ensures LevelIds(s, px) == Ids(s)
  {
    if s != [] {
      LevelIdsAll(s[1..], px);
      assert Ids(s) == [s[0].id] + Ids(s[1..]);
    }
  }

  /** The enlarged queue, place by place. */
  lemma EnqueueAt(side: Side, s: seq<Resting>, o: Resting)
    ensures var k, e := Slot(side, s, o.px), Enqueue(side, s, o);
            && k <= |s| && |e| == |s| + 1 && e[..k] == s[..k] && e[k] == o && e[k + 1..] == s[k..]
            && (forall i :: 0 <= i < |e| ==> e[i] == if i < k then s[i] else if i == k then o else s[i - 1])
            && Remove(e, k) == s
  {
    hide Slot;
    var k, e := Slot(side, s, o.px), Enqueue(side, s, o);
    assert s[..k] + s[k..] == s;
  }

  /** The shortened queue, place by place. */
  lemma RemoveAt(s: seq<Resting>, k: nat)
    requires k < |s|
    ensures var r := Remove(s, k);
            |r| == |s| - 1 && forall i :: 0 <= i < |r| ==> r[i] == s[if i < k then i else i + 1]
  {
  }

  lemma EnqueueSorted(side: Side, s: seq<Resting>, o: Resting)
    requires Sorted(side, s)
    ensures Sorted(side, Enqueue(side, s, o))
  {
    hide Enqueue;
    var e := Enqueue(side, s, o);
    EnqueueAt(side, s, o);
    forall i, j | 0 <= i < j < |e|
      ensures !Ahead(side, e[j].px, e[i].px)
    {
      EnqueuedInOrder(side, s, o, i, j);
    }
  }

  lemma EnqueuedInOrder(side: Side, s: seq<Resting>, o: Resting, i: nat, j: nat)
    requires Sorted(side, s) && i < j <= |s|
    ensures |Enqueue(side, s, o)| == |s| + 1
    ensures !Ahead(side, Enqueue(side, s, o)[j].px, Enqueue(side, s, o)[i].px)
  {
    hide Enqueue;
    EnqueueAt(side, s, o);
    var k := Slot(side, s, o.px);
    if i == k {
      assert !Ahead(side, s[j - 1].px, s[k].px);
    }
  }

  lemma RemoveSorted(side: Side, s: seq<Resting>, k: nat)
    requires k < |s| && Sorted(side, s)
    ensures Sorted(side, Remove(s, k))
  {
    hide Remove;
    RemoveAt(s, k);
  }

  lemma RemoveAtPrice(s: seq<Resting>, k: nat, p: nat)
    requires k < |s|
    ensures LevelIds(s, p) == LevelIds(s[..k], p) + (if s[k].px == p then [s[k].id] else []) + LevelIds(s[k + 1..], p)
    ensures LevelIds(Remove(s, k), p) == LevelIds(s[..k], p) + LevelIds(s[k + 1..], p)
  {
    assert s == s[..k] + ([s[k]] + s[k + 1..]);
    LevelIdsConcat(s[..k], [s[k]] + s[k + 1..], p);
    assert ([s[k]] + s[k + 1..])[1..] == s[k + 1..];
    LevelIdsConcat(s[..k], s[k + 1..], p);
  }

  lemma NobodyBehind(side: Side, s: seq<Resting>, px: nat)
    requires Sorted(side, s)
    ensures LevelIds(s[Slot(side, s, px)..], px) == []
  {
    var k := Slot(side, s, px);
    assert forall i :: k <= i < |s| ==> i == k || !Ahead(side, s[i].px, s[k].px);
    LevelIdsNone(s[k..], px);
  }

  /** A newcomer joins the back of its level. */
  lemma EnqueueLevelIds(side: Side, s: seq<Resting>, o: Resting, p: nat)
    requires Sorted(side, s)
    ensures LevelIds(Enqueue(side, s, o), p) == LevelIds(s, p) + (if p == o.px then [o.id] else [])
  {
    hide LevelIds, Slot, Enqueue, Remove, Sorted;
    var k := Slot(side, s, o.px);
    EnqueueAt(side, s, o);
    RemoveAtPrice(Enqueue(side, s, o), k, p);
    if p == o.px {
      NobodyBehind(side, s, o.px);
    }
  }

  lemma BestOfEnqueue(side: Side, s: seq<Resting>, o: Resting)
    ensures BestOf(Enqueue(side, s, o)) ==
            if s == [] || Ahead(side, o.px, s[0].px) then o.px else s[0].px
  {
  }

  // ---------- what a match does ----------

  /** The declarative reading of price-time priority: the fills run down the queue in order, at
      the makers' prices, each maker but possibly the last is used up, the quantities add up, and
      the taker stops only when it is filled or nobody is left inside its limit. */
  ghost predicate Greedy(q: seq<Resting>, taker: Side, takerId: nat, limit: nat, qty: nat, m: Matched) {
    var n := |m.fills|;
    && n <= |q|
    && (forall i :: 0 <= i < n ==> FillOf(m.fills[i], q[i], taker, takerId, limit))
    && (forall i :: 0 <= i < n - 1 ==> m.fills[i].qty == q[i].qty)
    && FilledQty(m.fills) + m.remaining == qty
    && m.left == LeftAfter(q, m.fills)
    && (m.remaining > 0 ==> m.left == q[n..] && (n == |q| || !Crosses(taker, limit, q[n].px)))
  }

  /** f is a trade of the taker with the resting order r, at r's price. */
  predicate FillOf(f: Exec, r: Resting, taker: Side, takerId: nat, limit: nat) {
    && Crosses(taker, limit, r.px)
    && f.makerId == r.id && f.takerId == takerId && f.px == r.px
    && 0 < f.qty <= r.qty
  }

  function LeftAfter(q: seq<Resting>, fills: seq<Exec>): seq<Resting>
    requires |fills| <= |q|
    requires fills != [] ==> fills[|fills| - 1].qty <= q[|fills| - 1].qty
  {
    var n := |fills|;
    if n > 0 && fills[n - 1].qty < q[n - 1].qty then
      [q[n - 1].(qty := q[n - 1].qty - fills[n - 1].qty)] + q[n..]
    else q[n..]
  }

  lemma {:induction false} MatchIsGreedy(q: seq<Resting>, taker: Side, takerId: nat, limit: nat, qty: nat)
    requires Positive(q)
    ensures Greedy(q, taker, takerId, limit, qty, Match(q, taker, takerId, limit, qty))
  {
    hide Match;
    MatchUnfold(q, taker, takerId, limit, qty);
    if qty == 0 || q == [] || !Crosses(taker, limit, q[0].px) {
    } else if q[0].qty <= qty {
      MatchIsGreedy(q[1..], taker, takerId, limit, qty - q[0].qty);
      GreedyCons(q, taker, takerId, limit, qty, Match(q[1..], taker, takerId, limit, qty - q[0].qty));
    } else {
      assert [Exec(q[0].id, takerId, q[0].px, qty)][1..] == [];
      assert FilledQty([]) == 0;
    }
  }

  /** Using up the first maker and going on greedily is greedy. */
  lemma GreedyCons(q: seq<Resting>, taker: Side, takerId: nat, limit: nat, qty: nat, t: Matched)
    requires q != [] && 0 < q[0].qty <= qty && Crosses(taker, limit, q[0].px)
    requires Greedy(q[1..], taker, takerId, limit, qty - q[0].qty, t)
    ensures Greedy(q, taker, takerId, limit, qty, After([Exec(q[0].id, takerId, q[0].px, q[0].qty)], t))
  {
    var m := After([Exec(q[0].id, takerId, q[0].px, q[0].qty)], t);
    assert m.fills[1..] == t.fills;
    forall i | 0 <= i < |m.fills|
      ensures FillOf(m.fills[i], q[i], taker, takerId, limit)
      ensures i < |m.fills| - 1 ==> m.fills[i].qty == q[i].qty
    {
      if i > 0 {
        assert m.fills[i] == t.fills[i - 1] && q[i] == q[1..][i - 1];
        assert FillOf(t.fills[i - 1], q[1..][i - 1], taker, takerId, limit);
      }
    }
    LeftAfterCons(q, m.fills);
  }

  lemma LeftAfterCons(q: seq<Resting>, fills: seq<Exec>)
    requires fills != [] && |fills| <= |q| && fills[0].qty == q[0].qty
    requires fills[|fills| - 1].qty <= q[|fills| - 1].qty
    ensures |fills| > 1 ==> fills[1..][|fills| - 2].qty <= q[1..][|fills| - 2].qty
    ensures LeftAfter(q, fills) == LeftAfter(q[1..], fills[1..])
    ensures q[|fills|..] == q[1..][|fills| - 1..]
  {
  }

  /** Greedy pins the outcome down completely. */
  lemma {:induction false} GreedyIsUnique(q: seq<Resting>, taker: Side, takerId: nat, limit: nat, qty: nat, m: Matched)
    requires Positive(q)
    requires Greedy(q, taker, takerId, limit, qty, m)
    ensures m == Match(q, taker, takerId, limit, qty)
  {
    hide Match;
    MatchUnfold(q, taker, takerId, limit, qty);
    if m.fills != [] {
      assert FillOf(m.fills[0], q[0], taker, takerId, limit);
      var t := m.(fills := m.fills[1..]);
      assert m.fills == [m.fills[0]] + t.fills;
      if m.fills[0].qty == q[0].qty {
        GreedyTail(q, taker, takerId, limit, qty, m);
        GreedyIsUnique(q[1..], taker, takerId, limit, qty - q[0].qty, t);
      } else {
        assert |m.fills| == 1;
        assert t.fills == [] && FilledQty(t.fills) == 0;
      }
    }
  }

  lemma GreedyTail(q: seq<Resting>, taker: Side, takerId: nat, limit: nat, qty: nat, m: Matched)
    requires Greedy(q, taker, takerId, limit, qty, m)
    requires m.fills != [] && m.fills[0].qty == q[0].qty
    ensures q[0].qty <= qty
    ensures Greedy(q[1..], taker, takerId, limit, qty - q[0].qty, m.(fills := m.fills[1..]))
  {
    var t := m.(fills := m.fills[1..]);
    assert FillOf(m.fills[|m.fills| - 1], q[|m.fills| - 1], taker, takerId, limit);
    forall i | 0 <= i < |t.fills|
      ensures FillOf(t.fills[i], q[1..][i], taker, takerId, limit)
      ensures i < |t.fills| - 1 ==> t.fills[i].qty == q[1..][i].qty
    {
      assert FillOf(m.fills[i + 1], q[i + 1], taker, takerId, limit);
    }
    LeftAfterCons(q, m.fills);
  }

  /** Price-time priority, both ways: a result is the match exactly when it is greedy. */
  lemma PriceTimePriority(q: seq<Resting>, taker: Side, takerId: nat, limit: nat, qty: nat, m: Matched)
    requires Positive(q)
    ensures m == Match(q, taker, takerId, limit, qty) <==> Greedy(q, taker, takerId, limit, qty, m)
  {
    MatchIsGreedy(q, taker, takerId, limit, qty);
    if Greedy(q, taker, takerId, limit, qty, m) {
      GreedyIsUnique(q, taker, takerId, limit, qty, m);
    }
  }

  /** left is q without a prefix, its first order perhaps reduced. */
  ghost predicate Survivors(left: seq<Resting>, q: seq<Resting>) {
    && |left| <= |q|
    && forall i :: 0 <= i < |left| ==> Survivor(left[i], q[i + |q| - |left|])
  }

  predicate Survivor(l: Resting, o: Resting) {
    l.id == o.id && l.px == o.px && 0 < l.qty <= o.qty
  }

  lemma {:induction false} MatchLeavesSurvivors(q: seq<Resting>, taker: Side, takerId: nat, limit: nat, qty: nat)
    requires Positive(q)
    ensures Survivors(Match(q, taker, takerId, limit, qty).left, q)
  {
    if qty == 0 || q == [] || !Crosses(taker, limit, q[0].px) {
    } else if q[0].qty <= qty {
      MatchLeavesSurvivors(q[1..], taker, takerId, limit, qty - q[0].qty);
      SurvivorsOfTail(Match(q[1..], taker, takerId, limit, qty - q[0].qty).left, q);
    } else {
      var left := [q[0].(qty := q[0].qty - qty)] + q[1..];
      assert forall i :: 0 <= i < |left| ==> Survivor(left[i], q[i]);
    }
  }

  lemma SurvivorsOfTail(left: seq<Resting>, q: seq<Resting>)
    requires q != [] && Survivors(left, q[1..])
    ensures Survivors(left, q)
  {
    forall i | 0 <= i < |left|
      ensures Survivor(left[i], q[i + |q| - |left|])
    {
      assert Survivor(left[i], q[1..][i + |q[1..]| - |left|]);
    }
  }

  /** What the match leaves behind is still a well-formed side. */
  lemma MatchKeepsSide(side: Side, q: seq<Resting>, takerId: nat, limit: nat, qty: nat)
    requires Positive(q) && Sorted(side, q)
    ensures var left := Match(q, side.Opposite(), takerId, limit, qty).left;
            Positive(left) && Sorted(side, left) && Survivors(left, q)
  {
    MatchLeavesSurvivors(q, side.Opposite(), takerId, limit, qty);
    var left := Match(q, side.Opposite(), takerId, limit, qty).left;
    SurvivorsSorted(side, left, q);
  }

  lemma SurvivorsSorted(side: Side, left: seq<Resting>, q: seq<Resting>)
    requires Survivors(left, q) && Sorted(side, q)
    ensures Positive(left) && Sorted(side, left)
  {
    var d := |q| - |left|;
    forall i | 0 <= i < |left|
      ensures left[i].px == q[i + d].px && left[i].qty > 0
    {
      assert Survivor(left[i], q[i + d]);
    }
    forall i, j | 0 <= i < j < |left|
      ensures !Ahead(side, left[j].px, left[i].px)
    {
      assert !Ahead(side, q[j + d].px, q[i + d].px);
    }
  }

  /** A taker with a remainder has traded with everybody inside its limit. */
  lemma {:induction false} RemainderCrossesNobody(side: Side, q: seq<Resting>, takerId: nat, limit: nat, qty: nat)
    requires Sorted(side, q)
    requires Match(q, side.Opposite(), takerId, limit, qty).remaining > 0
    ensures forall r :: r in Match(q, side.Opposite(), takerId, limit, qty).left ==>
              !Crosses(side.Opposite(), limit, r.px)
  {
    if q == [] {
    } else if Crosses(side.Opposite(), limit, q[0].px) {
      RemainderCrossesNobody(side, q[1..], takerId, limit, qty - q[0].qty);
    } else {
      forall r | r in q
        ensures !Crosses(side.Opposite(), limit, r.px)
      {
        var k :| 0 <= k < |q| && q[k] == r;
        assert k == 0 || !Ahead(side, q[k].px, q[0].px);
      }
    }
  }

  lemma {:induction false} MatchRemaining(q: seq<Resting>, taker: Side, takerId: nat, limit: nat, qty: nat)
    ensures Match(q, taker, takerId, limit, qty).remaining <= qty
  {
    if qty != 0 && q != [] && Crosses(taker, limit, q[0].px) && q[0].qty <= qty {
      MatchRemaining(q[1..], taker, takerId, limit, qty - q[0].qty);
    }
  }

  /** Conservation: the taker's quantity is its fills plus its remainder, and the opposite side
      loses, price by price, exactly what was filled. */
  lemma {:induction false} MatchConserves(q: seq<Resting>, taker: Side, takerId: nat, limit: nat, qty: nat, px: nat)
    ensures var m := Match(q, taker, takerId, limit, qty);
            && FilledQty(m.fills) + m.remaining == qty
            && TotalAt(q, px) == TotalAt(m.left, px) + FilledAt(m.fills, px)
  {
    if qty == 0 || q == [] || !Crosses(taker, limit, q[0].px) {
    } else if q[0].qty <= qty {
      MatchConserves(q[1..], taker, takerId, limit, qty - q[0].qty, px);
      var m := Match(q, taker, takerId, limit, qty);
      assert m.fills[1..] == Match(q[1..], taker, takerId, limit, qty - q[0].qty).fills;
    } else {
      var m := Match(q, taker, takerId, limit, qty);
      assert m.fills[1..] == [] && m.left[1..] == q[1..];
    }
  }

  /** m1 for quantity a and then m2 for quantity b together are m for a + b: the same queue
      afterwards, the same total from the given maker, and nothing left to take once m1 has a
      remainder. */
  ghost predicate Splits(m1: Matched, m2: Matched, m: Matched, maker: nat) {
    && m.left == m2.left
    && m.remaining == m1.remaining + m2.remaining
    && FilledFrom(m.fills, maker) == FilledFrom(m1.fills, maker) + FilledFrom(m2.fills, maker)
    && (m1.remaining > 0 ==> m2.fills == [] && m2.left == m1.left)
  }

  /** The first part trades nothing. */
  lemma NothingThenAll(q: seq<Resting>, taker: Side, id1: nat, id2: nat, id: nat, limit: nat, a: nat, b: nat,
                       maker: nat)
    requires a == 0 || q == [] || !Crosses(taker, limit, q[0].px)
    ensures var m1 := Match(q, taker, id1, limit, a);
            Splits(m1, Match(m1.left, taker, id2, limit, b), Match(q, taker, id, limit, a + b), maker)
  {
    if a == 0 {
      MatchTakerId(q, taker, id, id2, limit, b, maker);
    }
  }

  lemma {:induction false} MatchSplits(q: seq<Resting>, taker: Side, id1: nat, id2: nat, id: nat, limit: nat, a: nat,
                                       b: nat, maker: nat)
    requires Positive(q)
    ensures var m1 := Match(q, taker, id1, limit, a);
            Splits(m1, Match(m1.left, taker, id2, limit, b), Match(q, taker, id, limit, a + b), maker)
  {
    hide Match, Splits, FilledFrom;
    MatchUnfold(q, taker, id1, limit, a);
    MatchUnfold(q, taker, id2, limit, b);
    MatchUnfold(q, taker, id, limit, a + b);
    if a == 0 || q == [] || !Crosses(taker, limit, q[0].px) {
      NothingThenAll(q, taker, id1, id2, id, limit, a, b, maker);
    } else if q[0].qty <= a {
      MatchSplits(q[1..], taker, id1, id2, id, limit, a - q[0].qty, b, maker);
      MatchSplitsAfterMaker(q, taker, id1, id2, id, limit, a, b, maker);
    } else {
      MatchSplitsMaker(q, taker, id1, id2, id, limit, a, b, maker);
    }
  }

  /** Both start by using up the same first maker. */
  lemma MatchSplitsAfterMaker(q: seq<Resting>, taker: Side, id1: nat, id2: nat, id: nat, limit: nat, a: nat, b: nat,
                              maker: nat)
    requires q != [] && Crosses(taker, limit, q[0].px) && 0 < q[0].qty <= a
    requires var t1 := Match(q[1..], taker, id1, limit, a - q[0].qty);
             Splits(t1, Match(t1.left, taker, id2, limit, b), Match(q[1..], taker, id, limit, a - q[0].qty + b), maker)
    ensures var m1 := Match(q, taker, id1, limit, a);
            Splits(m1, Match(m1.left, taker, id2, limit, b), Match(q, taker, id, limit, a + b), maker)
  {
    var t1 := Match(q[1..], taker, id1, limit, a - q[0].qty);
    var t := Match(q[1..], taker, id, limit, a - q[0].qty + b);
    var m1 := Match(q, taker, id1, limit, a);
    var m := Match(q, taker, id, limit, a + b);
    assert m1 == After([Exec(q[0].id, id1, q[0].px, q[0].qty)], t1);
    assert m == After([Exec(q[0].id, id, q[0].px, q[0].qty)], t);
    FilledFromCons(Exec(q[0].id, id1, q[0].px, q[0].qty), t1.fills, maker);
    FilledFromCons(Exec(q[0].id, id, q[0].px, q[0].qty), t.fills, maker);
  }

  /** The split falls inside the first maker. */
  lemma MatchSplitsMaker(q: seq<Resting>, taker: Side, id1: nat, id2: nat, id: nat, limit: nat, a: nat, b: nat,
                         maker: nat)
    requires q != [] && Crosses(taker, limit, q[0].px) && 0 < a < q[0].qty
    ensures var m1 := Match(q, taker, id1, limit, a);
            Splits(m1, Match(m1.left, taker, id2, limit, b), Match(q, taker, id, limit, a + b), maker)
  {
    var h := q[0].(qty := q[0].qty - a);
    var left := [h] + q[1..];
    assert left[1..] == q[1..] && left[0] == h;
    assert Match(q, taker, id1, limit, a) == Matched([Exec(q[0].id, id1, q[0].px, a)], left, 0);
    FilledFromCons(Exec(q[0].id, id1, q[0].px, a), [], maker);
    if h.qty <= b {
      FrontGone(q, h, taker, id2, id, limit, a, b, maker);
    } else if b > 0 {
      FilledFromCons(Exec(q[0].id, id2, q[0].px, b), [], maker);
      FilledFromCons(Exec(q[0].id, id, q[0].px, a + b), [], maker);
    }
  }

  /** The second part uses up what the first left of the first maker. */
  lemma FrontGone(q: seq<Resting>, h: Resting, taker: Side, id2: nat, id: nat, limit: nat, a: nat, b: nat, maker: nat)
    requires q != [] && Crosses(taker, limit, q[0].px) && 0 < a < q[0].qty && h == q[0].(qty := q[0].qty - a)
             && h.qty <= b
    ensures var m2 := Match([h] + q[1..], taker, id2, limit, b);
            var m := Match(q, taker, id, limit, a + b);
            && m.left == m2.left && m.remaining == m2.remaining
            && FilledFrom(m.fills, maker) == (if h.id == maker then a else 0) + FilledFrom(m2.fills, maker)
  {
    assert ([h] + q[1..])[1..] == q[1..];
    var t2 := Match(q[1..], taker, id2, limit, b - h.qty);
    var t := Match(q[1..], taker, id, limit, b - h.qty);
    MatchTakerId(q[1..], taker, id, id2, limit, b - h.qty, maker);
    FilledFromCons(Exec(q[0].id, id2, q[0].px, h.qty), t2.fills, maker);
    FilledFromCons(Exec(q[0].id, id, q[0].px, q[0].qty), t.fills, maker);
  }

  lemma FilledFromCons(f: Exec, fills: seq<Exec>, maker: nat)
    ensures FilledFrom([f] + fills, maker) == (if f.makerId == maker then f.qty else 0) + FilledFrom(fills, maker)
    ensures fills == [] ==> FilledFrom([f], maker) == if f.makerId == maker then f.qty else 0
  {
    assert ([f] + fills)[1..] == fills;
  }

  /** The taker's own id only shows in the fills' takerId. */
  lemma {:induction false} MatchTakerId(q: seq<Resting>, taker: Side, id1: nat, id2: nat, limit: nat, qty: nat,
                                        maker: nat)
    ensures var m1 := Match(q, taker, id1, limit, qty);
            var m2 := Match(q, taker, id2, limit, qty);
            && m1.left == m2.left && m1.remaining == m2.remaining
            && FilledFrom(m1.fills, maker) == FilledFrom(m2.fills, maker)
  {
    hide Match, FilledFrom;
    MatchUnfold(q, taker, id1, limit, qty);
    MatchUnfold(q, taker, id2, limit, qty);
    if qty != 0 && q != [] && Crosses(taker, limit, q[0].px) {
      if q[0].qty <= qty {
        MatchTakerId(q[1..], taker, id1, id2, limit, qty - q[0].qty, maker);
        FilledFromCons(Exec(q[0].id, id1, q[0].px, q[0].qty), Match(q[1..], taker, id1, limit, qty - q[0].qty).fills,
                       maker);
        FilledFromCons(Exec(q[0].id, id2, q[0].px, q[0].qty), Match(q[1..], taker, id2, limit, qty - q[0].qty).fills,
                       maker);
      } else {
        FilledFromCons(Exec(q[0].id, id1, q[0].px, qty), [], maker);
        FilledFromCons(Exec(q[0].id, id2, q[0].px, qty), [], maker);
      }
    }
  }
}
