/** How far a running match has come, and what it has written into the caller's buffer. */
module MatchProgress {
  import opened Wrappers
  import opened LobTypes
  import opened PriceTime
  import opened Trading

  /** A match of qty0 against q0 has so far produced `fills`, and continues as a match of rem
      against q; the same for the slots it gives back. */
  ghost predicate Progress(q0: seq<Resting>, stack0: seq<nat>, qty0: nat, fills: seq<Exec>,
                           q: seq<Resting>, stack: seq<nat>, rem: nat,
                           taker: Side, takerId: nat, limit: nat) {
    && Match(q0, taker, takerId, limit, qty0) == After(fills, Match(q, taker, takerId, limit, rem))
    && stack0 + Freed(q0, taker, takerId, limit, qty0) == stack + Freed(q, taker, takerId, limit, rem)
  }

  lemma ProgressStart(q: seq<Resting>, stack: seq<nat>, qty: nat, taker: Side, takerId: nat, limit: nat)
    ensures Progress(q, stack, qty, [], q, stack, qty, taker, takerId, limit)
  {
    assert [] + Match(q, taker, takerId, limit, qty).fills == Match(q, taker, takerId, limit, qty).fills;
  }

  lemma ProgressTrans(q0: seq<Resting>, stack0: seq<nat>, qty0: nat, f1: seq<Exec>,
                      q1: seq<Resting>, stack1: seq<nat>, qty1: nat, f2: seq<Exec>,
                      q2: seq<Resting>, stack2: seq<nat>, qty2: nat,
                      taker: Side, takerId: nat, limit: nat)
    requires Progress(q0, stack0, qty0, f1, q1, stack1, qty1, taker, takerId, limit)
    requires Progress(q1, stack1, qty1, f2, q2, stack2, qty2, taker, takerId, limit)
    ensures Progress(q0, stack0, qty0, f1 + f2, q2, stack2, qty2, taker, takerId, limit)
  {
    var m := Match(q2, taker, takerId, limit, qty2);
    assert f1 + (f2 + m.fills) == f1 + f2 + m.fills;
  }

  /** One fill of the front order. */
  lemma ProgressStep(q: seq<Resting>, stack: seq<nat>, rem: nat, taker: Side, takerId: nat, limit: nat)
    requires rem > 0 && q != [] && q[0].qty > 0 && Crosses(taker, limit, q[0].px)
    ensures var take := Min(q[0].qty, rem);
            Progress(q, stack, rem, [Exec(q[0].id, takerId, q[0].px, take)],
                     if take == q[0].qty then q[1..] else q[0 := q[0].(qty := q[0].qty - take)],
                     if take == q[0].qty then stack + [q[0].id] else stack,
                     rem - take, taker, takerId, limit)
  {
    var take := Min(q[0].qty, rem);
    if take == q[0].qty {
      var rest := Freed(q[1..], taker, takerId, limit, rem - take);
      assert stack + ([q[0].id] + rest) == stack + [q[0].id] + rest;
    } else {
      var q' := q[0 := q[0].(qty := q[0].qty - take)];
      assert q' == [q[0].(qty := q[0].qty - take)] + q[1..];
      assert [Exec(q[0].id, takerId, q[0].px, take)] + [] == [Exec(q[0].id, takerId, q[0].px, take)];
    }
  }

  lemma ProgressDone(q0: seq<Resting>, stack0: seq<nat>, qty0: nat, fills: seq<Exec>,
                     q: seq<Resting>, stack: seq<nat>, rem: nat,
                     taker: Side, takerId: nat, limit: nat)
    requires Progress(q0, stack0, qty0, fills, q, stack, rem, taker, takerId, limit)
    requires rem == 0 || q == [] || !Crosses(taker, limit, q[0].px)
    ensures Match(q0, taker, takerId, limit, qty0) == Matched(fills, q, rem)
    ensures stack == stack0 + Freed(q0, taker, takerId, limit, qty0)
  {
    assert fills + [] == fills;
    assert stack + [] == stack;
  }

  /** The contents of an optional fill buffer. */
  ghost function Buffer(execs: array?<Exec>): seq<Exec>
    reads execs
  {
    if execs == null then [] else execs[..]
  }

  /** The buffer after `fills` were offered to it, starting at position n0 and never past cap. */
  ghost predicate Recorded(buf0: seq<Exec>, buf: seq<Exec>, cap: nat, n0: nat, fills: seq<Exec>) {
    && |buf| == |buf0|
    && forall i :: 0 <= i < |buf| ==> buf[i] == if n0 <= i < n0 + |fills| && i < cap then fills[i - n0] else buf0[i]
  }

  lemma RecordedStart(buf: seq<Exec>, cap: nat, n: nat)
    ensures Recorded(buf, buf, cap, n, [])
  {
  }

  lemma RecordedTrans(buf0: seq<Exec>, buf1: seq<Exec>, buf2: seq<Exec>, cap: nat, n0: nat, f1: seq<Exec>,
                      f2: seq<Exec>)
    requires Recorded(buf0, buf1, cap, n0, f1) && Recorded(buf1, buf2, cap, n0 + |f1|, f2)
    ensures Recorded(buf0, buf2, cap, n0, f1 + f2)
  {
  }
}
