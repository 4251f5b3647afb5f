/**
 The logger built on the ring: a producer that offers every record once, dropping or retrying when
 the ring is full, and then sets a flag; a logger that pops until it has seen the flag and an empty
 ring. Every step of the ring is its own step here, and the flag may be read stale.
 */
module LoggerSteps {
  import opened Bits
  import opened SpscRing
  import opened SpscSteps

  datatype Mode = Popping | CheckDone | CheckEmpty | Exited

  /** i is the next record to offer. accepted are the indices of the pushed records, flagKnows how
      many publications came before the flag was set. */
  datatype Log<T> = Log(ring: Sys<T>, recs: seq<T>, drop: bool, i: nat, accepted: seq<nat>, dropped: nat,
                        done: bool, flagKnows: nat, mode: Mode, logged: seq<T>)

  /** Produce and Consume are steps inside try_push and try_pop. MissDone is a load of the flag that
      returns false, whether the flag is unset or the load is stale; SeeDone is one that returns
      true; LoadSize(n) reads the two indices for empty(). */
  datatype LogAction<T> =
    | Produce(a: Action<T>) | Consume(a: Action<T>) | SetDone | MissDone | SeeDone | LoadSize(n: nat)

  function Start<T>(bits: nat, recs: seq<T>, drop: bool): Log<T> {
    Log(Init(bits), recs, drop, 0, [], 0, false, 0, Popping, [])
  }

  ghost predicate CanProduce<T>(s: Log<T>, a: Action<T>) {
    && ProducersMove(a) && Enabled(s.ring, a) && !s.done
    && (a.PLoadWrite? ==> s.i < |s.recs| && a.v == s.recs[s.i])
  }

  ghost predicate CanConsume<T>(s: Log<T>, a: Action<T>) {
    ConsumersMove(a) && Enabled(s.ring, a) && s.mode == Popping
  }

  ghost predicate LogEnabled<T>(s: Log<T>, a: LogAction<T>) {
    match a
    case Produce(r) => CanProduce(s, r)
    case Consume(r) => CanConsume(s, r)
    case SetDone => !s.done && s.ring.prod.PIdle? && s.i == |s.recs|
    case MissDone => s.mode == CheckDone
    case SeeDone => s.mode == CheckDone && s.done
    case LoadSize(n) =>
      && s.mode == CheckEmpty && s.ring.seenWrite <= n < |s.ring.writeLog| && s.ring.readLog != []
      && s.ring.writeLog[n] < WORD && s.ring.readLog[|s.ring.readLog| - 1] < WORD
  }

  function LogNext<T>(s: Log<T>, a: LogAction<T>): Log<T>
    requires LogEnabled(s, a)
  {
    match a
    case Produce(r) =>
      var s' := s.(ring := Next(s.ring, r));
      if r.PPublish? then s'.(accepted := s.accepted + [s.i], i := s.i + 1)
      else if r.PRefuse? && s.drop then s'.(dropped := s.dropped + 1, i := s.i + 1)
      else s'
    case Consume(r) =>
      var s' := s.(ring := Next(s.ring, r));
      if r.CEmpty? then s'.(mode := CheckDone)
      else if r.CRelease? then s'.(logged := s.logged + [s.ring.cons.out])
      else s'
    case SetDone => s.(done := true, flagKnows := |s.ring.writeLog| - if s.ring.writeLog == [] then 0 else 1)
    case MissDone => s.(mode := Popping)
    case SeeDone =>
      var n := if s.flagKnows > s.ring.seenWrite then s.flagKnows else s.ring.seenWrite;
      s.(mode := CheckEmpty, ring := s.ring.(seenWrite := n, known := if n > s.ring.known then n else s.ring.known))
    case LoadSize(n) =>
      var empty := WrapSub(s.ring.writeLog[n], s.ring.readLog[|s.ring.readLog| - 1]) == 0;
      s.(mode := if empty then Exited else Popping, ring := s.ring.(seenWrite := n))
  }

  /** The accepted records are a subsequence of the offered ones, and nothing is lost uncounted. */
  ghost predicate Accounted<T>(s: Log<T>) {
    && s.i <= |s.recs|
    && |s.accepted| == |s.ring.pushed|
    && |s.accepted| + s.dropped == s.i
    && (!s.drop ==> s.dropped == 0)
    && (forall k :: 0 <= k < |s.accepted| ==> s.accepted[k] < s.i)
    && (forall j, k :: 0 <= j < k < |s.accepted| ==> s.accepted[j] < s.accepted[k])
    && (forall k :: 0 <= k < |s.accepted| && k < |s.ring.pushed| && s.accepted[k] < |s.recs| ==>
          s.ring.pushed[k] == s.recs[s.accepted[k]])
  }

  ghost predicate LogInv<T>(s: Log<T>) {
    && Inv(s.ring)
    && Accounted(s)
    && (!s.ring.prod.PIdle? ==> s.i < |s.recs| && !s.done && s.ring.prod.v == s.recs[s.i])
    && (s.done ==> s.i == |s.recs| && s.flagKnows == |s.ring.pushed|)
    && s.logged == s.ring.popped
    && (s.mode != Popping ==> s.ring.cons.CIdle?)
    && (s.mode == CheckEmpty ==> s.done && s.ring.seenWrite == |s.ring.pushed|)
    && (s.mode == Exited ==> s.done && |s.ring.popped| == |s.ring.pushed|)
  }

  lemma StartInv<T>(bits: nat, recs: seq<T>, drop: bool)
    requires bits <= 63
    ensures LogInv(Start(bits, recs, drop))
  {
    InitInv<T>(bits);
  }

  lemma ProduceInv<T>(s: Log<T>, a: Action<T>)
    requires LogInv(s) && CanProduce(s, a)
    ensures LogInv(LogNext(s, Produce(a)))
  {
    hide Inv;
    StepInv(s.ring, a);
    InvFacts(s.ring);
    InvFacts(Next(s.ring, a));
    var s' := LogNext(s, Produce(a));
    assert Accounted(s');
  }

  /** The parts of the ring's invariant the protocol uses. */
  lemma InvFacts<T>(s: Sys<T>)
    requires Inv(s)
    ensures |s.writeLog| == |s.pushed| + 1
    ensures |s.popped| <= s.seenWrite <= |s.pushed| && s.popped <= s.pushed
  {
  }

  lemma ConsumeInv<T>(s: Log<T>, a: Action<T>)
    requires LogInv(s) && CanConsume(s, a)
    ensures LogInv(LogNext(s, Consume(a)))
  {
    hide Inv;
    StepInv(s.ring, a);
    assert Accounted(LogNext(s, Consume(a)));
  }

  lemma FlagInv<T>(s: Log<T>, a: LogAction<T>)
    requires LogInv(s) && LogEnabled(s, a) && !a.Produce? && !a.Consume?
    ensures LogInv(LogNext(s, a))
  {
    var s' := LogNext(s, a);
    assert Accounted(s');
    if a.LoadSize? {
      RingArithmetic(|s.ring.pushed|, |s.ring.popped|, s.ring.bits);
    }
  }

  lemma LogStepInv<T>(s: Log<T>, a: LogAction<T>)
    requires LogInv(s) && LogEnabled(s, a)
    ensures LogInv(LogNext(s, a))
  {
    hide LogInv, LogNext;
    match a
    case Produce(r) => ProduceInv(s, r);
    case Consume(r) => ConsumeInv(s, r);
    case _ => FlagInv(s, a);
  }

  ghost predicate LogRuns<T>(s: Log<T>, actions: seq<LogAction<T>>, s': Log<T>)
    decreases |actions|
  {
    if actions == [] then s' == s
    else LogEnabled(s, actions[0]) && LogRuns(LogNext(s, actions[0]), actions[1..], s')
  }

  lemma {:induction false} LogRunInv<T>(s: Log<T>, actions: seq<LogAction<T>>, s': Log<T>)
    requires LogInv(s) && LogRuns(s, actions, s')
    ensures LogInv(s') && s'.recs == s.recs && s'.drop == s.drop
    decreases |actions|
  {
    if actions != [] {
      LogStepInv(s, actions[0]);
      LogRunInv(LogNext(s, actions[0]), actions[1..], s');
    }
  }

  /** Shutdown: when the logger has exited, the producer is finished and the ring is empty. With
      dropping on, logged plus dropped is the number of records, and what was logged is exactly the
      accepted records, in order; with dropping off, every record was logged, in order. */
  lemma Shutdown<T>(bits: nat, recs: seq<T>, drop: bool, actions: seq<LogAction<T>>, s: Log<T>)
    requires bits <= 63 && LogRuns(Start(bits, recs, drop), actions, s) && s.mode == Exited
    ensures s.done && s.ring.popped == s.ring.pushed && s.logged == s.ring.pushed
    ensures |s.logged| + s.dropped == |recs|
    ensures |s.accepted| == |s.logged|
    ensures forall k :: 0 <= k < |s.logged| ==> s.accepted[k] < |recs| && s.logged[k] == recs[s.accepted[k]]
    ensures forall j, k :: 0 <= j < k < |s.accepted| ==> s.accepted[j] < s.accepted[k]
    ensures !drop ==> s.logged == recs
  {
    StartInv(bits, recs, drop);
    LogRunInv(Start(bits, recs, drop), actions, s);
    hide Inv;
    InvFacts(s.ring);
    if !drop {
      AllInOrder(s.accepted, |recs|);
    }
  }

  /** Increasing indices below their own count are all of them. */
  lemma {:induction false} AllInOrder(a: seq<nat>, n: nat)
    requires |a| == n
    requires forall k :: 0 <= k < |a| ==> a[k] < n
    requires forall j, k :: 0 <= j < k < |a| ==> a[j] < a[k]
    ensures forall k :: 0 <= k < |a| ==> a[k] == k
  {
    if n > 0 {
      var b := a[..n - 1];
      assert forall k :: 0 <= k < n - 1 ==> b[k] < a[n - 1] <= n - 1;
      AllInOrder(b, n - 1);
      assert n > 1 ==> a[n - 2] == b[n - 2] == n - 2;
      assert forall k :: 0 <= k < n - 1 ==> a[k] == b[k];
    }
  }

  // ---------- the exit can be reached ----------

  ghost predicate LogReaches<T(!new)>(s: Log<T>, s': Log<T>) {
    exists actions :: LogRuns(s, actions, s')
  }

  lemma {:induction false} LogRunsThrough<T>(s: Log<T>, a: seq<LogAction<T>>, s1: Log<T>, b: seq<LogAction<T>>,
                                             s2: Log<T>)
    requires LogRuns(s, a, s1) && LogRuns(s1, b, s2)
    ensures LogRuns(s, a + b, s2)
    decreases |a|
  {
    hide LogEnabled, LogNext;
    if a == [] {
      assert a + b == b;
    } else {
      LogRunsThrough(LogNext(s, a[0]), a[1..], s1, b, s2);
      assert (a + b)[1..] == a[1..] + b;
    }
  }

  lemma ReachesThrough<T(!new)>(s: Log<T>, s1: Log<T>, s2: Log<T>)
    requires LogReaches(s, s1) && LogReaches(s1, s2)
    ensures LogReaches(s, s2)
  {
    hide LogRuns;
    var a :| LogRuns(s, a, s1);
    var b :| LogRuns(s1, b, s2);
    LogRunsThrough(s, a, s1, b, s2);
  }

  lemma ReachesOne<T(!new)>(s: Log<T>, a: LogAction<T>)
    requires LogEnabled(s, a)
    ensures LogReaches(s, LogNext(s, a))
  {
    hide LogEnabled, LogNext;
    assert [a][1..] == [];
    assert LogRuns(s, [a], LogNext(s, a));
  }

  lemma ReachesNow<T(!new)>(s: Log<T>)
    ensures LogReaches(s, s)
  {
    assert LogRuns(s, [], s);
  }

  lemma ReachedInv<T(!new)>(s: Log<T>, s': Log<T>)
    requires LogInv(s) && LogReaches(s, s')
    ensures LogInv(s')
  {
    hide LogInv, LogRuns;
    var a :| LogRuns(s, a, s');
    LogRunInv(s, a, s');
  }

  /** Steps inside a push or a pop that do not finish it. */
  ghost predicate Inside<T>(s: Log<T>, a: Action<T>) {
    || (!s.done && (a.PLoadRead? || a.PStoreSlot? || (a.PLoadWrite? && s.i < |s.recs| && a.v == s.recs[s.i])))
    || (s.mode == Popping && (a.CLoadRead? || a.CLoadWrite? || a.CTake?))
  }

  /** The ring's own runs are runs of the logger. */
  lemma {:induction false} RingRuns<T(!new)>(s: Log<T>, actions: seq<Action<T>>, ring: Sys<T>)
    requires RunsTo(s.ring, actions, ring) && forall a :: a in actions ==> Inside(s, a)
    ensures LogReaches(s, s.(ring := ring))
    decreases |actions|
  {
    hide Enabled, Next, LogReaches;
    if actions == [] {
      ReachesNow(s);
    } else {
      var a := actions[0];
      assert Inside(s, a);
      var s1 := s.(ring := Next(s.ring, a));
      ReachesOne(s, if ProducersMove(a) then Produce(a) else Consume(a));
      forall b | b in actions[1..]
        ensures Inside(s1, b)
      {
        assert Inside(s, b);
      }
      RingRuns(s1, actions[1..], ring);
      ReachesThrough(s, s1, s.(ring := ring));
    }
  }

  /** Between two records, everything logged. */
  ghost predicate Quiet<T>(s: Log<T>) {
    && LogInv(s) && s.ring.prod.PIdle? && s.ring.cons.CIdle? && s.mode == Popping
    && !s.done && s.dropped == 0 && s.ring.popped == s.ring.pushed
  }

  /** The next record is pushed. */
  lemma OfferOne<T(!new)>(s: Log<T>) returns (s': Log<T>)
    requires Quiet(s) && s.i < |s.recs|
    ensures LogReaches(s, s') && LogInv(s')
    ensures s'.ring.pushed == s.ring.pushed + [s.recs[s.i]] && s'.ring.popped == s.ring.popped
    ensures s'.ring.prod.PIdle? && s'.ring.cons.CIdle?
    ensures s' == s.(ring := s'.ring, accepted := s'.accepted, i := s.i + 1)
  {
    hide LogReaches, Inv, Readable;
    var v := s.recs[s.i];
    var r2 := PushLoads(s.ring, v);
    RingRuns(s, [PLoadWrite(v), PLoadRead(|s.ring.readLog| - 1)], r2);
    RefusalsAreHonest(r2);
    var s2 := s.(ring := r2);
    var s3 := LogNext(s2, Produce(PStoreSlot));
    ReachesOne(s2, Produce(PStoreSlot));
    ReachesOne(s3, Produce(PPublish));
    s' := LogNext(s3, Produce(PPublish));
    ReachesThrough(s, s2, s3);
    ReachesThrough(s, s3, s');
    ReachedInv(s, s');
  }

  /** The one item in the ring is popped and logged. */
  lemma LogOne<T(!new)>(s: Log<T>) returns (s': Log<T>)
    requires LogInv(s) && s.ring.prod.PIdle? && s.ring.cons.CIdle? && s.mode == Popping
    requires !s.done && s.dropped == 0 && |s.ring.popped| + 1 == |s.ring.pushed|
    ensures LogReaches(s, s') && Quiet(s')
    ensures s' == s.(ring := s'.ring, logged := s'.logged) && s'.ring.pushed == s.ring.pushed
  {
    hide LogReaches, Inv, Readable;
    var r2 := PopLoads(s.ring);
    RingRuns(s, [CLoadRead, CLoadWrite(|s.ring.writeLog| - 1)], r2);
    RefusalsAreHonest(r2);
    var s2 := s.(ring := r2);
    var take := CTake(|s.ring.popped|);
    var s3 := LogNext(s2, Consume(take));
    ReachesOne(s2, Consume(take));
    ReachesOne(s3, Consume(CRelease));
    s' := LogNext(s3, Consume(CRelease));
    ReachesThrough(s, s2, s3);
    ReachesThrough(s, s3, s');
    ReachedInv(s, s');
    InvFacts(s'.ring);
  }

  lemma {:induction false} LogRest<T(!new)>(s: Log<T>) returns (s': Log<T>)
    requires Quiet(s)
    ensures LogReaches(s, s') && Quiet(s') && s'.i == |s.recs| && s'.recs == s.recs && s'.drop == s.drop
    decreases |s.recs| - s.i
  {
    hide LogReaches, Inv;
    if s.i >= |s.recs| {
      s' := s;
      ReachesNow(s);
    } else {
      var s1 := OfferOne(s);
      var s2 := LogOne(s1);
      s' := LogRest(s2);
      ReachesThrough(s, s1, s2);
      ReachesThrough(s, s2, s');
    }
  }

  /** The flag is set, the logger finds the ring empty and leaves. */
  lemma LeaveQuiet<T(!new)>(s: Log<T>) returns (s': Log<T>)
    requires Quiet(s) && s.i == |s.recs|
    ensures LogReaches(s, s') && s'.mode == Exited && s'.dropped == 0 && s'.logged == s.logged
  {
    hide LogReaches, Inv, Readable;
    var s1 := LogNext(s, SetDone);
    ReachesOne(s, SetDone);
    var r2 := PopLoads(s1.ring);
    RingRuns(s1, [CLoadRead, CLoadWrite(|s1.ring.writeLog| - 1)], r2);
    RefusalsAreHonest(r2);
    var s2 := s1.(ring := r2);
    var s3 := LogNext(s2, Consume(CEmpty));
    ReachesOne(s2, Consume(CEmpty));
    var s4 := LogNext(s3, SeeDone);
    ReachesOne(s3, SeeDone);
    ReachesThrough(s, s1, s2);
    ReachesThrough(s, s2, s3);
    ReachesThrough(s, s3, s4);
    ReachedInv(s, s4);
    s' := Leave(s4);
    ReachesThrough(s, s4, s');
  }

  lemma Leave<T(!new)>(s: Log<T>) returns (s': Log<T>)
    requires LogInv(s) && s.mode == CheckEmpty && |s.ring.popped| == |s.ring.pushed|
    ensures LogReaches(s, s') && s'.mode == Exited && s'.dropped == s.dropped && s'.logged == s.logged
  {
    hide LogReaches, Readable;
    WrapSucc(|s.ring.pushed|);
    RingArithmetic(|s.ring.pushed|, |s.ring.popped|, s.ring.bits);
    var a: LogAction<T> := LoadSize(|s.ring.pushed|);
    s' := LogNext(s, a);
    ReachesOne(s, a);
  }

  /** Whatever the records and the capacity, there is a run in which every one of them is logged and the logger
      exits. */
  lemma ExitHappens<T(!new)>(bits: nat, recs: seq<T>, drop: bool)
    requires bits <= 63
    ensures exists s :: LogReaches(Start(bits, recs, drop), s) && s.mode == Exited && s.logged == recs && s.dropped == 0
  {
    StartInv(bits, recs, drop);
    hide LogReaches, Inv;
    var s0 := Start(bits, recs, drop);
    var s1 := LogRest(s0);
    var s2 := LeaveQuiet(s1);
    ReachesThrough(s0, s1, s2);
    ExitLogsAll(s0, s2);
  }

  /** At an exit without drops everything was logged. */
  lemma ExitLogsAll<T(!new)>(s0: Log<T>, s: Log<T>)
    requires LogReaches(s0, s) && s0 == Start(s0.ring.bits, s0.recs, s0.drop) && s0.ring.bits <= 63
    requires s.mode == Exited && s.dropped == 0
    ensures s.logged == s0.recs
  {
    var actions :| LogRuns(s0, actions, s);
    Shutdown(s0.ring.bits, s0.recs, s0.drop, actions, s);
    AllInOrder(s.accepted, |s0.recs|);
  }
}
