/**
 The ring below call granularity. One producer and one consumer each run their calls load by load
 and store by store, in any interleaving. Each side knows its own index exactly; its view of the
 other side's index may be stale, but never runs backwards (coherence, [intro.races] in section
 6.9.2.1 of ISO/IEC 14882:2020). An acquire load that sees a published index also knows the slot
 writes made before it was published (section 31.4, [atomics.order]); a slot read may return any
 write to that slot that this knowledge does not rule out.
 */
module SpscSteps {
  import opened Bits
  import opened SpscRing

  /** Where the producer is inside try_push: it has loaded write_, then read_, then written the slot. */
  datatype Producer<T> = PIdle | PWrite(v: T, w: nat) | PRead(v: T, w: nat, r: nat) | PStored(v: T, w: nat)

  /** Where the consumer is inside try_pop: it has loaded read_, then write_, then the slot. */
  datatype Consumer<T> = CIdle | CRead(r: nat) | CWrite(r: nat, w: nat) | CTaken(r: nat, out: T)

  /** A slot write, with the release of the read index the producer had acquired when it made it. */
  datatype Store<T> = Store(slot: nat, value: T, since: nat)

  /** A slot read, with how many slot writes the consumer knew of. */
  datatype Take = Take(slot: nat, known: nat)

  /** writeLog and readLog are the values the two 64-bit atomics have had, in order; knows[n] is how
      many slot writes came before the n-th value of write_. seenRead and seenWrite say which of them
      the other side has loaded last. pushed and popped are the completed calls. */
  datatype Sys<T> = Sys(bits: nat, stores: seq<Store<T>>, takes: seq<Take>,
                        writeLog: seq<nat>, knows: seq<nat>, readLog: seq<nat>,
                        prod: Producer<T>, cons: Consumer<T>,
                        seenRead: nat, seenWrite: nat, known: nat,
                        pushed: seq<T>, popped: seq<T>)
  {
    function Cap(): nat { Pow2(bits) }
  }

  datatype Action<T> =
    | PLoadWrite(v: T) | PLoadRead(n: nat) | PRefuse | PStoreSlot | PPublish
    | CLoadRead | CLoadWrite(n: nat) | CEmpty | CTake(i: nat) | CRelease

  function Init<T>(bits: nat): Sys<T> {
    Sys(bits, [], [], [0], [0], [0], PIdle, CIdle, 0, 0, 0, [], [])
  }

  /** The value written by the i-th slot write may be what a read of this slot returns. */
  ghost predicate Readable<T>(s: Sys<T>, slot: nat, i: nat) {
    && i < |s.stores| && s.stores[i].slot == slot
    && forall j :: i < j < s.known && j < |s.stores| ==> s.stores[j].slot != slot
  }

  ghost predicate Enabled<T>(s: Sys<T>, a: Action<T>) {
    match a
    case PLoadWrite(v) => s.prod.PIdle? && s.writeLog != []
    case PLoadRead(n) => s.prod.PWrite? && s.seenRead <= n < |s.readLog|
    case PRefuse => s.prod.PRead? && s.prod.w < WORD && s.prod.r < WORD && WrapSub(s.prod.w, s.prod.r) >= s.Cap()
    case PStoreSlot => s.prod.PRead? && s.prod.w < WORD && s.prod.r < WORD && WrapSub(s.prod.w, s.prod.r) < s.Cap()
    case PPublish => s.prod.PStored?
    case CLoadRead => s.cons.CIdle? && s.readLog != []
    case CLoadWrite(n) => s.cons.CRead? && s.seenWrite <= n < |s.writeLog| && n < |s.knows|
    case CEmpty => s.cons.CWrite? && s.cons.r == s.cons.w
    case CTake(i) => s.cons.CWrite? && s.cons.r != s.cons.w && Readable(s, And(s.cons.r, s.Cap() - 1), i)
    case CRelease => s.cons.CTaken?
  }

  function Next<T>(s: Sys<T>, a: Action<T>): (s': Sys<T>)
    requires Enabled(s, a)
  {
    match a
    case PLoadWrite(v) => s.(prod := PWrite(v, s.writeLog[|s.writeLog| - 1]))
    case PLoadRead(n) => s.(prod := PRead(s.prod.v, s.prod.w, s.readLog[n]), seenRead := n)
    case PRefuse => s.(prod := PIdle)
    case PStoreSlot =>
      s.(prod := PStored(s.prod.v, s.prod.w),
         stores := s.stores + [Store(And(s.prod.w, s.Cap() - 1), s.prod.v, s.seenRead)])
    case PPublish =>
      s.(prod := PIdle, writeLog := s.writeLog + [(s.prod.w + 1) % WORD], knows := s.knows + [|s.stores|],
         pushed := s.pushed + [s.prod.v])
    case CLoadRead => s.(cons := CRead(s.readLog[|s.readLog| - 1]))
    case CLoadWrite(n) => s.(cons := CWrite(s.cons.r, s.writeLog[n]), seenWrite := n, known := s.knows[n])
    case CEmpty => s.(cons := CIdle)
    case CTake(i) =>
      s.(cons := CTaken(s.cons.r, s.stores[i].value), takes := s.takes + [Take(And(s.cons.r, s.Cap() - 1), s.known)])
    case CRelease =>
      s.(cons := CIdle, readLog := s.readLog + [(s.cons.r + 1) % WORD], popped := s.popped + [s.cons.out])
  }

  predicate ProducersMove<T>(a: Action<T>) {
    a.PLoadWrite? || a.PLoadRead? || a.PRefuse? || a.PStoreSlot? || a.PPublish?
  }

  predicate ConsumersMove<T>(a: Action<T>) {
    a.CLoadRead? || a.CLoadWrite? || a.CEmpty? || a.CTake? || a.CRelease?
  }

  // ---------- the invariant ----------

  ghost predicate LogsOk<T>(s: Sys<T>) {
    && s.bits <= 63
    && |s.writeLog| == |s.knows| == |s.pushed| + 1 && |s.readLog| == |s.popped| + 1
    && (forall n :: 0 <= n < |s.writeLog| ==> s.writeLog[n] == Wrap(n))
    && (forall n :: 0 <= n < |s.knows| ==> s.knows[n] == n)
    && (forall n :: 0 <= n < |s.readLog| ==> s.readLog[n] == Wrap(n))
  }

  /** seenRead <= popped <= seenWrite <= pushed <= seenRead + cap */
  ghost predicate CountsOk<T>(s: Sys<T>) {
    && s.seenRead <= |s.popped| <= s.seenWrite <= |s.pushed| && s.known == s.seenWrite
    && |s.stores| <= s.seenRead + s.Cap()
    && |s.stores| == |s.pushed| + (if s.prod.PStored? then 1 else 0)
    && |s.takes| == |s.popped| + (if s.cons.CTaken? then 1 else 0)
  }

  ghost predicate StoresOk<T>(s: Sys<T>) {
    && (forall i :: 0 <= i < |s.stores| ==> s.stores[i].slot == i % s.Cap() && i < s.stores[i].since + s.Cap())
    && (forall i :: 0 <= i < |s.pushed| && i < |s.stores| ==> s.stores[i].value == s.pushed[i])
    && (forall k :: 0 <= k < |s.takes| ==> s.takes[k].slot == k % s.Cap() && k < s.takes[k].known)
    && s.popped <= s.pushed
  }

  ghost predicate RegistersOk<T>(s: Sys<T>) {
    && (match s.prod
        case PIdle => true
        case PWrite(v, w) => w == Wrap(|s.pushed|)
        case PRead(v, w, r) => w == Wrap(|s.pushed|) && r == Wrap(s.seenRead)
        case PStored(v, w) => w == Wrap(|s.pushed|) && |s.stores| > |s.pushed| && s.stores[|s.pushed|].value == v)
    && (match s.cons
        case CIdle => true
        case CRead(r) => r == Wrap(|s.popped|)
        case CWrite(r, w) => r == Wrap(|s.popped|) && w == Wrap(s.seenWrite)
        case CTaken(r, out) =>
          && r == Wrap(|s.popped|) && |s.popped| < s.seenWrite && |s.popped| < |s.pushed|
          && out == s.pushed[|s.popped|])
  }

  ghost predicate Inv<T>(s: Sys<T>) {
    LogsOk(s) && CountsOk(s) && StoresOk(s) && RegistersOk(s)
  }

  lemma InitInv<T>(bits: nat)
    requires bits <= 63
    ensures Inv(Init<T>(bits))
  {
  }

  /** Only the wrapped item itself can be read from its slot. */
  lemma OnlyTheItem<T>(s: Sys<T>, i: nat)
    requires Inv(s) && s.cons.CWrite? && s.cons.r != s.cons.w
    requires Readable(s, And(s.cons.r, s.Cap() - 1), i)
    ensures i == |s.popped| < s.seenWrite
    ensures And(s.cons.r, s.Cap() - 1) == |s.popped| % s.Cap()
  {
    var k := |s.popped|;
    RingArithmetic(s.seenWrite, k, s.bits);
    assert k < s.seenWrite;
    assert s.stores[k].slot == k % s.Cap();
    if i > k {
      SlotsDiffer(k, i, s.Cap());
    }
  }

  lemma ProducerStep<T>(s: Sys<T>, a: Action<T>)
    requires Inv(s) && Enabled(s, a)
    requires ProducersMove(a)
    ensures Inv(Next(s, a))
  {
    var s' := Next(s, a);
    match a
    case PLoadWrite(v) =>
    case PLoadRead(n) =>
    case PRefuse =>
    case PStoreSlot => StoreSlotStep(s);
    case PPublish => PublishStep(s);
  }

  lemma StoreSlotStep<T>(s: Sys<T>)
    requires Inv(s) && Enabled(s, PStoreSlot)
    ensures Inv(Next(s, PStoreSlot))
  {
    hide And, Wrap, Pow2, WrapSub;
    WrapSucc(|s.pushed|);
    WrapSucc(s.seenRead);
    RingArithmetic(|s.pushed|, s.seenRead, s.bits);
    var s' := Next(s, PStoreSlot);
    assert forall i :: 0 <= i < |s.stores| ==> s'.stores[i] == s.stores[i];
    assert StoresOk(s');
  }

  lemma PublishStep<T>(s: Sys<T>)
    requires Inv(s) && Enabled(s, PPublish)
    ensures Inv(Next(s, PPublish))
  {
    hide And, Wrap, Pow2;
    WrapSucc(|s.pushed|);
    var s' := Next(s, PPublish);
    assert LogsOk(s');
    assert s'.popped <= s'.pushed;
  }

  lemma TakeStep<T>(s: Sys<T>, i: nat)
    requires Inv(s) && Enabled(s, CTake(i))
    ensures Inv(Next(s, CTake(i)))
  {
    hide And, Wrap, Pow2;
    OnlyTheItem(s, i);
    var s' := Next(s, CTake(i));
    assert forall k :: 0 <= k < |s.takes| ==> s'.takes[k] == s.takes[k];
    assert StoresOk(s');
  }

  lemma ReleaseStep<T>(s: Sys<T>)
    requires Inv(s) && Enabled(s, CRelease)
    ensures Inv(Next(s, CRelease))
  {
    hide And, Wrap, Pow2;
    WrapSucc(|s.popped|);
    var s' := Next(s, CRelease);
    assert LogsOk(s');
    assert s'.popped <= s'.pushed;
  }

  lemma ConsumerStep<T>(s: Sys<T>, a: Action<T>)
    requires Inv(s) && Enabled(s, a)
    requires ConsumersMove(a)
    ensures Inv(Next(s, a))
  {
    match a
    case CLoadRead =>
    case CLoadWrite(n) =>
    case CEmpty =>
    case CTake(i) => TakeStep(s, i);
    case CRelease => ReleaseStep(s);
  }

  lemma StepInv<T>(s: Sys<T>, a: Action<T>)
    requires Inv(s) && Enabled(s, a)
    ensures Inv(Next(s, a))
  {
    hide Inv, Next;
    if ProducersMove(a) {
      ProducerStep(s, a);
    } else {
      ConsumerStep(s, a);
    }
  }

  // ---------- runs ----------

  ghost predicate RunsTo<T>(s: Sys<T>, actions: seq<Action<T>>, s': Sys<T>)
    decreases |actions|
  {
    if actions == [] then s' == s
    else Enabled(s, actions[0]) && RunsTo(Next(s, actions[0]), actions[1..], s')
  }

  lemma {:induction false} RunInv<T>(s: Sys<T>, actions: seq<Action<T>>, s': Sys<T>)
    requires Inv(s) && RunsTo(s, actions, s')
    ensures Inv(s')
    decreases |actions|
  {
    if actions != [] {
      StepInv(s, actions[0]);
      RunInv(Next(s, actions[0]), actions[1..], s');
    }
  }

  /** A slot write and a slot read of one slot are always ordered: the read knew of the write, or
      the write came after the read's index was released. */
  ghost predicate NoDataRace<T>(s: Sys<T>) {
    forall i, k :: 0 <= i < |s.stores| && 0 <= k < |s.takes| && s.stores[i].slot == s.takes[k].slot ==>
      i < s.takes[k].known || k < s.stores[i].since
  }

  /** The producer is about to write the slot the consumer is about to read. */
  predicate Collides<T>(s: Sys<T>) {
    && s.prod.PRead? && s.prod.w < WORD && s.prod.r < WORD && WrapSub(s.prod.w, s.prod.r) < s.Cap()
    && s.cons.CWrite? && s.cons.r != s.cons.w
    && And(s.prod.w, s.Cap() - 1) == And(s.cons.r, s.Cap() - 1)
  }

  /** In every interleaving: what was popped is a prefix of what was pushed, the ring never holds
      more than its capacity, nothing is read while it is being written, and no slot access races. */
  lemma RingIsSafe<T>(bits: nat, actions: seq<Action<T>>, s: Sys<T>)
    requires bits <= 63 && RunsTo(Init<T>(bits), actions, s)
    ensures s.popped <= s.pushed && |s.pushed| <= |s.popped| + Pow2(bits)
    ensures !Collides(s)
    ensures NoDataRace(s)
  {
    InitInv<T>(bits);
    RunInv(Init<T>(bits), actions, s);
    RunBits(Init<T>(bits), actions, s);
    NoCollision(s);
    Ordered(s);
  }

  lemma {:induction false} RunBits<T>(s: Sys<T>, actions: seq<Action<T>>, s': Sys<T>)
    requires RunsTo(s, actions, s')
    ensures s'.bits == s.bits
    decreases |actions|
  {
    if actions != [] {
      RunBits(Next(s, actions[0]), actions[1..], s');
    }
  }

  lemma NoCollision<T>(s: Sys<T>)
    requires Inv(s)
    ensures !Collides(s)
  {
    hide And, Wrap, WrapSub, Pow2;
    if s.prod.PRead? && s.cons.CWrite? && s.cons.r != s.cons.w {
      RingArithmetic(|s.pushed|, s.seenRead, s.bits);
      RingArithmetic(s.seenWrite, |s.popped|, s.bits);
      if |s.popped| < |s.pushed| < s.seenRead + s.Cap() {
        SlotsDiffer(|s.popped|, |s.pushed|, s.Cap());
      }
    }
  }

  lemma Ordered<T>(s: Sys<T>)
    requires Inv(s)
    ensures NoDataRace(s)
  {
    forall i, k | 0 <= i < |s.stores| && 0 <= k < |s.takes| && s.stores[i].slot == s.takes[k].slot
      ensures i < s.takes[k].known || k < s.stores[i].since
    {
      if k < i < k + s.Cap() {
        SlotsDiffer(k, i, s.Cap());
      }
    }
  }

  /** Refusals tell the truth, and an accepted call can go on: having loaded both indices, a push is refused
      if and only if the ring is full up to the read index it saw, and otherwise writes its slot; a pop is
      refused if and only if everything up to the write index it saw was popped, and otherwise reads its
      item. */
  lemma RefusalsAreHonest<T>(s: Sys<T>)
    requires Inv(s)
    ensures s.prod.PRead? ==>
              && (Enabled(s, PRefuse) <==> |s.pushed| == s.seenRead + s.Cap())
              && (Enabled(s, PStoreSlot) <==> |s.pushed| < s.seenRead + s.Cap())
    ensures s.cons.CWrite? ==>
              && (Enabled(s, CEmpty) <==> |s.popped| == s.seenWrite)
              && (Enabled(s, CTake(|s.popped|)) <==> |s.popped| < s.seenWrite)
  {
    hide And, Wrap, WrapSub, Pow2;
    if s.prod.PRead? {
      WrapSucc(|s.pushed|);
      WrapSucc(s.seenRead);
      RingArithmetic(|s.pushed|, s.seenRead, s.bits);
    }
    if s.cons.CWrite? {
      RingArithmetic(s.seenWrite, |s.popped|, s.bits);
      var k := |s.popped|;
      forall j | k < j < s.known && j < |s.stores|
        ensures s.stores[j].slot != k % s.Cap()
      {
        SlotsDiffer(k, j, s.Cap());
      }
    }
  }

  // ---------- calls that nobody interrupts ----------

  lemma {:induction false} RunsThrough<T>(s: Sys<T>, a: seq<Action<T>>, s1: Sys<T>, b: seq<Action<T>>, s2: Sys<T>)
    requires RunsTo(s, a, s1) && RunsTo(s1, b, s2)
    ensures RunsTo(s, a + b, s2)
    decreases |a|
  {
    hide Enabled, Next;
    if a == [] {
      assert a + b == b;
    } else {
      RunsThrough(Next(s, a[0]), a[1..], s1, b, s2);
      assert (a + b)[1..] == a[1..] + b;
    }
  }

  lemma RunsOne<T>(s: Sys<T>, a: Action<T>)
    requires Enabled(s, a)
    ensures RunsTo(s, [a], Next(s, a))
  {
    hide Enabled, Next;
    assert [a][1..] == [];
  }

  lemma RunsTwo<T>(s: Sys<T>, a: Action<T>, b: Action<T>)
    requires Enabled(s, a) && Enabled(Next(s, a), b)
    ensures RunsTo(s, [a, b], Next(Next(s, a), b))
  {
    RunsOne(s, a);
    RunsOne(Next(s, a), b);
    RunsThrough(s, [a], Next(s, a), [b], Next(Next(s, a), b));
    assert [a] + [b] == [a, b];
  }

  /** An undisturbed push that sees the newest read index: on a full ring it is refused and changes neither
      queue, otherwise it appends its value. */
  lemma PushAlone<T>(s: Sys<T>, v: T) returns (actions: seq<Action<T>>, s': Sys<T>)
    requires Inv(s) && s.prod.PIdle?
    ensures Inv(s') && RunsTo(s, actions, s') && s'.prod.PIdle? && s'.cons == s.cons && s'.bits == s.bits
    ensures s'.popped == s.popped && s'.seenWrite == s.seenWrite && s'.seenRead == |s.popped|
    ensures s'.pushed == if |s.pushed| - |s.popped| == s.Cap() then s.pushed else s.pushed + [v]
    ensures forall a :: a in actions ==> ProducersMove(a) && (a.PLoadWrite? ==> a.v == v)
    ensures PRefuse in actions <==> |s.pushed| - |s.popped| == s.Cap()
  {
    hide And, Wrap, WrapSub, Pow2, Readable;
    var s2 := PushLoads(s, v);
    var loads := [PLoadWrite(v), PLoadRead(|s.readLog| - 1)];
    RefusalsAreHonest(s2);
    if |s.pushed| - |s.popped| == s.Cap() {
      RunsOne(s2, PRefuse);
      actions, s' := loads + [PRefuse], Next(s2, PRefuse);
      RunsThrough(s, loads, s2, [PRefuse], s');
    } else {
      RunsTwo(s2, PStoreSlot, PPublish);
      actions, s' := loads + [PStoreSlot, PPublish], Next(Next(s2, PStoreSlot), PPublish);
      RunsThrough(s, loads, s2, [PStoreSlot, PPublish], s');
    }
    RunInv(s, actions, s');
  }

  lemma PushLoads<T>(s: Sys<T>, v: T) returns (s': Sys<T>)
    requires Inv(s) && s.prod.PIdle?
    ensures RunsTo(s, [PLoadWrite(v), PLoadRead(|s.readLog| - 1)], s') && Inv(s')
    ensures s'.prod.PRead? && s'.prod.v == v && s'.seenRead == |s.popped| && s'.Cap() == s.Cap()
    ensures s' == s.(prod := s'.prod, seenRead := s'.seenRead)
  {
    hide And, Wrap, WrapSub, Pow2, Readable;
    var a, b := PLoadWrite(v), PLoadRead(|s.readLog| - 1);
    RunsTwo(s, a, b);
    s' := Next(Next(s, a), b);
    RunInv(s, [a, b], s');
  }

  /** An undisturbed pop that sees the newest write index: on an empty ring it is refused and changes neither
      queue, otherwise it takes the oldest item left. */
  lemma PopAlone<T>(s: Sys<T>) returns (actions: seq<Action<T>>, s': Sys<T>)
    requires Inv(s) && s.cons.CIdle?
    ensures Inv(s') && RunsTo(s, actions, s') && s'.cons.CIdle? && s'.prod == s.prod && s'.bits == s.bits
    ensures s'.pushed == s.pushed && s'.seenWrite == |s.pushed| && s'.seenRead == s.seenRead
    ensures |s.popped| <= |s.pushed|
    ensures s'.popped == if |s.popped| == |s.pushed| then s.popped else s.popped + [s.pushed[|s.popped|]]
    ensures forall a :: a in actions ==> ConsumersMove(a)
    ensures CEmpty in actions <==> |s.popped| == |s.pushed|
  {
    hide And, Wrap, WrapSub, Pow2, Readable;
    var s2 := PopLoads(s);
    var loads := [CLoadRead, CLoadWrite(|s.writeLog| - 1)];
    RefusalsAreHonest(s2);
    if |s.popped| == |s.pushed| {
      RunsOne(s2, CEmpty);
      actions, s' := loads + [CEmpty], Next(s2, CEmpty);
      RunsThrough(s, loads, s2, [CEmpty], s');
    } else {
      var k := |s.popped|;
      RunsTwo(s2, CTake(k), CRelease);
      actions, s' := loads + [CTake(k), CRelease], Next(Next(s2, CTake(k)), CRelease);
      RunsThrough(s, loads, s2, [CTake(k), CRelease], s');
    }
    RunInv(s, actions, s');
  }

  lemma PopLoads<T>(s: Sys<T>) returns (s': Sys<T>)
    requires Inv(s) && s.cons.CIdle?
    ensures RunsTo(s, [CLoadRead, CLoadWrite(|s.writeLog| - 1)], s') && Inv(s')
    ensures s'.cons.CWrite? && s'.seenWrite == |s.pushed| && s'.Cap() == s.Cap()
    ensures s' == s.(cons := s'.cons, seenWrite := s'.seenWrite, known := s'.known)
  {
    hide And, Wrap, WrapSub, Pow2, Readable;
    var b: Action<T> := CLoadWrite(|s.writeLog| - 1);
    RunsTwo(s, CLoadRead, b);
    s' := Next(Next(s, CLoadRead), b);
    RunInv(s, [CLoadRead, b], s');
  }

  /** Views can be stale: with one slot, a push is refused although the ring is empty, because the producer
      still goes by the read index it loaded last. */
  lemma StalePush<T>(v: T) returns (actions: seq<Action<T>>, s: Sys<T>)
    ensures RunsTo(Init<T>(0), actions, s) && Enabled(s, PRefuse) && s.popped == s.pushed
  {
    hide And, Wrap, WrapSub, Readable;
    InitInv<T>(0);
    var a, s1 := PushAlone(Init<T>(0), v);
    var b, s2 := PopAlone(s1);
    var l1: Action<T>, l2: Action<T> := PLoadWrite(v), PLoadRead(0);
    RunsThrough(Init<T>(0), a, s1, b, s2);
    RunsTwo(s2, l1, l2);
    s := Next(Next(s2, l1), l2);
    RunsThrough(Init<T>(0), a + b, s2, [l1, l2], s);
    actions := a + b + [l1, l2];
    RunInv(Init<T>(0), actions, s);
    RefusalsAreHonest(s);
  }

  /** And a pop is refused although an item is there. */
  lemma StalePop<T>(v: T) returns (actions: seq<Action<T>>, s: Sys<T>)
    ensures RunsTo(Init<T>(0), actions, s) && Enabled(s, CEmpty) && |s.popped| < |s.pushed|
  {
    hide And, Wrap, WrapSub, Readable;
    InitInv<T>(0);
    var a, s1 := PushAlone(Init<T>(0), v);
    var l2: Action<T> := CLoadWrite(0);
    RunsTwo(s1, CLoadRead, l2);
    s := Next(Next(s1, CLoadRead), l2);
    RunsThrough(Init<T>(0), a, s1, [CLoadRead, l2], s);
    actions := a + [CLoadRead, l2];
    RunInv(Init<T>(0), actions, s);
    RefusalsAreHonest(s);
  }
}
