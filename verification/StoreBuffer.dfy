/**
 The store-buffer experiment in both modes, on a total-store-order machine: three threads, each with a
 first-in first-out buffer of stores that reach memory one at a time, at any moment; a load sees the
 thread's own newest buffered store or else memory; after a seq_cst store the thread goes on to its load
 only once its buffer is empty, after a relaxed one at once. Main runs any number of rounds.
 */
module StoreBuffer {

  datatype Loc = X | Y | R1 | R2 | GateA | GateB
  datatype Write = Write(loc: Loc, val: int)
  datatype Mem = Mem(x: int, y: int, r1: int, r2: int, gateA: int, gateB: int)

  const IDLE := 0
  const RUN := 1
  const DONE := 2
  const STOP := 3

  function Load(m: Mem, l: Loc): int {
    match l
    case X => m.x
    case Y => m.y
    case R1 => m.r1
    case R2 => m.r2
    case GateA => m.gateA
    case GateB => m.gateB
  }

  function Commit(m: Mem, w: Write): Mem {
    match w.loc
    case X => m.(x := w.val)
    case Y => m.(y := w.val)
    case R1 => m.(r1 := w.val)
    case R2 => m.(r2 := w.val)
    case GateA => m.(gateA := w.val)
    case GateB => m.(gateB := w.val)
  }

  /** What a thread with this buffer loads. */
  function See(m: Mem, buf: seq<Write>, l: Loc): int
    decreases |buf|
  {
    if buf == [] then Load(m, l)
    else if buf[|buf| - 1].loc == l then buf[|buf| - 1].val
    else See(m, buf[..|buf| - 1], l)
  }

  /** The two workers are one program with the names exchanged. */
  datatype Names = Names(gate: Loc, own: Loc, other: Loc, result: Loc)

  const A := Names(GateA, X, Y, R1)
  const B := Names(GateB, Y, X, R2)

  /** Spin: waiting for the gate to leave Idle. Begin: told to run, about to store its flag. Fence:
      stored it, about to load the other flag. Loaded(v): about to store v as its result, then Done.
      Hold: waiting for the gate to leave Done. */
  datatype Pc = Spin | Begin | Fence | Loaded(v: int) | Reported | Hold | Exit

  datatype Worker = Worker(pc: Pc, buf: seq<Write>)

  datatype WorkerStep = SeeGate | StoreFlag | LoadOther | StoreResult | StoreDone

  predicate WorkerCan(seqcst: bool, w: Worker, a: WorkerStep) {
    match a
    case SeeGate => w.pc.Spin? || w.pc.Hold?
    case StoreFlag => w.pc.Begin?
    case LoadOther => w.pc.Fence? && (seqcst ==> w.buf == [])
    case StoreResult => w.pc.Loaded?
    case StoreDone => w.pc.Reported?
  }

  function WorkerGo(m: Mem, n: Names, w: Worker, a: WorkerStep): Worker {
    match a
    case SeeGate =>
      var g := See(m, w.buf, n.gate);
      if w.pc.Spin? then (if g == IDLE then w else if g == STOP then w.(pc := Exit) else w.(pc := Begin))
      else (if g == DONE then w else w.(pc := Spin))
    case StoreFlag => Worker(Fence, w.buf + [Write(n.own, 1)])
    case LoadOther => w.(pc := Loaded(See(m, w.buf, n.other)))
    case StoreResult => if w.pc.Loaded? then Worker(Reported, w.buf + [Write(n.result, w.pc.v)]) else w
    case StoreDone => Worker(Hold, w.buf + [Write(n.gate, DONE)])
  }

  /** Main's stores from the end of one round to the start of the next: both gates Idle, the four
      resets, both gates Run. It starts having the two Idle stores behind it. */
  const CYCLE: seq<Write> := [Write(GateA, IDLE), Write(GateB, IDLE), Write(X, 0), Write(Y, 0), Write(R1, 0),
                              Write(R2, 0),
                              Write(GateA, RUN), Write(GateB, RUN)]

  /** Main's stores after the last round: both gates Idle, then both Stop. */
  const FINISH: seq<Write> := [Write(GateA, IDLE), Write(GateB, IDLE), Write(GateA, STOP), Write(GateB, STOP)]

  /** Issue(k, last): the first k stores of CYCLE (or of FINISH, on the way out) are issued. */
  datatype MainPc = Issue(k: nat, last: bool) | WaitA | WaitB | LoadR1 | LoadR2(r1: int)

  datatype Machine = Machine(seqcst: bool, mem: Mem, main: MainPc, buf: seq<Write>, a: Worker, b: Worker, zeros: nat)

  datatype Step =
    | FlushMain | FlushA | FlushB | StepA(s: WorkerStep) | StepB(s: WorkerStep) | MainStore(leave: bool) | MainLoad

  predicate Can(m: Machine, s: Step) {
    match s
    case FlushMain => m.buf != []
    case FlushA => m.a.buf != []
    case FlushB => m.b.buf != []
    case StepA(w) => WorkerCan(m.seqcst, m.a, w)
    case StepB(w) => WorkerCan(m.seqcst, m.b, w)
    case MainStore(leave) =>
      m.main.Issue? && (if m.main.last then m.main.k < |FINISH| && !leave
                        else m.main.k < |CYCLE| && (leave ==> m.main.k == 2))
    case MainLoad => m.main.WaitA? || m.main.WaitB? || m.main.LoadR1? || m.main.LoadR2?
  }

  /** Having set both gates Idle (k == 2) main may start another round or leave. */
  function Go(m: Machine, s: Step): Machine
    requires Can(m, s)
  {
    match s
    case FlushMain => m.(mem := Commit(m.mem, m.buf[0]), buf := m.buf[1..])
    case FlushA => m.(mem := Commit(m.mem, m.a.buf[0]), a := m.a.(buf := m.a.buf[1..]))
    case FlushB => m.(mem := Commit(m.mem, m.b.buf[0]), b := m.b.(buf := m.b.buf[1..]))
    case StepA(w) => m.(a := WorkerGo(m.mem, A, m.a, w))
    case StepB(w) => m.(b := WorkerGo(m.mem, B, m.b, w))
    case MainStore(leave) =>
      var k := m.main.k;
      if m.main.last || leave then m.(main := Issue(k + 1, true), buf := m.buf + [FINISH[k]])
      else m.(main := if k + 1 < |CYCLE| then Issue(k + 1, false) else WaitA, buf := m.buf + [CYCLE[k]])
    case MainLoad =>
      match m.main
      case WaitA => if See(m.mem, m.buf, GateA) == DONE then m.(main := WaitB) else m
      case WaitB => if See(m.mem, m.buf, GateB) == DONE then m.(main := LoadR1) else m
      case LoadR1 => m.(main := LoadR2(See(m.mem, m.buf, R1)))
      case LoadR2(r1) =>
        var zero := r1 == 0 && See(m.mem, m.buf, R2) == 0;
        m.(main := Issue(0, false), zeros := m.zeros + if zero then 1 else 0)
      case Issue(k, last) => m
  }

  /** All six atomics start at zero, and both gates are already Idle. */
  function Start(seqcst: bool): Machine {
    Machine(seqcst, Mem(0, 0, 0, 0, IDLE, IDLE), Issue(2, false), [], Worker(Spin, []), Worker(Spin, []), 0)
  }

  // ---------- the invariant ----------

  function Stores(m: Machine): seq<Write> {
    if m.main.Issue? && m.main.last then FINISH else CYCLE
  }

  function Issued(m: Machine): nat {
    if m.main.Issue? then m.main.k else |CYCLE|
  }

  /** How many of main's stores of this round have reached memory. */
  function Flushed(m: Machine): int {
    Issued(m) - |m.buf|
  }

  ghost predicate MainOk(m: Machine) {
    && Issued(m) <= |Stores(m)|
    && |m.buf| <= Issued(m)
    && m.buf == Stores(m)[Flushed(m)..Issued(m)]
    && (m.main.Issue? && !m.main.last ==> m.main.k < |CYCLE|)
    && (m.main.Issue? && m.main.last ==> m.main.k > 2)
  }

  /** idle and go are how many of main's stores must be flushed for the gate to be Idle, and to be
      Run or Stop. Before, the worker has reported Done; between, it does nothing; after, it runs. */
  ghost predicate WorkerOk(m: Machine, n: Names, w: Worker, idle: nat, go: nat) {
    var f := Flushed(m);
    var gate := Load(m.mem, n.gate);
    if f < idle then gate == DONE && w.pc.Hold? && w.buf == []
    else if f < go then gate == IDLE && (w.pc.Hold? || w.pc.Spin?) && w.buf == []
    else if m.main.Issue? && m.main.last then gate == STOP && (w.pc.Hold? || w.pc.Spin? || w.pc.Exit?) && w.buf == []
    else RunOk(m.mem, n, w)
  }

  /** A worker between its Run and main's next Idle. */
  ghost predicate RunOk(m: Mem, n: Names, w: Worker) {
    var gate := Load(m, n.gate);
    if gate == RUN then
      match w.pc
      case Spin => w.buf == [] && Load(m, n.own) == 0
      case Begin => w.buf == [] && Load(m, n.own) == 0
      case Fence => (w.buf == [] && Load(m, n.own) == 1) || (w.buf == [Write(n.own, 1)] && Load(m, n.own) == 0)
      case Loaded(v) => w.buf == [] && Load(m, n.own) == 1
      case Reported => Load(m, n.own) == 1 && (w.buf == [] || (|w.buf| == 1 && w.buf[0].loc == n.result))
      case Hold =>
        || (w.buf == [] && Load(m, n.own) == 0)
        || (Load(m, n.own) == 1 && w.buf == [Write(n.gate, DONE)])
        || (Load(m, n.own) == 1 && |w.buf| == 2 && w.buf[0].loc == n.result && w.buf[1] == Write(n.gate, DONE))
      case Exit => false
    else gate == DONE && w.pc.Hold? && w.buf == [] && Load(m, n.own) == 1
  }

  /** The worker has loaded the other flag in this round. */
  predicate HasLoaded(m: Mem, n: Names, w: Worker) {
    w.pc.Loaded? || w.pc.Reported? || (w.pc.Hold? && (w.buf != [] || Load(m, n.gate) == DONE))
  }

  /** What it loaded, wherever that value is by now. */
  function Result(m: Mem, n: Names, w: Worker): int {
    if w.pc.Loaded? then w.pc.v
    else if w.buf != [] && w.buf[0].loc == n.result then w.buf[0].val
    else Load(m, n.result)
  }

  /** Both gates are open and main has not started the next round. */
  predicate Racing(m: Machine) {
    Flushed(m) >= 7 && !(m.main.Issue? && m.main.last)
  }

  ghost predicate Inv(m: Machine) {
    && m.seqcst && MainOk(m)
    && WorkerOk(m, A, m.a, 1, if m.main.Issue? && m.main.last then 3 else 7)
    && WorkerOk(m, B, m.b, 2, if m.main.Issue? && m.main.last then 4 else 8)
    && (!(m.main.Issue? && m.main.last) && 3 <= Flushed(m) < 7 ==> m.mem.x == 0)
    && (!(m.main.Issue? && m.main.last) && 4 <= Flushed(m) < 8 ==> m.mem.y == 0)
    && (m.main.WaitB? || m.main.LoadR1? || m.main.LoadR2? ==> Flushed(m) >= 7 && m.mem.gateA == DONE)
    && (m.main.LoadR1? || m.main.LoadR2? ==> Flushed(m) == 8 && m.mem.gateB == DONE)
    && (m.main.LoadR2? ==> m.main.r1 == m.mem.r1)
    && (Racing(m) && HasLoaded(m.mem, A, m.a) ==> Result(m.mem, A, m.a) == 0 || Result(m.mem, A, m.a) == 1)
    && (Flushed(m) == 8 && Racing(m) && HasLoaded(m.mem, B, m.b) ==>
          Result(m.mem, B, m.b) == 0 || Result(m.mem, B, m.b) == 1)
    && (Flushed(m) == 8 && Racing(m) && HasLoaded(m.mem, A, m.a) && HasLoaded(m.mem, B, m.b) ==>
          !(Result(m.mem, A, m.a) == 0 && Result(m.mem, B, m.b) == 0))
    && m.zeros == 0
  }

  lemma StartInv()
    ensures Inv(Start(true))
  {
  }

  lemma FlushWorkerA(m: Machine)
    requires Inv(m) && Can(m, FlushA)
    ensures Inv(Go(m, FlushA))
  {
  }

  lemma FlushWorkerB(m: Machine)
    requires Inv(m) && Can(m, FlushB)
    ensures Inv(Go(m, FlushB))
  {
  }

  lemma WorkerA(m: Machine, w: WorkerStep)
    requires Inv(m) && Can(m, StepA(w))
    ensures Inv(Go(m, StepA(w)))
  {
    hide See;
    SeeShort(m.mem, m.a.buf, GateA);
    SeeShort(m.mem, m.a.buf, Y);
  }

  lemma WorkerB(m: Machine, w: WorkerStep)
    requires Inv(m) && Can(m, StepB(w))
    ensures Inv(Go(m, StepB(w)))
  {
    hide See;
    SeeShort(m.mem, m.b.buf, GateB);
    SeeShort(m.mem, m.b.buf, X);
  }

  /** Loads through a buffer of at most two stores. */
  lemma SeeShort(m: Mem, buf: seq<Write>, l: Loc)
    ensures buf == [] ==> See(m, buf, l) == Load(m, l)
    ensures |buf| == 1 ==> See(m, buf, l) == if buf[0].loc == l then buf[0].val else Load(m, l)
    ensures |buf| == 2 ==>
              See(m, buf, l) == if buf[1].loc == l then buf[1].val else if buf[0].loc == l then buf[0].val
                else Load(m, l)
  {
  }

  lemma MainFlushes(m: Machine)
    requires Inv(m) && Can(m, FlushMain)
    ensures Inv(Go(m, FlushMain))
  {
    var f := Flushed(m);
    assert m.buf[0] == Stores(m)[f];
  }

  lemma Extends(stores: seq<Write>, f: nat, k: nat)
    requires f <= k < |stores|
    ensures stores[f..k] + [stores[k]] == stores[f..k + 1]
  {
  }

  lemma MainStoresOk(m: Machine, leave: bool)
    requires MainOk(m) && Can(m, MainStore(leave))
    ensures MainOk(Go(m, MainStore(leave))) && Flushed(Go(m, MainStore(leave))) == Flushed(m)
    ensures Flushed(m) <= m.main.k && (m.main.last ==> m.main.k < |FINISH|) && (!m.main.last ==> m.main.k < |CYCLE|)
  {
    var f, k := Flushed(m), m.main.k;
    if leave {
      assert CYCLE[f..k] == FINISH[f..k];
      Extends(FINISH, f, k);
    } else {
      Extends(Stores(m), f, k);
    }
  }

  /** Main has started its stores after the last round. */
  predicate Leaving(m: Machine) {
    m.main.Issue? && m.main.last
  }

  /** A store of main's that only enters its buffer does not concern the workers. */
  lemma WorkerSame(m: Machine, next: Machine, n: Names, w: Worker, idle: nat, run: nat, runNext: nat)
    requires WorkerOk(m, n, w, idle, run) && next.mem == m.mem && Flushed(next) == Flushed(m)
    requires Flushed(m) < run ==> Flushed(m) < runNext
    requires Flushed(m) >= run ==> runNext == run && Leaving(next) == Leaving(m)
    ensures WorkerOk(next, n, w, idle, runNext)
  {
    hide RunOk, Flushed;
  }

  lemma MainStores(m: Machine, leave: bool)
    requires Inv(m) && Can(m, MainStore(leave))
    ensures Inv(Go(m, MainStore(leave)))
  {
    hide MainOk, WorkerOk, RunOk, Load, See, HasLoaded, Result;
    var m' := Go(m, MainStore(leave));
    MainStoresOk(m, leave);
    WorkerSame(m, m', A, m.a, 1, if m.main.last then 3 else 7, if m'.main.Issue? && m'.main.last then 3 else 7);
    WorkerSame(m, m', B, m.b, 2, if m.main.last then 4 else 8, if m'.main.Issue? && m'.main.last then 4 else 8);
  }

  /** Until main's Run is flushed, main sees its own Run and not the worker's Done. */
  lemma MainSees(m: Machine)
    requires MainOk(m) && !m.main.Issue?
    ensures See(m.mem, m.buf, GateA) == if Flushed(m) <= 6 then RUN else m.mem.gateA
    ensures Flushed(m) >= 7 ==> See(m.mem, m.buf, GateB) == if Flushed(m) == 7 then RUN else m.mem.gateB
    ensures Flushed(m) == 8 ==> m.buf == []
  {
    var f := Flushed(m);
    if f <= 6 {
      var n := |m.buf|;
      assert m.buf[n - 1] == CYCLE[7] && m.buf[n - 2] == CYCLE[6];
      assert m.buf[..n - 1][n - 2] == CYCLE[6];
    } else if f == 7 {
      assert m.buf == [CYCLE[7]];
      SeeShort(m.mem, m.buf, GateA);
      SeeShort(m.mem, m.buf, GateB);
    }
  }

  lemma MainLoads(m: Machine)
    requires Inv(m) && Can(m, MainLoad)
    ensures Inv(Go(m, MainLoad))
  {
    MainSees(m);
  }

  lemma StepInv(m: Machine, s: Step)
    requires Inv(m) && Can(m, s)
    ensures Inv(Go(m, s))
  {
    hide Inv, Can, Go;
    match s
    case FlushMain => MainFlushes(m);
    case FlushA => FlushWorkerA(m);
    case FlushB => FlushWorkerB(m);
    case StepA(w) => WorkerA(m, w);
    case StepB(w) => WorkerB(m, w);
    case MainStore(leave) => MainStores(m, leave);
    case MainLoad => MainLoads(m);
  }

  ghost predicate Runs(m: Machine, steps: seq<Step>, m': Machine)
    decreases |steps|
  {
    if steps == [] then m' == m
    else Can(m, steps[0]) && Runs(Go(m, steps[0]), steps[1..], m')
  }

  lemma {:induction false} RunInv(m: Machine, steps: seq<Step>, m': Machine)
    requires Inv(m) && Runs(m, steps, m')
    ensures Inv(m')
    decreases |steps|
  {
    if steps != [] {
      StepInv(m, steps[0]);
      RunInv(Go(m, steps[0]), steps[1..], m');
    }
  }

  // ---------- reports tell the truth ----------

  /** A worker about to report 1 loaded the other's flag while it was up, and it still is. */
  predicate Truthful(m: Machine) {
    && (m.a.pc == Loaded(1) ==> m.mem.y == 1)
    && (m.b.pc == Loaded(1) ==> m.mem.x == 1)
  }

  lemma LoadIsTruthful(m: Machine, s: Step)
    requires Inv(m) && Truthful(m) && Can(m, s) && (s.StepA? || s.StepB?)
    ensures Truthful(Go(m, s))
  {
    SeeShort(m.mem, m.a.buf, Y);
    SeeShort(m.mem, m.b.buf, X);
  }

  lemma FlushIsTruthful(m: Machine, s: Step)
    requires Inv(m) && Truthful(m) && Can(m, s) && !s.StepA? && !s.StepB?
    ensures Truthful(Go(m, s))
  {
    if s.FlushMain? {
      assert m.buf[0] == Stores(m)[Flushed(m)];
    }
  }

  lemma {:induction false} RunTruthful(m: Machine, steps: seq<Step>, m': Machine)
    requires Inv(m) && Truthful(m) && Runs(m, steps, m')
    ensures Truthful(m')
    decreases |steps|
  {
    hide Inv, Truthful, Can, Go;
    if steps != [] {
      StepInv(m, steps[0]);
      if steps[0].StepA? || steps[0].StepB? {
        LoadIsTruthful(m, steps[0]);
      } else {
        FlushIsTruthful(m, steps[0]);
      }
      RunTruthful(Go(m, steps[0]), steps[1..], m');
    }
  }

  /** In every reachable state: what a worker is about to report is 0 or 1, and 1 only if the other's flag
      is up in memory. */
  lemma ReportsAreTruthful(steps: seq<Step>, m: Machine)
    requires Runs(Start(true), steps, m)
    ensures m.a.pc.Loaded? ==> m.a.pc.v == 0 || (m.a.pc.v == 1 && m.mem.y == 1)
    ensures m.b.pc.Loaded? ==> m.b.pc.v == 0 || (m.b.pc.v == 1 && m.mem.x == 1)
  {
    StartInv();
    RunInv(Start(true), steps, m);
    RunTruthful(Start(true), steps, m);
  }

  /** No run of any length and any number of rounds ever counts a (0, 0). */
  lemma NeverBothZero(steps: seq<Step>, m: Machine)
    requires Runs(Start(true), steps, m)
    ensures m.zeros == 0
    ensures m.main.LoadR2? ==> m.main.r1 == 1 || See(m.mem, m.buf, R2) == 1
  {
    StartInv();
    RunInv(Start(true), steps, m);
    if m.main.LoadR2? {
      MainSees(m);
    }
  }

  /** The shutdown is reached by both workers: a worker leaves only after main's Stop, and then its
      last report is in memory. */
  lemma ExitMeansStop(steps: seq<Step>, m: Machine)
    requires Runs(Start(true), steps, m)
    ensures m.a.pc.Exit? ==> m.mem.gateA == STOP && m.main.Issue? && m.main.last && m.a.buf == []
    ensures m.b.pc.Exit? ==> m.mem.gateB == STOP && m.main.Issue? && m.main.last && m.b.buf == []
  {
    StartInv();
    RunInv(Start(true), steps, m);
  }

  // ---------- what can happen ----------

  ghost predicate Reaches(m: Machine, m': Machine) {
    exists steps :: Runs(m, steps, m')
  }

  lemma ReachesOne(m: Machine, s: Step)
    requires Can(m, s)
    ensures Reaches(m, Go(m, s))
  {
    hide Can, Go;
    assert [s][1..] == [];
    assert Runs(m, [s], Go(m, s));
  }

  lemma {:induction false} RunsThrough(m: Machine, s1: seq<Step>, m1: Machine, s2: seq<Step>, m2: Machine)
    requires Runs(m, s1, m1) && Runs(m1, s2, m2)
    ensures Runs(m, s1 + s2, m2)
    decreases |s1|
  {
    hide Can, Go;
    if s1 == [] {
      assert s1 + s2 == s2;
    } else {
      RunsThrough(Go(m, s1[0]), s1[1..], m1, s2, m2);
      assert (s1 + s2)[1..] == s1[1..] + s2;
    }
  }

  lemma ReachesThrough(m: Machine, m1: Machine, m2: Machine)
    requires Reaches(m, m1) && Reaches(m1, m2)
    ensures Reaches(m, m2)
  {
    hide Runs;
    var s1 :| Runs(m, s1, m1);
    var s2 :| Runs(m1, s2, m2);
    RunsThrough(m, s1, m1, s2, m2);
  }

  lemma ReachesTwo(m: Machine, s: Step, s': Step)
    requires Can(m, s) && Can(Go(m, s), s')
    ensures Reaches(m, Go(Go(m, s), s'))
  {
    hide Can, Go, Reaches;
    ReachesOne(m, s);
    ReachesOne(Go(m, s), s');
    ReachesThrough(m, Go(m, s), Go(Go(m, s), s'));
  }

  /** A store into an empty buffer is the next to leave it. */
  lemma Alone(w: Write)
    ensures ([] + [w])[0] == w && ([] + [w])[1..] == []
  {
  }

  /** Main's next store, all the way to memory. */
  lemma MainWrites(m: Machine, k: nat)
    requires m.main == Issue(k, false) && k < |CYCLE| && m.buf == []
    ensures Reaches(m, m.(mem := Commit(m.mem, CYCLE[k]), main := if k < 7 then Issue(k + 1, false) else WaitA))
  {
    hide Reaches;
    Alone(CYCLE[k]);
    ReachesTwo(m, MainStore(false), FlushMain);
  }

  /** A round is open: both workers have been told to run. */
  function Open(seqcst: bool): Machine {
    Machine(seqcst, Mem(0, 0, 0, 0, RUN, RUN), WaitA, [], Worker(Spin, []), Worker(Spin, []), 0)
  }

  lemma RoundOpens(seqcst: bool)
    ensures Reaches(Start(seqcst), Open(seqcst))
  {
    hide Reaches;
    var m2 := Start(seqcst);
    var m3, m4, m5 := m2.(main := Issue(3, false)), m2.(main := Issue(4, false)), m2.(main := Issue(5, false));
    var m6, m7 := m2.(main := Issue(6, false)), m2.(mem := m2.mem.(gateA := RUN), main := Issue(7, false));
    MainWrites(m2, 2);
    MainWrites(m3, 3);
    MainWrites(m4, 4);
    MainWrites(m5, 5);
    MainWrites(m6, 6);
    MainWrites(m7, 7);
    ReachesThrough(m2, m3, m4);
    ReachesThrough(m2, m4, m5);
    ReachesThrough(m2, m5, m6);
    ReachesThrough(m2, m6, m7);
    ReachesThrough(m2, m7, Open(seqcst));
  }

  /** Worker A raises its flag. */
  lemma ARaises(m: Machine)
    requires m.a == Worker(Spin, []) && m.mem.gateA == RUN
    ensures Reaches(m, m.(mem := m.mem.(x := 1), a := Worker(Fence, [])))
  {
    hide Reaches;
    var m1 := m.(a := Worker(Begin, []));
    Alone(Write(X, 1));
    ReachesOne(m, StepA(SeeGate));
    ReachesTwo(m1, StepA(StoreFlag), FlushA);
    ReachesThrough(m, m1, m.(mem := m.mem.(x := 1), a := Worker(Fence, [])));
  }

  /** Worker A loads the other flag, reports it and is done. */
  lemma AReports(m: Machine)
    requires m.a == Worker(Fence, [])
    ensures Reaches(m, m.(mem := m.mem.(r1 := m.mem.y, gateA := DONE), a := Worker(Hold, [])))
  {
    hide Reaches;
    var m1 := m.(a := Worker(Loaded(m.mem.y), []));
    var m2 := m.(mem := m.mem.(r1 := m.mem.y), a := Worker(Reported, []));
    var m3 := m.(mem := m.mem.(r1 := m.mem.y, gateA := DONE), a := Worker(Hold, []));
    Alone(Write(R1, m.mem.y));
    Alone(Write(GateA, DONE));
    ReachesOne(m, StepA(LoadOther));
    ReachesTwo(m1, StepA(StoreResult), FlushA);
    ReachesTwo(m2, StepA(StoreDone), FlushA);
    ReachesThrough(m, m1, m2);
    ReachesThrough(m, m2, m3);
  }

  lemma BRaises(m: Machine)
    requires m.b == Worker(Spin, []) && m.mem.gateB == RUN
    ensures Reaches(m, m.(mem := m.mem.(y := 1), b := Worker(Fence, [])))
  {
    hide Reaches;
    var m1 := m.(b := Worker(Begin, []));
    Alone(Write(Y, 1));
    ReachesOne(m, StepB(SeeGate));
    ReachesTwo(m1, StepB(StoreFlag), FlushB);
    ReachesThrough(m, m1, m.(mem := m.mem.(y := 1), b := Worker(Fence, [])));
  }

  lemma BReports(m: Machine)
    requires m.b == Worker(Fence, [])
    ensures Reaches(m, m.(mem := m.mem.(r2 := m.mem.x, gateB := DONE), b := Worker(Hold, [])))
  {
    hide Reaches;
    var m1 := m.(b := Worker(Loaded(m.mem.x), []));
    var m2 := m.(mem := m.mem.(r2 := m.mem.x), b := Worker(Reported, []));
    var m3 := m.(mem := m.mem.(r2 := m.mem.x, gateB := DONE), b := Worker(Hold, []));
    Alone(Write(R2, m.mem.x));
    Alone(Write(GateB, DONE));
    ReachesOne(m, StepB(LoadOther));
    ReachesTwo(m1, StepB(StoreResult), FlushB);
    ReachesTwo(m2, StepB(StoreDone), FlushB);
    ReachesThrough(m, m1, m2);
    ReachesThrough(m, m2, m3);
  }

  /** Main waits for both and loads the first result. */
  lemma MainCollects(m: Machine)
    requires m.main == WaitA && m.buf == [] && m.mem.gateA == DONE && m.mem.gateB == DONE
    ensures Reaches(m, m.(main := LoadR2(m.mem.r1)))
  {
    hide Reaches;
    ReachesTwo(m, MainLoad, MainLoad);
    ReachesOne(m.(main := LoadR1), MainLoad);
    ReachesThrough(m, m.(main := LoadR1), m.(main := LoadR2(m.mem.r1)));
  }

  /** The state in which main has both results. */
  function Collected(seqcst: bool, r1: int, r2: int): Machine {
    Machine(seqcst, Mem(1, 1, r1, r2, DONE, DONE), LoadR2(r1), [], Worker(Hold, []), Worker(Hold, []), 0)
  }

  /** One worker is through before the other starts. */
  lemma OneFirst()
    ensures Reaches(Start(true), Collected(true, 0, 1)) && Reaches(Start(true), Collected(true, 1, 0))
  {
    hide Reaches;
    RoundOpens(true);
    var a1 := Open(true).(mem := Open(true).mem.(x := 1), a := Worker(Fence, []));
    var a2 := a1.(mem := a1.mem.(r1 := 0, gateA := DONE), a := Worker(Hold, []));
    var a3 := a2.(mem := a2.mem.(y := 1), b := Worker(Fence, []));
    var a4 := a3.(mem := a3.mem.(r2 := 1, gateB := DONE), b := Worker(Hold, []));
    ARaises(Open(true));
    AReports(a1);
    BRaises(a2);
    BReports(a3);
    MainCollects(a4);
    ReachesThrough(Start(true), Open(true), a1);
    ReachesThrough(Start(true), a1, a2);
    ReachesThrough(Start(true), a2, a3);
    ReachesThrough(Start(true), a3, a4);
    ReachesThrough(Start(true), a4, Collected(true, 0, 1));
    var b1 := Open(true).(mem := Open(true).mem.(y := 1), b := Worker(Fence, []));
    var b2 := b1.(mem := b1.mem.(r2 := 0, gateB := DONE), b := Worker(Hold, []));
    var b3 := b2.(mem := b2.mem.(x := 1), a := Worker(Fence, []));
    var b4 := b3.(mem := b3.mem.(r1 := 1, gateA := DONE), a := Worker(Hold, []));
    BRaises(Open(true));
    BReports(b1);
    ARaises(b2);
    AReports(b3);
    MainCollects(b4);
    ReachesThrough(Start(true), Open(true), b1);
    ReachesThrough(Start(true), b1, b2);
    ReachesThrough(Start(true), b2, b3);
    ReachesThrough(Start(true), b3, b4);
    ReachesThrough(Start(true), b4, Collected(true, 1, 0));
  }

  /** Both raise their flags before either looks. */
  lemma SideBySide()
    ensures Reaches(Start(true), Collected(true, 1, 1))
  {
    hide Reaches;
    RoundOpens(true);
    var m1 := Open(true).(mem := Open(true).mem.(x := 1), a := Worker(Fence, []));
    var m2 := m1.(mem := m1.mem.(y := 1), b := Worker(Fence, []));
    var m3 := m2.(mem := m2.mem.(r1 := 1, gateA := DONE), a := Worker(Hold, []));
    var m4 := m3.(mem := m3.mem.(r2 := 1, gateB := DONE), b := Worker(Hold, []));
    ARaises(Open(true));
    BRaises(m1);
    AReports(m2);
    BReports(m3);
    MainCollects(m4);
    ReachesThrough(Start(true), Open(true), m1);
    ReachesThrough(Start(true), m1, m2);
    ReachesThrough(Start(true), m2, m3);
    ReachesThrough(Start(true), m3, m4);
    ReachesThrough(Start(true), m4, Collected(true, 1, 1));
  }

  /** Main has loaded r1 and is about to load r2. */
  ghost predicate Outcome(m: Machine, r1: int, r2: int) {
    m.main == LoadR2(r1) && See(m.mem, m.buf, R2) == r2
  }

  /** The outcomes of a round are exactly (0,1), (1,0) and (1,1): each of them happens, and nothing else
      ever does, (0,0) included. */
  lemma OutcomesExactly(r1: int, r2: int)
    ensures (exists m :: Reaches(Start(true), m) && Outcome(m, r1, r2))
            <==> (r1 == 0 && r2 == 1) || (r1 == 1 && r2 == 0) || (r1 == 1 && r2 == 1)
  {
    if m :| Reaches(Start(true), m) && Outcome(m, r1, r2) {
      var steps :| Runs(Start(true), steps, m);
      StartInv();
      RunInv(Start(true), steps, m);
      MainSees(m);
    }
    OneFirst();
    SideBySide();
    hide Reaches;
    assert Outcome(Collected(true, 0, 1), 0, 1) && Outcome(Collected(true, 1, 0), 1, 0)
           && Outcome(Collected(true, 1, 1), 1, 1);
  }

  // ---------- the relaxed mode ----------

  /** With relaxed stores worker A may load the other flag while its own is still in its buffer. */
  lemma ALoadsEarly(m: Machine)
    requires !m.seqcst && m.a == Worker(Spin, []) && m.mem.gateA == RUN
    ensures Reaches(m, m.(a := Worker(Loaded(m.mem.y), [Write(X, 1)])))
  {
    hide Reaches;
    var m1 := m.(a := Worker(Begin, []));
    SeeShort(m.mem, [Write(X, 1)], Y);
    ReachesOne(m, StepA(SeeGate));
    ReachesTwo(m1, StepA(StoreFlag), StepA(LoadOther));
    ReachesThrough(m, m1, m.(a := Worker(Loaded(m.mem.y), [Write(X, 1)])));
  }

  lemma AReportsLate(m: Machine, v: int)
    requires m.a == Worker(Loaded(v), [Write(X, 1)])
    ensures Reaches(m, m.(mem := m.mem.(x := 1, r1 := v, gateA := DONE), a := Worker(Hold, [])))
  {
    hide Reaches;
    var m1 := m.(mem := m.mem.(x := 1), a := Worker(Loaded(v), []));
    var m2 := m1.(mem := m1.mem.(r1 := v), a := Worker(Reported, []));
    var m3 := m2.(mem := m2.mem.(gateA := DONE), a := Worker(Hold, []));
    Alone(Write(R1, v));
    Alone(Write(GateA, DONE));
    assert [Write(X, 1)][1..] == [];
    ReachesOne(m, FlushA);
    ReachesTwo(m1, StepA(StoreResult), FlushA);
    ReachesTwo(m2, StepA(StoreDone), FlushA);
    ReachesThrough(m, m1, m2);
    ReachesThrough(m, m2, m3);
  }

  lemma BLoadsEarly(m: Machine)
    requires !m.seqcst && m.b == Worker(Spin, []) && m.mem.gateB == RUN
    ensures Reaches(m, m.(b := Worker(Loaded(m.mem.x), [Write(Y, 1)])))
  {
    hide Reaches;
    var m1 := m.(b := Worker(Begin, []));
    SeeShort(m.mem, [Write(Y, 1)], X);
    ReachesOne(m, StepB(SeeGate));
    ReachesTwo(m1, StepB(StoreFlag), StepB(LoadOther));
    ReachesThrough(m, m1, m.(b := Worker(Loaded(m.mem.x), [Write(Y, 1)])));
  }

  lemma BReportsLate(m: Machine, v: int)
    requires m.b == Worker(Loaded(v), [Write(Y, 1)])
    ensures Reaches(m, m.(mem := m.mem.(y := 1, r2 := v, gateB := DONE), b := Worker(Hold, [])))
  {
    hide Reaches;
    var m1 := m.(mem := m.mem.(y := 1), b := Worker(Loaded(v), []));
    var m2 := m1.(mem := m1.mem.(r2 := v), b := Worker(Reported, []));
    var m3 := m2.(mem := m2.mem.(gateB := DONE), b := Worker(Hold, []));
    Alone(Write(R2, v));
    Alone(Write(GateB, DONE));
    assert [Write(Y, 1)][1..] == [];
    ReachesOne(m, FlushB);
    ReachesTwo(m1, StepB(StoreResult), FlushB);
    ReachesTwo(m2, StepB(StoreDone), FlushB);
    ReachesThrough(m, m1, m2);
    ReachesThrough(m, m2, m3);
  }

  /** With relaxed stores both loads can pass both stores: a (0,0) happens and is counted. */
  lemma RelaxedBothZero()
    ensures exists m :: Reaches(Start(false), m) && m.zeros == 1
  {
    hide Reaches;
    var s, m0 := Start(false), Open(false);
    var m1 := m0.(a := Worker(Loaded(0), [Write(X, 1)]));
    var m2 := m1.(b := Worker(Loaded(0), [Write(Y, 1)]));
    var m3 := m2.(mem := m2.mem.(x := 1, gateA := DONE), a := Worker(Hold, []));
    var m4 := m3.(mem := m3.mem.(y := 1, gateB := DONE), b := Worker(Hold, []));
    var m5 := Collected(false, 0, 0);
    RoundOpens(false);
    ALoadsEarly(m0);
    BLoadsEarly(m1);
    AReportsLate(m2, 0);
    BReportsLate(m3, 0);
    MainCollects(m4);
    ReachesOne(m5, MainLoad);
    ReachesThrough(s, m0, m1);
    ReachesThrough(s, m1, m2);
    ReachesThrough(s, m2, m3);
    ReachesThrough(s, m3, m4);
    ReachesThrough(s, m4, m5);
    ReachesThrough(s, m5, Go(m5, MainLoad));
  }

  // ---------- the end ----------

  /** Both workers can be stopped. */
  lemma ShutdownHappens()
    ensures exists m :: Reaches(Start(true), m) && m.a.pc.Exit? && m.b.pc.Exit?
  {
    hide Reaches;
    var m1 := Start(true).(mem := Start(true).mem.(gateA := STOP), main := Issue(3, true));
    var m2 := m1.(mem := m1.mem.(gateB := STOP), main := Issue(4, true));
    var m3 := m2.(a := Worker(Exit, []), b := Worker(Exit, []));
    Alone(FINISH[2]);
    Alone(FINISH[3]);
    ReachesTwo(Start(true), MainStore(true), FlushMain);
    ReachesTwo(m1, MainStore(false), FlushMain);
    ReachesTwo(m2, StepA(SeeGate), StepB(SeeGate));
    ReachesThrough(Start(true), m1, m2);
    ReachesThrough(Start(true), m2, m3);
  }
}
