/** `ipc/src/pxsem/sem_prodcons4.c`: any number of producers and consumers share a ring of
    NBUFF slots through three counting semaphores. One step is one semaphore operation, one
    access to shared memory, or one update of a thread's own counter; a run is a schedule,
    the list of the threads that step. */
module SemProdCons4 {
  import opened Counting

  const NBUFF: nat := 10
  const MAXNTHREADS: nat := 100
  /** The least SEM_VALUE_MAX that POSIX.1-2017 allows. */
  const POSIX_SEM_VALUE_MAX: nat := 32767

  /** Where a producer stands: the name is the action it takes next. */
  datatype PPc =
    | PEmpty | PMutex | PTest
    | PExitStored | PExitMutex | PExitEmpty | PDone
    | PStore | PPut | PVal | PPostMutex | PPostStored | PCount

  datatype CPc =
    | CStored | CMutex | CTest
    | CExitStored | CExitMutex | CDone
    | CIndex | CCheck | CGet | CVal | CPostMutex | CPostEmpty | CCount

  datatype Sems = Sems(mutex: nat, nempty: nat, nstored: nat)

  /** The ring part of the shared struct. `got` records the values consumers read from it, in
      order, and `mismatches` how often the error branch ran. */
  datatype Ring = Ring(buf: seq<int>, nput: nat, nputval: nat, nget: nat, ngetval: nat,
                       got: seq<int>, mismatches: nat)

  /** `made` and `took` are the per-thread counters of `main`, `idx` the local `i` of each
      consumer. */
  datatype State = State(
    nitems: int, sem: Sems, ring: Ring,
    prod: seq<PPc>, made: seq<nat>,
    cons: seq<CPc>, idx: seq<nat>, took: seq<nat>)

  datatype Tid = Producer(i: nat) | Consumer(i: nat)

  function Init(nitems: int, nproducers: nat, nconsumers: nat): State {
    State(nitems, Sems(1, NBUFF, 0), Ring(seq(NBUFF, _ => 0), 0, 0, 0, 0, [], 0),
          seq(nproducers, _ => PEmpty), seq(nproducers, _ => 0),
          seq(nconsumers, _ => CStored), seq(nconsumers, _ => 0), seq(nconsumers, _ => 0))
  }

  predicate WellFormed(s: State) {
    |s.ring.buf| == NBUFF && |s.made| == |s.prod| && |s.idx| == |s.cons| && |s.took| == |s.cons|
    && forall j :: 0 <= j < |s.cons| ==> s.idx[j] < NBUFF
  }

  /** A thread that exists can step unless it has returned or waits on a semaphore at zero. */
  predicate Enabled(s: State, t: Tid) {
    match t
    case Producer(i) =>
      i < |s.prod| && s.prod[i] != PDone
      && (s.prod[i] == PEmpty ==> s.sem.nempty > 0)
      && (s.prod[i] == PMutex ==> s.sem.mutex > 0)
    case Consumer(j) =>
      j < |s.cons| && s.cons[j] != CDone
      && (s.cons[j] == CStored ==> s.sem.nstored > 0)
      && (s.cons[j] == CMutex ==> s.sem.mutex > 0)
  }

  // A producer's action, by its effect on the semaphores, on the ring, and on its own counter
  // and program counter.

  function SemsP(m: Sems, pc: PPc): Sems
    requires (pc.PEmpty? ==> m.nempty > 0) && (pc.PMutex? ==> m.mutex > 0)
  {
    match pc
    case PEmpty => m.(nempty := m.nempty - 1)
    case PMutex => m.(mutex := m.mutex - 1)
    case PExitStored => m.(nstored := m.nstored + 1)
    case PExitMutex => m.(mutex := m.mutex + 1)
    case PExitEmpty => m.(nempty := m.nempty + 1)
    case PPostMutex => m.(mutex := m.mutex + 1)
    case PPostStored => m.(nstored := m.nstored + 1)
    case _ => m
  }

  function RingP(r: Ring, pc: PPc): Ring
    requires |r.buf| == NBUFF
  {
    match pc
    case PStore => r.(buf := r.buf[r.nput % NBUFF := r.nputval])
    case PPut => r.(nput := r.nput + 1)
    case PVal => r.(nputval := r.nputval + 1)
    case _ => r
  }

  function NextP(full: bool, pc: PPc): PPc {
    match pc
    case PEmpty => PMutex
    case PMutex => PTest
    case PTest => if full then PExitStored else PStore
    case PExitStored => PExitMutex
    case PExitMutex => PExitEmpty
    case PExitEmpty => PDone
    case PDone => PDone
    case PStore => PPut
    case PPut => PVal
    case PVal => PPostMutex
    case PPostMutex => PPostStored
    case PPostStored => PCount
    case PCount => PEmpty
  }

  function StepProducer(s: State, i: nat): State
    requires WellFormed(s) && Enabled(s, Producer(i))
  {
    var pc := s.prod[i];
    s.(sem := SemsP(s.sem, pc),
       ring := RingP(s.ring, pc),
       made := if pc.PCount? then s.made[i := s.made[i] + 1] else s.made,
       prod := s.prod[i := NextP(s.ring.nput >= s.nitems, pc)])
  }

  function SemsC(m: Sems, pc: CPc): Sems
    requires (pc.CStored? ==> m.nstored > 0) && (pc.CMutex? ==> m.mutex > 0)
  {
    match pc
    case CStored => m.(nstored := m.nstored - 1)
    case CMutex => m.(mutex := m.mutex - 1)
    case CExitStored => m.(nstored := m.nstored + 1)
    case CExitMutex => m.(mutex := m.mutex + 1)
    case CPostMutex => m.(mutex := m.mutex + 1)
    case CPostEmpty => m.(nempty := m.nempty + 1)
    case _ => m
  }

  function RingC(r: Ring, pc: CPc, i: nat): Ring
    requires |r.buf| == NBUFF && i < NBUFF
  {
    match pc
    case CCheck => r.(got := r.got + [r.buf[i]], mismatches := r.mismatches + Ind(r.buf[i] != r.ngetval))
    case CGet => r.(nget := r.nget + 1)
    case CVal => r.(ngetval := r.ngetval + 1)
    case _ => r
  }

  function NextC(drained: bool, pc: CPc): CPc {
    match pc
    case CStored => CMutex
    case CMutex => CTest
    case CTest => if drained then CExitStored else CIndex
    case CExitStored => CExitMutex
    case CExitMutex => CDone
    case CDone => CDone
    case CIndex => CCheck
    case CCheck => CGet
    case CGet => CVal
    case CVal => CPostMutex
    case CPostMutex => CPostEmpty
    case CPostEmpty => CCount
    case CCount => CStored
  }

  function StepConsumer(s: State, j: nat): State
    requires WellFormed(s) && Enabled(s, Consumer(j))
  {
    var pc := s.cons[j];
    s.(sem := SemsC(s.sem, pc),
       ring := RingC(s.ring, pc, s.idx[j]),
       idx := if pc.CIndex? then s.idx[j := s.ring.nget % NBUFF] else s.idx,
       took := if pc.CCount? then s.took[j := s.took[j] + 1] else s.took,
       cons := s.cons[j := NextC(s.ring.nget >= s.nitems, pc)])
  }

  function Step(s: State, t: Tid): State
    requires WellFormed(s) && Enabled(s, t)
  {
    match t
    case Producer(i) => StepProducer(s, i)
    case Consumer(j) => StepConsumer(s, j)
  }

  lemma StepWellFormed(s: State, t: Tid)
    requires WellFormed(s) && Enabled(s, t)
    ensures WellFormed(Step(s, t))
  {}

  /** `ts` is a schedule the system can follow from `s`. */
  predicate Runs(s: State, ts: seq<Tid>)
    requires WellFormed(s)
    decreases |ts|
  {
    ts == [] || (Enabled(s, ts[0]) && (StepWellFormed(s, ts[0]); Runs(Step(s, ts[0]), ts[1..])))
  }

  function After(s: State, ts: seq<Tid>): (s': State)
    requires WellFormed(s) && Runs(s, ts)
    ensures WellFormed(s')
    decreases |ts|
  {
    if ts == [] then s else StepWellFormed(s, ts[0]); After(Step(s, ts[0]), ts[1..])
  }

  // ------------------------------------------------------------------------------------
  // The invariant. Each semaphore is tied to the threads that hold or owe its tokens.

  predicate PCritical(pc: PPc) {
    pc.PTest? || pc.PExitStored? || pc.PExitMutex? || pc.PStore? || pc.PPut? || pc.PVal? || pc.PPostMutex?
  }

  predicate CCritical(pc: CPc) {
    pc.CTest? || pc.CExitStored? || pc.CExitMutex? || pc.CIndex? || pc.CCheck? || pc.CGet? || pc.CVal? || pc.CPostMutex?
  }

  /** Producers that took an `nempty` token and have neither filled a slot nor returned it. */
  predicate PHoldsEmpty(pc: PPc) {
    pc.PMutex? || pc.PTest? || pc.PExitStored? || pc.PExitMutex? || pc.PExitEmpty? || pc.PStore? || pc.PPut?
  }

  /** Consumers that emptied a slot and have not posted `nempty`. */
  predicate COwesEmpty(pc: CPc) {
    pc.CVal? || pc.CPostMutex? || pc.CPostEmpty?
  }

  /** Producers that filled a slot and have not posted `nstored`. */
  predicate POwesStored(pc: PPc) {
    pc.PVal? || pc.PPostMutex? || pc.PPostStored?
  }

  /** Consumers that took an `nstored` token and have neither emptied a slot nor returned it. */
  predicate CHoldsStored(pc: CPc) {
    pc.CMutex? || pc.CTest? || pc.CIndex? || pc.CCheck? || pc.CGet? || pc.CExitStored?
  }

  /** Producers that have posted the `nstored` token with no item behind it (line 95). */
  predicate PExtra(pc: PPc) {
    pc.PExitMutex? || pc.PExitEmpty? || pc.PDone?
  }

  predicate PUncounted(pc: PPc) {
    pc.PVal? || pc.PPostMutex? || pc.PPostStored? || pc.PCount?
  }

  predicate CUncounted(pc: CPc) {
    pc.CVal? || pc.CPostMutex? || pc.CPostEmpty? || pc.CCount?
  }

  predicate AtVal(pc: PPc) {
    pc.PVal?
  }

  predicate AtCVal(pc: CPc) {
    pc.CVal?
  }

  predicate AtGet(pc: CPc) {
    pc.CGet?
  }

  predicate Tokens(s: State) {
    && s.sem.mutex + Count(s.prod, PCritical) + Count(s.cons, CCritical) == 1
    && s.sem.nempty + Count(s.prod, PHoldsEmpty) + s.ring.nput + Count(s.cons, COwesEmpty) == NBUFF + s.ring.nget
    && s.sem.nstored + Count(s.prod, POwesStored) + Count(s.cons, CHoldsStored) + s.ring.nget
       == s.ring.nput + Count(s.prod, PExtra)
  }

  predicate Counters(s: State) {
    && Sum(s.made) + Count(s.prod, PUncounted) == s.ring.nput
    && Sum(s.took) + Count(s.cons, CUncounted) == s.ring.nget
  }

  predicate Values(s: State) {
    && s.ring.nputval + Count(s.prod, AtVal) == s.ring.nput
    && s.ring.ngetval + Count(s.cons, AtCVal) == s.ring.nget
    && |s.ring.got| == s.ring.nget + Count(s.cons, AtGet)
  }

  predicate ProducerFacts(s: State)
    requires WellFormed(s)
  {
    forall i :: 0 <= i < |s.prod| ==>
      && ((s.prod[i].PStore? || s.prod[i].PPut?) ==> s.ring.nput < s.nitems)
      && (s.prod[i].PExitStored? || PExtra(s.prod[i]) ==> s.ring.nput >= s.nitems)
      && (s.prod[i] == PPut ==> s.ring.buf[s.ring.nput % NBUFF] == s.ring.nput)
  }

  predicate ConsumerFacts(s: State)
    requires WellFormed(s)
  {
    forall j :: 0 <= j < |s.cons| ==>
      && ((s.cons[j].CIndex? || s.cons[j].CCheck? || s.cons[j].CGet?) ==> s.ring.nget < s.nitems)
      && (s.cons[j] == CCheck ==> s.idx[j] == s.ring.nget % NBUFF)
      && ((s.cons[j].CExitStored? || s.cons[j].CExitMutex? || s.cons[j].CDone?) ==> s.ring.nget >= s.nitems)
  }

  predicate Contents(s: State)
    requires WellFormed(s)
  {
    && s.ring.nget <= s.ring.nput
    && (s.ring.nput == 0 || s.ring.nput <= s.nitems)
    && (forall k :: s.ring.nget <= k < s.ring.nput ==> s.ring.buf[k % NBUFF] == k)
    && (forall k :: 0 <= k < |s.ring.got| ==> s.ring.got[k] == k)
    && s.ring.mismatches == 0
  }

  predicate Inv(s: State) {
    WellFormed(s) && Tokens(s) && Counters(s) && Values(s) && Contents(s) && ProducerFacts(s) && ConsumerFacts(s)
  }

  lemma InitInv(nitems: int, np: nat, nc: nat)
    ensures Inv(Init(nitems, np, nc))
  {
    var s := Init(nitems, np, nc);
    CountZero(s.prod, PCritical);
    CountZero(s.prod, PHoldsEmpty);
    CountZero(s.prod, POwesStored);
    CountZero(s.prod, PExtra);
    CountZero(s.prod, PUncounted);
    CountZero(s.prod, AtVal);
    CountZero(s.cons, CCritical);
    CountZero(s.cons, COwesEmpty);
    CountZero(s.cons, CHoldsStored);
    CountZero(s.cons, CUncounted);
    CountZero(s.cons, AtCVal);
    CountZero(s.cons, AtGet);
    SumZeros(np);
    SumZeros(nc);
  }

  /** Mutual exclusion, as the steps use it: a thread in the critical section is alone there. */
  lemma AloneP(s: State, i: nat)
    requires Inv(s) && i < |s.prod| && PCritical(s.prod[i])
    ensures forall k :: 0 <= k < |s.prod| && PCritical(s.prod[k]) ==> k == i
    ensures forall j :: 0 <= j < |s.cons| ==> !CCritical(s.cons[j])
    ensures s.sem.mutex == 0 && Count(s.cons, CCritical) == 0
  {
    CountUpdate(s.prod, i, s.prod[i], PCritical);
    CountOne(s.prod, i, PCritical);
    CountZero(s.cons, CCritical);
  }

  lemma AloneC(s: State, j: nat)
    requires Inv(s) && j < |s.cons| && CCritical(s.cons[j])
    ensures forall k :: 0 <= k < |s.cons| && CCritical(s.cons[k]) ==> k == j
    ensures forall i :: 0 <= i < |s.prod| ==> !PCritical(s.prod[i])
    ensures s.sem.mutex == 0 && Count(s.prod, PCritical) == 0
  {
    CountUpdate(s.cons, j, s.cons[j], CCritical);
    CountOne(s.cons, j, CCritical);
    CountZero(s.prod, PCritical);
  }

  lemma StepTokensP(s: State, i: nat)
    requires WellFormed(s) && Tokens(s) && Enabled(s, Producer(i))
    ensures Tokens(StepProducer(s, i))
  {
    var pc := StepProducer(s, i).prod[i];
    CountUpdate(s.prod, i, pc, PCritical);
    CountUpdate(s.prod, i, pc, PHoldsEmpty);
    CountUpdate(s.prod, i, pc, POwesStored);
    CountUpdate(s.prod, i, pc, PExtra);
  }

  lemma StepTokensC(s: State, j: nat)
    requires WellFormed(s) && Tokens(s) && Enabled(s, Consumer(j))
    ensures Tokens(StepConsumer(s, j))
  {
    var pc := StepConsumer(s, j).cons[j];
    CountUpdate(s.cons, j, pc, CCritical);
    CountUpdate(s.cons, j, pc, COwesEmpty);
    CountUpdate(s.cons, j, pc, CHoldsStored);
  }

  lemma StepCountersP(s: State, i: nat)
    requires WellFormed(s) && Counters(s) && Enabled(s, Producer(i))
    ensures Counters(StepProducer(s, i))
  {
    var pc := StepProducer(s, i).prod[i];
    CountUpdate(s.prod, i, pc, PUncounted);
    SumUpdate(s.made, i, s.made[i] + 1);
  }

  lemma StepValuesP(s: State, i: nat)
    requires WellFormed(s) && Values(s) && Enabled(s, Producer(i))
    ensures Values(StepProducer(s, i))
  {
    CountUpdate(s.prod, i, StepProducer(s, i).prod[i], AtVal);
  }

  lemma StepValuesC(s: State, j: nat)
    requires WellFormed(s) && Values(s) && Enabled(s, Consumer(j))
    ensures Values(StepConsumer(s, j))
  {
    var pc := StepConsumer(s, j).cons[j];
    CountUpdate(s.cons, j, pc, AtCVal);
    CountUpdate(s.cons, j, pc, AtGet);
  }

  lemma StepCountersC(s: State, j: nat)
    requires WellFormed(s) && Counters(s) && Enabled(s, Consumer(j))
    ensures Counters(StepConsumer(s, j))
  {
    var pc := StepConsumer(s, j).cons[j];
    CountUpdate(s.cons, j, pc, CUncounted);
    SumUpdate(s.took, j, s.took[j] + 1);
  }

  /** A producer about to write has a slot: its `nempty` token is not backed by an item. */
  lemma SlotFree(s: State, i: nat)
    requires Inv(s) && i < |s.prod| && (s.prod[i].PStore? || s.prod[i].PPut?)
    ensures s.ring.nput < s.ring.nget + NBUFF
  {
    CountUpdate(s.prod, i, PDone, PHoldsEmpty);
  }

  /** A consumer past its test has an item, although its `nstored` token may be one of the
      extra ones: those exist only once `nput >= nitems`, and the test gave `nget < nitems`. */
  lemma ItemWaiting(s: State, j: nat)
    requires Inv(s) && j < |s.cons| && (s.cons[j].CIndex? || s.cons[j].CCheck? || s.cons[j].CGet?)
    ensures s.ring.nget < s.ring.nput
  {
    CountUpdate(s.cons, j, CDone, CHoldsStored);
    CountZero(s.prod, PExtra);
  }

  lemma StepFactsP(s: State, i: nat)
    requires Inv(s) && Enabled(s, Producer(i))
    ensures WellFormed(StepProducer(s, i))
    ensures ProducerFacts(StepProducer(s, i)) && ConsumerFacts(StepProducer(s, i))
  {
    if PCritical(s.prod[i]) {
      AloneP(s, i);
      CountZero(s.prod, AtVal);
    }
  }

  lemma StepContentsP(s: State, i: nat)
    requires Inv(s) && Enabled(s, Producer(i))
    ensures WellFormed(StepProducer(s, i)) && Contents(StepProducer(s, i))
  {
    if s.prod[i].PStore? {
      SlotFree(s, i);
      forall k | s.ring.nget <= k < s.ring.nput ensures k % NBUFF != s.ring.nput % NBUFF {
        SlotsDiffer(NBUFF, k, s.ring.nput);
      }
    }
  }

  lemma StepFactsC(s: State, j: nat)
    requires Inv(s) && Enabled(s, Consumer(j))
    ensures WellFormed(StepConsumer(s, j))
    ensures ProducerFacts(StepConsumer(s, j)) && ConsumerFacts(StepConsumer(s, j))
  {
    if CCritical(s.cons[j]) {
      AloneC(s, j);
    }
  }

  lemma StepContentsC(s: State, j: nat)
    requires Inv(s) && Enabled(s, Consumer(j))
    ensures WellFormed(StepConsumer(s, j)) && Contents(StepConsumer(s, j))
  {
    if s.cons[j].CCheck? || s.cons[j].CGet? {
      AloneC(s, j);
      ItemWaiting(s, j);
      CountZero(s.cons, AtCVal);
      CountZero(s.cons, AtGet);
    }
  }

  lemma StepInv(s: State, t: Tid)
    requires Inv(s) && Enabled(s, t)
    ensures Inv(Step(s, t))
  {
    match t {
      case Producer(i) => StepTokensP(s, i); StepCountersP(s, i); StepValuesP(s, i); StepFactsP(s, i); StepContentsP(s, i);
      case Consumer(j) => StepTokensC(s, j); StepCountersC(s, j); StepValuesC(s, j); StepFactsC(s, j); StepContentsC(s, j);
    }
  }

  lemma {:induction false} RunInv(s: State, ts: seq<Tid>)
    requires Inv(s) && Runs(s, ts)
    ensures Inv(After(s, ts)) && After(s, ts).nitems == s.nitems
    ensures |After(s, ts).prod| == |s.prod| && |After(s, ts).cons| == |s.cons|
    decreases |ts|
  {
    if ts != [] {
      StepInv(s, ts[0]);
      RunInv(Step(s, ts[0]), ts[1..]);
    }
  }

  // ------------------------------------------------------------------------------------
  // The counters that `main` prints for each thread.

  /** How many items producer i puts in a run: its steps that change `nput`. */
  function Puts(s: State, ts: seq<Tid>, i: nat): nat
    requires WellFormed(s) && Runs(s, ts)
    decreases |ts|
  {
    if ts == [] then 0
    else
      StepWellFormed(s, ts[0]);
      var s' := Step(s, ts[0]);
      Ind(ts[0] == Producer(i) && s'.ring.nput != s.ring.nput) + Puts(s', ts[1..], i)
  }

  /** How many items consumer j gets in a run: its steps that change `nget`. */
  function Gets(s: State, ts: seq<Tid>, j: nat): nat
    requires WellFormed(s) && Runs(s, ts)
    decreases |ts|
  {
    if ts == [] then 0
    else
      StepWellFormed(s, ts[0]);
      var s' := Step(s, ts[0]);
      Ind(ts[0] == Consumer(j) && s'.ring.nget != s.ring.nget) + Gets(s', ts[1..], j)
  }

  lemma {:induction false} PutsCounted(s: State, ts: seq<Tid>, i: nat)
    requires WellFormed(s) && Runs(s, ts) && i < |s.prod|
    ensures var s' := After(s, ts);
      && |s'.prod| == |s.prod|
      && s'.made[i] + Ind(PUncounted(s'.prod[i])) == s.made[i] + Ind(PUncounted(s.prod[i])) + Puts(s, ts, i)
    decreases |ts|
  {
    if ts != [] {
      StepWellFormed(s, ts[0]);
      PutsCounted(Step(s, ts[0]), ts[1..], i);
    }
  }

  lemma {:induction false} GetsCounted(s: State, ts: seq<Tid>, j: nat)
    requires WellFormed(s) && Runs(s, ts) && j < |s.cons|
    ensures var s' := After(s, ts);
      && |s'.cons| == |s.cons|
      && s'.took[j] + Ind(CUncounted(s'.cons[j])) == s.took[j] + Ind(CUncounted(s.cons[j])) + Gets(s, ts, j)
    decreases |ts|
  {
    if ts != [] {
      StepWellFormed(s, ts[0]);
      GetsCounted(Step(s, ts[0]), ts[1..], j);
    }
  }

  /** In every reachable state each thread's counter is the number of items that this thread has
      put or got, but for one it has not counted yet. */
  lemma {:induction false} OwnCounts(nitems: int, np: nat, nc: nat, ts: seq<Tid>)
    requires Runs(Init(nitems, np, nc), ts)
    ensures var s0 := Init(nitems, np, nc); var s := After(s0, ts);
      && |s.prod| == |s.made| == np && |s.cons| == |s.took| == nc
      && (forall i :: 0 <= i < np ==> s.made[i] + Ind(PUncounted(s.prod[i])) == Puts(s0, ts, i))
      && (forall j :: 0 <= j < nc ==> s.took[j] + Ind(CUncounted(s.cons[j])) == Gets(s0, ts, j))
  {
    var s0 := Init(nitems, np, nc);
    InitInv(nitems, np, nc);
    RunInv(s0, ts);
    forall i | 0 <= i < np
      ensures After(s0, ts).made[i] + Ind(PUncounted(After(s0, ts).prod[i])) == Puts(s0, ts, i)
    {
      PutsCounted(s0, ts, i);
    }
    forall j | 0 <= j < nc
      ensures After(s0, ts).took[j] + Ind(CUncounted(After(s0, ts).cons[j])) == Gets(s0, ts, j)
    {
      GetsCounted(s0, ts, j);
    }
  }

  // ------------------------------------------------------------------------------------
  // Safety of every run.

  /** In every reachable state the ring holds exactly the items put and not yet got, and what
      consumers read, in order, is 0, 1, 2, ...: the error branch never runs. */
  lemma {:induction false} Safety(nitems: int, np: nat, nc: nat, ts: seq<Tid>)
    requires Runs(Init(nitems, np, nc), ts)
    ensures var r := After(Init(nitems, np, nc), ts).ring;
      && r.nget <= r.nput <= r.nget + NBUFF
      && (forall k :: r.nget <= k < r.nput ==> r.buf[k % NBUFF] == k)
      && r.mismatches == 0
      && (forall k :: 0 <= k < |r.got| ==> r.got[k] == k)
      && r.nget <= |r.got| <= r.nget + 1
      && (r.nput == 0 || r.nput <= nitems)
    ensures var s := After(Init(nitems, np, nc), ts);
      forall j :: 0 <= j < |s.cons| && s.cons[j].CCheck? ==> s.ring.buf[s.idx[j]] == s.ring.ngetval
  {
    InitInv(nitems, np, nc);
    RunInv(Init(nitems, np, nc), ts);
    var s := After(Init(nitems, np, nc), ts);
    AtMostOneCritical(s);
    forall j | 0 <= j < |s.cons| && s.cons[j].CCheck? ensures s.ring.buf[s.idx[j]] == s.ring.ngetval {
      CheckSucceeds(s, j);
    }
  }

  /** The comparison of line 122 finds the value it expects. */
  lemma CheckSucceeds(s: State, j: nat)
    requires Inv(s) && j < |s.cons| && s.cons[j].CCheck?
    ensures s.ring.buf[s.idx[j]] == s.ring.ngetval
  {
    AloneC(s, j);
    ItemWaiting(s, j);
    CountZero(s.cons, AtCVal);
  }

  /** Mutual exclusion: at most one thread, producer or consumer, is in the critical section. */
  lemma AtMostOneCritical(s: State)
    requires Inv(s)
    ensures Count(s.cons, AtGet) <= 1
    ensures forall i, k :: 0 <= i < |s.prod| && 0 <= k < |s.prod| && PCritical(s.prod[i]) && PCritical(s.prod[k]) ==> i == k
    ensures forall i, j :: 0 <= i < |s.prod| && 0 <= j < |s.cons| ==> !(PCritical(s.prod[i]) && CCritical(s.cons[j]))
    ensures forall j, k :: 0 <= j < |s.cons| && 0 <= k < |s.cons| && CCritical(s.cons[j]) && CCritical(s.cons[k]) ==> j == k
  {
    CountMonotone(s.cons, AtGet, CCritical);
    forall i | 0 <= i < |s.prod| && PCritical(s.prod[i])
      ensures forall k :: 0 <= k < |s.prod| && PCritical(s.prod[k]) ==> k == i
      ensures forall j :: 0 <= j < |s.cons| ==> !CCritical(s.cons[j])
    {
      AloneP(s, i);
    }
    forall j | 0 <= j < |s.cons| && CCritical(s.cons[j])
      ensures forall k :: 0 <= k < |s.cons| && CCritical(s.cons[k]) ==> k == j
    {
      AloneC(s, j);
    }
  }

  /** In every reachable state at most one thread is in the critical section and no semaphore
      can overflow: with at most MAXNTHREADS producers every value stays below the POSIX
      minimum of SEM_VALUE_MAX. */
  lemma {:induction false} SemaphoresBounded(nitems: int, np: nat, nc: nat, ts: seq<Tid>)
    requires Runs(Init(nitems, np, nc), ts)
    ensures var s := After(Init(nitems, np, nc), ts);
      && s.sem.mutex + Count(s.prod, PCritical) + Count(s.cons, CCritical) == 1
      && s.sem.nempty <= NBUFF
      && s.sem.nstored <= NBUFF + np
      && (np <= MAXNTHREADS ==> s.sem.nstored < POSIX_SEM_VALUE_MAX)
  {
    InitInv(nitems, np, nc);
    RunInv(Init(nitems, np, nc), ts);
    CountBound(After(Init(nitems, np, nc), ts).prod, PExtra);
  }

  // ------------------------------------------------------------------------------------
  // Liveness: no reachable state is deadlocked, and every run is finite.

  ghost predicate Stuck(s: State) {
    forall t :: !Enabled(s, t)
  }

  predicate AllReturned(s: State) {
    && (forall i :: 0 <= i < |s.prod| ==> s.prod[i] == PDone)
    && (forall j :: 0 <= j < |s.cons| ==> s.cons[j] == CDone)
  }

  /** Where a stuck thread can stand: with the mutex free nobody waits for it, so every thread
      has returned or waits on its counting semaphore. */
  lemma StuckPlaces(s: State)
    requires Inv(s) && Stuck(s)
    ensures s.sem.mutex == 1
    ensures forall i :: 0 <= i < |s.prod| ==> s.prod[i].PDone? || (s.prod[i].PEmpty? && s.sem.nempty == 0)
    ensures forall j :: 0 <= j < |s.cons| ==> s.cons[j].CDone? || (s.cons[j].CStored? && s.sem.nstored == 0)
  {
    forall i | 0 <= i < |s.prod|
      ensures s.prod[i].PDone? || (s.prod[i].PEmpty? && s.sem.nempty == 0) || (s.prod[i].PMutex? && s.sem.mutex == 0)
    {
      assert !Enabled(s, Producer(i));
    }
    forall j | 0 <= j < |s.cons|
      ensures s.cons[j].CDone? || (s.cons[j].CStored? && s.sem.nstored == 0) || (s.cons[j].CMutex? && s.sem.mutex == 0)
    {
      assert !Enabled(s, Consumer(j));
    }
    CountZero(s.prod, PCritical);
    CountZero(s.cons, CCritical);
  }

  lemma StuckTokens(s: State)
    requires Inv(s) && Stuck(s)
    ensures s.sem.nempty + s.ring.nput == NBUFF + s.ring.nget
    ensures s.sem.nstored + s.ring.nget == s.ring.nput + Count(s.prod, PExtra)
    ensures Sum(s.made) == s.ring.nput && Sum(s.took) == s.ring.nget && |s.ring.got| == s.ring.nget
    ensures s.ring.nputval == s.ring.nput && s.ring.ngetval == s.ring.nget
  {
    StuckPlaces(s);
    CountZero(s.prod, PHoldsEmpty);
    CountZero(s.prod, POwesStored);
    CountZero(s.prod, PUncounted);
    CountZero(s.cons, COwesEmpty);
    CountZero(s.cons, CHoldsStored);
    CountZero(s.cons, CUncounted);
    CountZero(s.cons, AtGet);
    CountZero(s.prod, AtVal);
    CountZero(s.cons, AtCVal);
  }

  /** No deadlock: when no thread can step, all have returned. */
  lemma NoDeadlock(s: State)
    requires Inv(s) && Stuck(s) && |s.prod| >= 1 && |s.cons| >= 1
    ensures AllReturned(s)
  {
    StuckPlaces(s);
    StuckTokens(s);
    CountZero(s.prod, PExtra);
    var p, c := s.prod[0], s.cons[0];
  }

  function RankP(pc: PPc): nat {
    match pc
    case PVal => 11 case PPostMutex => 10 case PPostStored => 9 case PCount => 8
    case PEmpty => 7 case PMutex => 6 case PTest => 5 case PStore => 4 case PPut => 3
    case PExitStored => 3 case PExitMutex => 2 case PExitEmpty => 1 case PDone => 0
  }

  function RankC(pc: CPc): nat {
    match pc
    case CVal => 11 case CPostMutex => 10 case CPostEmpty => 9 case CCount => 8
    case CStored => 7 case CMutex => 6 case CTest => 5 case CIndex => 4 case CCheck => 3 case CGet => 2
    case CExitStored => 2 case CExitMutex => 1 case CDone => 0
  }

  function Items(nitems: int): nat {
    if nitems < 0 then 0 else nitems
  }

  /** The work left: it drops on every step. */
  function Work(s: State): int {
    9 * (Items(s.nitems) - s.ring.nput) + 10 * (Items(s.nitems) - s.ring.nget)
    + Total(s.prod, RankP) + Total(s.cons, RankC)
  }

  lemma WorkDropsP(s: State, i: nat)
    requires WellFormed(s) && ProducerFacts(s) && Enabled(s, Producer(i))
    ensures Work(StepProducer(s, i)) < Work(s)
  {
    TotalUpdate(s.prod, i, StepProducer(s, i).prod[i], RankP);
  }

  lemma WorkDropsC(s: State, j: nat)
    requires WellFormed(s) && ConsumerFacts(s) && Enabled(s, Consumer(j))
    ensures Work(StepConsumer(s, j)) < Work(s)
  {
    TotalUpdate(s.cons, j, StepConsumer(s, j).cons[j], RankC);
  }

  lemma WorkDrops(s: State, t: Tid)
    requires Inv(s) && Enabled(s, t)
    ensures 0 <= Work(Step(s, t)) < Work(s)
  {
    StepInv(s, t);
    match t {
      case Producer(i) => WorkDropsP(s, i);
      case Consumer(j) => WorkDropsC(s, j);
    }
  }

  lemma {:induction false} RunBounded(s: State, ts: seq<Tid>)
    requires Inv(s) && Runs(s, ts)
    ensures |ts| <= Work(s)
    decreases |ts|
  {
    if ts != [] {
      StepInv(s, ts[0]);
      WorkDrops(s, ts[0]);
      RunBounded(Step(s, ts[0]), ts[1..]);
    }
  }

  lemma InitWork(nitems: int, np: nat, nc: nat)
    ensures Work(Init(nitems, np, nc)) == 19 * Items(nitems) + 7 * (np + nc)
  {
    TotalEqual(np, PEmpty, RankP);
    TotalEqual(nc, CStored, RankC);
  }

  /** What every maximal run ends with. */
  predicate Finished(s: State, nitems: int, np: nat, nc: nat) {
    var n := if nitems < 0 then 0 else nitems;
    && AllReturned(s) && |s.prod| == |s.made| == np && |s.cons| == |s.took| == nc
    && s.ring.nput == s.ring.nputval == n && s.ring.nget == s.ring.ngetval == n
    && Sum(s.made) == n && Sum(s.took) == n
    && s.ring.got == Upto(n)
    && s.sem == Sems(1, NBUFF, np)
  }

  lemma StuckIsFinished(s: State)
    requires Inv(s) && Stuck(s) && |s.prod| >= 1 && |s.cons| >= 1
    ensures Finished(s, s.nitems, |s.prod|, |s.cons|)
  {
    NoDeadlock(s);
    StuckPlaces(s);
    StuckTokens(s);
    CountBound(s.prod, PExtra);
    GotAll(s.ring.got);
    assert s.prod[0].PDone? && s.cons[0].CDone?;
  }

  /** With at least one producer and one consumer every run is finite, and a run that cannot
      be extended has every thread returned, every item put and got once and in order, each
      thread's counter at the number of its own items, and all slots empty again. */
  lemma {:induction false} EveryMaximalRunFinishes(nitems: int, np: nat, nc: nat, ts: seq<Tid>)
    requires np >= 1 && nc >= 1 && Runs(Init(nitems, np, nc), ts)
    ensures |ts| <= 19 * Items(nitems) + 7 * (np + nc)
    ensures var s := After(Init(nitems, np, nc), ts);
      Stuck(s) ==>
        && Finished(s, nitems, np, nc)
        && (forall i :: 0 <= i < np ==> s.made[i] == Puts(Init(nitems, np, nc), ts, i))
        && (forall j :: 0 <= j < nc ==> s.took[j] == Gets(Init(nitems, np, nc), ts, j))
  {
    InitInv(nitems, np, nc);
    RunBounded(Init(nitems, np, nc), ts);
    InitWork(nitems, np, nc);
    RunInv(Init(nitems, np, nc), ts);
    if Stuck(After(Init(nitems, np, nc), ts)) {
      StuckIsFinished(After(Init(nitems, np, nc), ts));
      OwnCounts(nitems, np, nc, ts);
    }
  }

  // ------------------------------------------------------------------------------------
  // Exactly when the program can deadlock.

  /** From every state some schedule leads to a state where nobody can step. */
  lemma {:induction false} CanGetStuck(s: State) returns (ts: seq<Tid>)
    requires Inv(s)
    ensures Runs(s, ts) && Stuck(After(s, ts))
    decreases Work(s)
  {
    if Stuck(s) {
      ts := [];
    } else {
      var t :| Enabled(s, t);
      StepInv(s, t);
      WorkDrops(s, t);
      var rest := CanGetStuck(Step(s, t));
      ts := [t] + rest;
    }
  }

  /** Without consumers and with at least NBUFF items no producer ever leaves its loop: it
      only tests `nput` while holding one of the NBUFF tokens. */
  predicate NobodyLeaves(s: State) {
    && |s.cons| == 0 && s.ring.nget == 0 && s.nitems >= NBUFF
    && forall i :: 0 <= i < |s.prod| ==> !s.prod[i].PExitStored? && !PExtra(s.prod[i])
  }

  lemma {:induction false} NobodyLeavesRun(s: State, ts: seq<Tid>)
    requires Inv(s) && NobodyLeaves(s) && Runs(s, ts)
    ensures NobodyLeaves(After(s, ts))
    decreases |ts|
  {
    if ts != [] {
      StepInv(s, ts[0]);
      if s.prod[ts[0].i].PTest? {
        CountUpdate(s.prod, ts[0].i, PDone, PHoldsEmpty);
      }
      NobodyLeavesRun(Step(s, ts[0]), ts[1..]);
    }
  }

  predicate CanDeadlock(nitems: int, np: nat, nc: nat) {
    (np == 0 && nc >= 1) || (np >= 1 && nc == 0 && nitems >= NBUFF)
  }

  ghost predicate Deadlocks(nitems: int, np: nat, nc: nat, ts: seq<Tid>) {
    var s0 := Init(nitems, np, nc);
    Runs(s0, ts) && Stuck(After(s0, ts)) && !AllReturned(After(s0, ts))
  }

  /** A run can end with a thread blocked for ever if and only if there are consumers without
      producers, or producers without consumers and at least NBUFF items. */
  lemma {:induction false} DeadlockExactly(nitems: int, np: nat, nc: nat)
    ensures CanDeadlock(nitems, np, nc) <==> exists ts :: Deadlocks(nitems, np, nc, ts)
  {
    var s0 := Init(nitems, np, nc);
    InitInv(nitems, np, nc);
    if np == 0 && nc >= 1 {
      assert After(s0, []) == s0 && s0.cons[0] == CStored;
      assert Deadlocks(nitems, np, nc, []);
    } else if CanDeadlock(nitems, np, nc) {
      var ts := CanGetStuck(s0);
      NobodyLeavesRun(s0, ts);
      RunInv(s0, ts);
      assert !After(s0, ts).prod[0].PDone?;
      assert Deadlocks(nitems, np, nc, ts);
    } else {
      forall ts ensures !Deadlocks(nitems, np, nc, ts) {
        if Runs(s0, ts) && Stuck(After(s0, ts)) {
          RunInv(s0, ts);
          StuckReturned(After(s0, ts));
        }
      }
    }
  }

  lemma StuckReturned(s: State)
    requires Inv(s) && Stuck(s) && !CanDeadlock(s.nitems, |s.prod|, |s.cons|)
    ensures AllReturned(s)
  {
    if |s.prod| >= 1 && |s.cons| >= 1 {
      NoDeadlock(s);
    } else {
      StuckPlaces(s);
      StuckTokens(s);
      assert |s.cons| == 0 ==> s.took == [];
    }
  }
}
