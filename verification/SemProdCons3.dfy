/** `ipc/src/pxsem/sem_prodcons3.c`: any number of producers, one consumer that counts to
    `nitems`, a ring of NBUFF slots and three semaphores. A producer that finds nothing left
    to put returns its `nempty` token before it leaves. */
module SemProdCons3 {
  import opened Counting

  const NBUFF: nat := 10

  /** Where a producer stands: the name is the action it takes next. */
  datatype PPc =
    | PEmpty | PMutex | PTest
    | PExitEmpty | PExitMutex | PDone
    | PStore | PPut | PVal | PPostMutex | PPostStored | PCount

  datatype CPc = CTest | CStored | CMutex | CCheck | CPostMutex | CPostEmpty | CInc | CDone

  datatype Sems = Sems(mutex: nat, nempty: nat, nstored: nat)

  /** `got` records the values the consumer reads, `mismatches` how often its error branch ran. */
  datatype Ring = Ring(buf: seq<int>, nput: nat, nputval: nat, got: seq<int>, mismatches: nat)

  datatype State = State(nitems: int, sem: Sems, ring: Ring, prod: seq<PPc>, made: seq<nat>, cons: CPc, i: nat)

  datatype Tid = Producer(i: nat) | Consumer

  function Init(nitems: int, nproducers: nat): State {
    State(nitems, Sems(1, NBUFF, 0), Ring(seq(NBUFF, _ => 0), 0, 0, [], 0),
          seq(nproducers, _ => PEmpty), seq(nproducers, _ => 0), CTest, 0)
  }

  predicate WellFormed(s: State) {
    |s.ring.buf| == NBUFF && |s.made| == |s.prod|
  }

  predicate Enabled(s: State, t: Tid) {
    match t
    case Producer(i) =>
      i < |s.prod| && s.prod[i] != PDone
      && (s.prod[i] == PEmpty ==> s.sem.nempty > 0)
      && (s.prod[i] == PMutex ==> s.sem.mutex > 0)
    case Consumer =>
      s.cons != CDone
      && (s.cons == CStored ==> s.sem.nstored > 0)
      && (s.cons == CMutex ==> s.sem.mutex > 0)
  }

  function SemsP(m: Sems, pc: PPc): Sems
    requires (pc.PEmpty? ==> m.nempty > 0) && (pc.PMutex? ==> m.mutex > 0)
  {
    match pc
    case PEmpty => m.(nempty := m.nempty - 1)
    case PMutex => m.(mutex := m.mutex - 1)
    case PExitEmpty => m.(nempty := m.nempty + 1)
    case PExitMutex => m.(mutex := m.mutex + 1)
    case PPostMutex => m.(mutex := m.mutex + 1)
    case PPostStored => m.(nstored := m.nstored + 1)
    case _ => m
  }

  function RingP(r: Ring, pc: PPc): Ring
    requires |r.buf| == NBUFF
  {
    match pc
    case PStore => r.(buf := r.buf[r.nput % NBUFF := r.nputval])
    case PPut => r.(nput := r.nput + 1)
    case PVal => r.(nputval := r.nputval + 1)
    case _ => r
  }

  function NextP(full: bool, pc: PPc): PPc {
    match pc
    case PEmpty => PMutex
    case PMutex => PTest
    case PTest => if full then PExitEmpty else PStore
    case PExitEmpty => PExitMutex
    case PExitMutex => PDone
    case PDone => PDone
    case PStore => PPut
    case PPut => PVal
    case PVal => PPostMutex
    case PPostMutex => PPostStored
    case PPostStored => PCount
    case PCount => PEmpty
  }

  function StepProducer(s: State, i: nat): State
    requires WellFormed(s) && Enabled(s, Producer(i))
  {
    var pc := s.prod[i];
    s.(sem := SemsP(s.sem, pc),
       ring := RingP(s.ring, pc),
       made := if pc.PCount? then s.made[i := s.made[i] + 1] else s.made,
       prod := s.prod[i := NextP(s.ring.nput >= s.nitems, pc)])
  }

  function StepConsumer(s: State): State
    requires WellFormed(s) && Enabled(s, Consumer)
  {
    match s.cons
    case CTest => s.(cons := if s.i < s.nitems then CStored else CDone)
    case CStored => s.(sem := s.sem.(nstored := s.sem.nstored - 1), cons := CMutex)
    case CMutex => s.(sem := s.sem.(mutex := s.sem.mutex - 1), cons := CCheck)
    case CCheck =>
      var v := s.ring.buf[s.i % NBUFF];
      s.(ring := s.ring.(got := s.ring.got + [v], mismatches := s.ring.mismatches + Ind(v != s.i)),
         cons := CPostMutex)
    case CPostMutex => s.(sem := s.sem.(mutex := s.sem.mutex + 1), cons := CPostEmpty)
    case CPostEmpty => s.(sem := s.sem.(nempty := s.sem.nempty + 1), cons := CInc)
    case CInc => s.(i := s.i + 1, cons := CTest)
  }

  function Step(s: State, t: Tid): State
    requires WellFormed(s) && Enabled(s, t)
  {
    match t
    case Producer(i) => StepProducer(s, i)
    case Consumer => StepConsumer(s)
  }

  lemma StepWellFormed(s: State, t: Tid)
    requires WellFormed(s) && Enabled(s, t)
    ensures WellFormed(Step(s, t))
  {}

  /** `ts` is a schedule the system can follow from `s`. */
  predicate Runs(s: State, ts: seq<Tid>)
    requires WellFormed(s)
    decreases |ts|
  {
    ts == [] || (Enabled(s, ts[0]) && (StepWellFormed(s, ts[0]); Runs(Step(s, ts[0]), ts[1..])))
  }

  function After(s: State, ts: seq<Tid>): (s': State)
    requires WellFormed(s) && Runs(s, ts)
    ensures WellFormed(s')
    decreases |ts|
  {
    if ts == [] then s else StepWellFormed(s, ts[0]); After(Step(s, ts[0]), ts[1..])
  }

  // ------------------------------------------------------------------------------------
  // The invariant.

  predicate PCritical(pc: PPc) {
    pc.PTest? || pc.PExitEmpty? || pc.PExitMutex? || pc.PStore? || pc.PPut? || pc.PVal? || pc.PPostMutex?
  }

  predicate PHoldsEmpty(pc: PPc) {
    pc.PMutex? || pc.PTest? || pc.PExitEmpty? || pc.PStore? || pc.PPut?
  }

  predicate POwesStored(pc: PPc) {
    pc.PVal? || pc.PPostMutex? || pc.PPostStored?
  }

  predicate PUncounted(pc: PPc) {
    pc.PVal? || pc.PPostMutex? || pc.PPostStored? || pc.PCount?
  }

  predicate PAtVal(pc: PPc) {
    pc.PVal?
  }

  predicate CCritical(pc: CPc) {
    pc.CCheck? || pc.CPostMutex?
  }

  predicate CHoldsStored(pc: CPc) {
    pc.CMutex? || pc.CCheck? || pc.CPostMutex? || pc.CPostEmpty? || pc.CInc?
  }

  predicate CHasRead(pc: CPc) {
    pc.CPostMutex? || pc.CPostEmpty? || pc.CInc?
  }

  /** The first item whose slot is still the consumer's. */
  function First(s: State): nat {
    s.i + Ind(s.cons.CInc?)
  }

  predicate Tokens(s: State) {
    && s.sem.mutex + Count(s.prod, PCritical) + Ind(CCritical(s.cons)) == 1
    && s.sem.nempty + Count(s.prod, PHoldsEmpty) + s.ring.nput == NBUFF + First(s)
    && s.sem.nstored + Count(s.prod, POwesStored) + Ind(CHoldsStored(s.cons)) + s.i == s.ring.nput
  }

  predicate Counters(s: State) {
    && Sum(s.made) + Count(s.prod, PUncounted) == s.ring.nput
    && s.ring.nputval + Count(s.prod, PAtVal) == s.ring.nput
  }

  predicate Contents(s: State)
    requires WellFormed(s)
  {
    && (s.ring.nput == 0 || s.ring.nput <= s.nitems)
    && (forall k :: First(s) <= k < s.ring.nput ==> s.ring.buf[k % NBUFF] == k)
    && s.ring.mismatches == 0
    && |s.ring.got| == s.i + Ind(CHasRead(s.cons))
    && (forall k :: 0 <= k < |s.ring.got| ==> s.ring.got[k] == k)
    && (s.cons.CDone? ==> s.i >= s.nitems)
    && (!s.cons.CDone? && !s.cons.CTest? ==> s.i < s.nitems)
  }

  predicate ProducerFacts(s: State)
    requires WellFormed(s)
  {
    forall i :: 0 <= i < |s.prod| ==>
      && (s.prod[i].PStore? || s.prod[i].PPut? ==> s.ring.nput < s.nitems)
      && (s.prod[i].PExitEmpty? || s.prod[i].PExitMutex? || s.prod[i].PDone? ==> s.ring.nput >= s.nitems)
      && (s.prod[i].PPut? ==> s.ring.buf[s.ring.nput % NBUFF] == s.ring.nput)
  }

  predicate Inv(s: State) {
    WellFormed(s) && Tokens(s) && Counters(s) && Contents(s) && ProducerFacts(s)
  }

  lemma InitInv(nitems: int, np: nat)
    ensures Inv(Init(nitems, np))
  {
    var s := Init(nitems, np);
    CountZero(s.prod, PCritical);
    CountZero(s.prod, PHoldsEmpty);
    CountZero(s.prod, POwesStored);
    CountZero(s.prod, PUncounted);
    CountZero(s.prod, PAtVal);
    SumZeros(np);
  }

  lemma StepTokensP(s: State, i: nat)
    requires WellFormed(s) && Tokens(s) && Enabled(s, Producer(i))
    ensures Tokens(StepProducer(s, i))
  {
    var pc := StepProducer(s, i).prod[i];
    CountUpdate(s.prod, i, pc, PCritical);
    CountUpdate(s.prod, i, pc, PHoldsEmpty);
    CountUpdate(s.prod, i, pc, POwesStored);
  }

  lemma StepCountersP(s: State, i: nat)
    requires WellFormed(s) && Counters(s) && Enabled(s, Producer(i))
    ensures Counters(StepProducer(s, i))
  {
    var pc := StepProducer(s, i).prod[i];
    CountUpdate(s.prod, i, pc, PUncounted);
    CountUpdate(s.prod, i, pc, PAtVal);
    SumUpdate(s.made, i, s.made[i] + 1);
  }

  lemma StepFactsP(s: State, i: nat)
    requires Inv(s) && Enabled(s, Producer(i))
    ensures WellFormed(StepProducer(s, i)) && ProducerFacts(StepProducer(s, i))
  {
    if PCritical(s.prod[i]) {
      CountUpdate(s.prod, i, s.prod[i], PCritical);
      CountOne(s.prod, i, PCritical);
      CountZero(s.prod, PAtVal);
    }
  }

  lemma StepContentsP(s: State, i: nat)
    requires Inv(s) && Enabled(s, Producer(i))
    ensures WellFormed(StepProducer(s, i)) && Contents(StepProducer(s, i))
  {
    if s.prod[i].PStore? {
      CountUpdate(s.prod, i, PDone, PHoldsEmpty);
      forall k | First(s) <= k < s.ring.nput ensures k % NBUFF != s.ring.nput % NBUFF {
        SlotsDiffer(NBUFF, k, s.ring.nput);
      }
    }
  }

  lemma StepInv(s: State, t: Tid)
    requires Inv(s) && Enabled(s, t)
    ensures Inv(Step(s, t))
  {
    match t {
      case Producer(i) => StepTokensP(s, i); StepCountersP(s, i); StepFactsP(s, i); StepContentsP(s, i);
      case Consumer =>
    }
  }

  lemma {:induction false} RunInv(s: State, ts: seq<Tid>)
    requires Inv(s) && Runs(s, ts)
    ensures Inv(After(s, ts)) && After(s, ts).nitems == s.nitems && |After(s, ts).prod| == |s.prod|
    decreases |ts|
  {
    if ts != [] {
      StepInv(s, ts[0]);
      RunInv(Step(s, ts[0]), ts[1..]);
    }
  }

  // ------------------------------------------------------------------------------------
  // The counters that `main` prints for each producer.

  /** How many items producer i puts in a run: its steps that change `nput`. */
  function Puts(s: State, ts: seq<Tid>, i: nat): nat
    requires WellFormed(s) && Runs(s, ts)
    decreases |ts|
  {
    if ts == [] then 0
    else
      StepWellFormed(s, ts[0]);
      var s' := Step(s, ts[0]);
      Ind(ts[0] == Producer(i) && s'.ring.nput != s.ring.nput) + Puts(s', ts[1..], i)
  }

  lemma {:induction false} PutsCounted(s: State, ts: seq<Tid>, i: nat)
    requires WellFormed(s) && Runs(s, ts) && i < |s.prod|
    ensures var s' := After(s, ts);
      && |s'.prod| == |s.prod|
      && s'.made[i] + Ind(PUncounted(s'.prod[i])) == s.made[i] + Ind(PUncounted(s.prod[i])) + Puts(s, ts, i)
    decreases |ts|
  {
    if ts != [] {
      StepWellFormed(s, ts[0]);
      PutsCounted(Step(s, ts[0]), ts[1..], i);
    }
  }

  /** In every reachable state each producer's counter is the number of items that it has put, but
      for one it has not counted yet. */
  lemma {:induction false} OwnCounts(nitems: int, np: nat, ts: seq<Tid>)
    requires Runs(Init(nitems, np), ts)
    ensures var s0 := Init(nitems, np); var s := After(s0, ts);
      && |s.prod| == |s.made| == np
      && (forall i :: 0 <= i < np ==> s.made[i] + Ind(PUncounted(s.prod[i])) == Puts(s0, ts, i))
  {
    var s0 := Init(nitems, np);
    InitInv(nitems, np);
    RunInv(s0, ts);
    forall i | 0 <= i < np
      ensures After(s0, ts).made[i] + Ind(PUncounted(After(s0, ts).prod[i])) == Puts(s0, ts, i)
    {
      PutsCounted(s0, ts, i);
    }
  }

  // ------------------------------------------------------------------------------------
  // Every run.

  /** The consumer reads 0, 1, 2, ... in order in every run, and never from a slot a producer
      is writing. */
  lemma {:induction false} Safety(nitems: int, np: nat, ts: seq<Tid>)
    requires Runs(Init(nitems, np), ts)
    ensures var s := After(Init(nitems, np), ts);
      && s.i <= s.ring.nput <= s.i + NBUFF + 1 && (s.ring.nput == 0 || s.ring.nput <= nitems)
      && s.ring.mismatches == 0
      && s.i <= |s.ring.got| <= s.i + 1
      && (forall k :: 0 <= k < |s.ring.got| ==> s.ring.got[k] == k)
      && (s.cons.CCheck? ==> s.i < s.ring.nput && s.ring.buf[s.i % NBUFF] == s.i && forall p :: 0 <= p < |s.prod| ==> !PCritical(s.prod[p]))
  {
    InitInv(nitems, np);
    RunInv(Init(nitems, np), ts);
    CountZero(After(Init(nitems, np), ts).prod, PCritical);
  }

  ghost predicate Stuck(s: State) {
    forall t :: !Enabled(s, t)
  }

  predicate AllReturned(s: State) {
    s.cons.CDone? && forall i :: 0 <= i < |s.prod| ==> s.prod[i] == PDone
  }

  lemma StuckPlaces(s: State)
    requires Inv(s) && Stuck(s)
    ensures s.sem.mutex == 1
    ensures forall i :: 0 <= i < |s.prod| ==> s.prod[i].PDone? || (s.prod[i].PEmpty? && s.sem.nempty == 0)
    ensures s.cons.CDone? || (s.cons.CStored? && s.sem.nstored == 0)
  {
    forall i | 0 <= i < |s.prod|
      ensures s.prod[i].PDone? || (s.prod[i].PEmpty? && s.sem.nempty == 0) || (s.prod[i].PMutex? && s.sem.mutex == 0)
    {
      assert !Enabled(s, Producer(i));
    }
    assert !Enabled(s, Consumer);
    CountZero(s.prod, PCritical);
  }

  lemma StuckTokens(s: State)
    requires Inv(s) && Stuck(s)
    ensures s.sem.nempty + s.ring.nput == NBUFF + s.i
    ensures s.sem.nstored + s.i == s.ring.nput
    ensures Sum(s.made) == s.ring.nput == s.ring.nputval && |s.ring.got| == s.i
  {
    StuckPlaces(s);
    CountZero(s.prod, PHoldsEmpty);
    CountZero(s.prod, POwesStored);
    CountZero(s.prod, PUncounted);
    CountZero(s.prod, PAtVal);
  }

  /** No deadlock: a producer that has returned gave its token back, so the others and the
      consumer can go on until all have returned. */
  lemma NoDeadlock(s: State)
    requires Inv(s) && Stuck(s) && (|s.prod| >= 1 || s.nitems <= 0)
    ensures AllReturned(s)
  {
    StuckPlaces(s);
    StuckTokens(s);
    if |s.prod| >= 1 {
      var p := s.prod[0];
    }
  }

  function RankP(pc: PPc): nat {
    match pc
    case PVal => 10 case PPostMutex => 9 case PPostStored => 8 case PCount => 7
    case PEmpty => 6 case PMutex => 5 case PTest => 4 case PStore => 3 case PPut => 2
    case PExitEmpty => 2 case PExitMutex => 1 case PDone => 0
  }

  function RankC(pc: CPc): nat {
    match pc
    case CTest => 6 case CStored => 5 case CMutex => 4 case CCheck => 3
    case CPostMutex => 2 case CPostEmpty => 1 case CInc => 0 case CDone => 0
  }

  function Items(nitems: int): nat {
    if nitems < 0 then 0 else nitems
  }

  /** The work left: it drops on every step. */
  function Work(s: State): int {
    9 * (Items(s.nitems) - s.ring.nput) + 7 * (Items(s.nitems) - s.i) + Total(s.prod, RankP) + RankC(s.cons)
  }

  lemma WorkDrops(s: State, t: Tid)
    requires Inv(s) && Enabled(s, t)
    ensures 0 <= Work(Step(s, t)) < Work(s)
  {
    StepInv(s, t);
    if t.Producer? {
      WorkDropsP(s, t.i);
    }
  }

  lemma WorkDropsP(s: State, i: nat)
    requires WellFormed(s) && ProducerFacts(s) && Enabled(s, Producer(i))
    ensures Work(StepProducer(s, i)) < Work(s)
  {
    TotalUpdate(s.prod, i, StepProducer(s, i).prod[i], RankP);
  }

  lemma {:induction false} RunBounded(s: State, ts: seq<Tid>)
    requires Inv(s) && Runs(s, ts)
    ensures |ts| <= Work(s)
    decreases |ts|
  {
    if ts != [] {
      StepInv(s, ts[0]);
      WorkDrops(s, ts[0]);
      RunBounded(Step(s, ts[0]), ts[1..]);
    }
  }

  lemma InitWork(nitems: int, np: nat)
    ensures Work(Init(nitems, np)) == 16 * Items(nitems) + 6 * np + 6
  {
    TotalEqual(np, PEmpty, RankP);
  }

  predicate Finished(s: State, nitems: int, np: nat) {
    var n := if nitems < 0 then 0 else nitems;
    && AllReturned(s) && |s.prod| == |s.made| == np
    && s.ring.nput == s.ring.nputval == n && s.i == n && Sum(s.made) == n
    && s.ring.got == Upto(n)
    && s.sem == Sems(1, NBUFF, 0)
  }

  /** With at least one producer every run is finite and one that cannot be extended has all
      threads returned, 0..nitems-1 consumed in order and each producer's counter at the number
      of its own items. */
  lemma {:induction false} EveryMaximalRunFinishes(nitems: int, np: nat, ts: seq<Tid>)
    requires np >= 1 && Runs(Init(nitems, np), ts)
    ensures |ts| <= 16 * Items(nitems) + 6 * np + 6
    ensures var s := After(Init(nitems, np), ts);
      Stuck(s) ==> Finished(s, nitems, np) && forall i :: 0 <= i < np ==> s.made[i] == Puts(Init(nitems, np), ts, i)
  {
    InitInv(nitems, np);
    RunBounded(Init(nitems, np), ts);
    InitWork(nitems, np);
    RunInv(Init(nitems, np), ts);
    var s := After(Init(nitems, np), ts);
    if Stuck(s) {
      NoDeadlock(s);
      StuckPlaces(s);
      StuckTokens(s);
      GotAll(s.ring.got);
      OwnCounts(nitems, np, ts);
      assert s.prod[0].PDone?;
    }
  }

  ghost predicate Deadlocks(nitems: int, np: nat, ts: seq<Tid>) {
    var s0 := Init(nitems, np);
    Runs(s0, ts) && Stuck(After(s0, ts)) && !AllReturned(After(s0, ts))
  }

  /** A run can end with a thread blocked if and only if there is no producer and something to
      consume. */
  lemma {:induction false} DeadlockExactly(nitems: int, np: nat)
    ensures (np == 0 && nitems > 0) <==> exists ts :: Deadlocks(nitems, np, ts)
  {
    var s0 := Init(nitems, np);
    if np == 0 && nitems > 0 {
      var ts := [Consumer];
      var s1 := Step(s0, Consumer);
      assert ts[1..] == [] && After(s1, []) == s1;
      assert Deadlocks(nitems, np, ts);
    } else {
      InitInv(nitems, np);
      forall ts ensures !Deadlocks(nitems, np, ts) {
        if Runs(s0, ts) && Stuck(After(s0, ts)) {
          RunInv(s0, ts);
          NoDeadlock(After(s0, ts));
        }
      }
    }
  }
}
