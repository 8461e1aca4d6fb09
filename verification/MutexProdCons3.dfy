/** `ipc/src/mutex/mutex_prodcons3.c`: producers fill an array under one mutex and announce
    each item under a second one, with a condition variable that wakes the one consumer. The
    consumer reads the array while holding neither mutex. */
module MutexProdCons3 {
  import opened Counting

  const MAXNITEMS: nat := 1000000

  /** Where a producer stands: the name is the action it takes next. */
  datatype PPc =
    | PLockPut | PTest | PExitUnlock | PDone
    | PStore | PPut | PVal | PUnlockPut
    | PLockReady | PSignalTest | PSignal | PReady | PUnlockReady | PCount

  /** `CSleep` is about to enter `pthread_cond_wait`, `CAsleep` sleeps in it with the mutex
      released, `CRelock` has been woken and waits for the mutex. */
  datatype CPc = CFor | CLock | CWhile | CSleep | CAsleep | CRelock | CTake | CUnlock | CCheck | CInc | CDone

  datatype Put = Put(locked: bool, nput: nat, nval: nat)
  datatype Ready = Ready(locked: bool, nready: int)

  /** The array. `got` records the values read, `mismatches` how often the error branch ran and
      `faults` how often an access fell outside the array. */
  datatype Mem = Mem(buf: seq<int>, got: seq<int>, mismatches: nat, faults: nat)

  datatype State = State(nitems: int, put: Put, ready: Ready, mem: Mem,
                         prod: seq<PPc>, made: seq<nat>, cons: CPc, i: nat)

  /** `Spurious` is a wake-up of the sleeping consumer with no signal, which POSIX allows. */
  datatype Tid = Producer(i: nat) | Consumer | Spurious

  function Init(n: int, nthreads: nat): State {
    State(if n < MAXNITEMS then n else MAXNITEMS,
          Put(false, 0, 0), Ready(false, 0), Mem(seq(MAXNITEMS, _ => 0), [], 0, 0),
          seq(nthreads, _ => PLockPut), seq(nthreads, _ => 0), CFor, 0)
  }

  predicate WellFormed(s: State) {
    |s.made| == |s.prod|
  }

  predicate Enabled(s: State, t: Tid) {
    match t
    case Producer(i) =>
      i < |s.prod| && s.prod[i] != PDone
      && (s.prod[i] == PLockPut ==> !s.put.locked)
      && (s.prod[i] == PLockReady ==> !s.ready.locked)
    case Consumer =>
      s.cons != CDone && s.cons != CAsleep
      && (s.cons == CLock || s.cons == CRelock ==> !s.ready.locked)
    case Spurious => s.cons == CAsleep
  }

  function PutP(p: Put, pc: PPc): Put {
    match pc
    case PLockPut => p.(locked := true)
    case PExitUnlock => p.(locked := false)
    case PPut => p.(nput := p.nput + 1)
    case PVal => p.(nval := p.nval + 1)
    case PUnlockPut => p.(locked := false)
    case _ => p
  }

  function ReadyP(r: Ready, pc: PPc): Ready {
    match pc
    case PLockReady => r.(locked := true)
    case PReady => r.(nready := r.nready + 1)
    case PUnlockReady => r.(locked := false)
    case _ => r
  }

  function Store(m: Mem, k: nat): Mem {
    if k < |m.buf| then m.(buf := m.buf[k := k]) else m.(faults := m.faults + 1)
  }

  function Load(m: Mem, k: nat): Mem {
    if k < |m.buf| then
      m.(got := m.got + [m.buf[k]], mismatches := m.mismatches + Ind(m.buf[k] != k))
    else
      m.(faults := m.faults + 1)
  }

  function NextP(full: bool, none: bool, pc: PPc): PPc {
    match pc
    case PLockPut => PTest
    case PTest => if full then PExitUnlock else PStore
    case PExitUnlock => PDone
    case PDone => PDone
    case PStore => PPut
    case PPut => PVal
    case PVal => PUnlockPut
    case PUnlockPut => PLockReady
    case PLockReady => PSignalTest
    case PSignalTest => if none then PSignal else PReady
    case PSignal => PReady
    case PReady => PUnlockReady
    case PUnlockReady => PCount
    case PCount => PLockPut
  }

  function StepProducer(s: State, i: nat): State
    requires WellFormed(s) && Enabled(s, Producer(i))
  {
    var pc := s.prod[i];
    s.(put := PutP(s.put, pc),
       ready := ReadyP(s.ready, pc),
       mem := if pc.PStore? then Store(s.mem, s.put.nput) else s.mem,
       cons := if pc.PSignal? && s.cons.CAsleep? then CRelock else s.cons,
       made := if pc.PCount? then s.made[i := s.made[i] + 1] else s.made,
       prod := s.prod[i := NextP(s.put.nput >= s.nitems, s.ready.nready == 0, pc)])
  }

  function StepConsumer(s: State): State
    requires Enabled(s, Consumer)
  {
    match s.cons
    case CFor => s.(cons := if s.i < s.nitems then CLock else CDone)
    case CLock => s.(ready := s.ready.(locked := true), cons := CWhile)
    case CWhile => s.(cons := if s.ready.nready == 0 then CSleep else CTake)
    case CSleep => s.(ready := s.ready.(locked := false), cons := CAsleep)
    case CRelock => s.(ready := s.ready.(locked := true), cons := CWhile)
    case CTake => s.(ready := s.ready.(nready := s.ready.nready - 1), cons := CUnlock)
    case CUnlock => s.(ready := s.ready.(locked := false), cons := CCheck)
    case CCheck => s.(mem := Load(s.mem, s.i), cons := CInc)
    case CInc => s.(i := s.i + 1, cons := CFor)
  }

  function Step(s: State, t: Tid): (s': State)
    requires WellFormed(s) && Enabled(s, t)
    ensures WellFormed(s')
  {
    match t
    case Producer(i) => StepProducer(s, i)
    case Consumer => StepConsumer(s)
    case Spurious => s.(cons := CRelock)
  }

  /** `ts` is a schedule the system can follow from `s`. */
  predicate Runs(s: State, ts: seq<Tid>)
    requires WellFormed(s)
    decreases |ts|
  {
    ts == [] || (Enabled(s, ts[0]) && Runs(Step(s, ts[0]), ts[1..]))
  }

  function After(s: State, ts: seq<Tid>): (s': State)
    requires WellFormed(s) && Runs(s, ts)
    ensures WellFormed(s')
    decreases |ts|
  {
    if ts == [] then s else After(Step(s, ts[0]), ts[1..])
  }

  // ------------------------------------------------------------------------------------
  // The invariant.

  predicate PHoldsPut(pc: PPc) {
    pc.PTest? || pc.PExitUnlock? || pc.PStore? || pc.PPut? || pc.PVal? || pc.PUnlockPut?
  }

  predicate PHoldsReady(pc: PPc) {
    pc.PSignalTest? || pc.PSignal? || pc.PReady? || pc.PUnlockReady?
  }

  /** Producers that have put an item and not yet announced it. */
  predicate PBetween(pc: PPc) {
    pc.PVal? || pc.PUnlockPut? || pc.PLockReady? || pc.PSignalTest? || pc.PSignal? || pc.PReady?
  }

  predicate PUncounted(pc: PPc) {
    PBetween(pc) || pc.PUnlockReady? || pc.PCount?
  }

  predicate PAtVal(pc: PPc) {
    pc.PVal?
  }

  predicate CHoldsReady(pc: CPc) {
    pc.CWhile? || pc.CSleep? || pc.CTake? || pc.CUnlock?
  }

  /** The items the consumer has taken off `nready`. */
  function Taken(s: State): nat {
    s.i + Ind(s.cons.CUnlock? || s.cons.CCheck? || s.cons.CInc?)
  }

  predicate Locks(s: State) {
    && Count(s.prod, PHoldsPut) == Ind(s.put.locked)
    && Count(s.prod, PHoldsReady) + Ind(CHoldsReady(s.cons)) == Ind(s.ready.locked)
  }

  /** Every item put is announced, about to be announced, or taken. */
  predicate Announced(s: State) {
    s.ready.nready + Taken(s) + Count(s.prod, PBetween) == s.put.nput
  }

  predicate Counters(s: State) {
    && Sum(s.made) + Count(s.prod, PUncounted) == s.put.nput
    && s.put.nval + Count(s.prod, PAtVal) == s.put.nput
  }

  predicate ProducerFacts(s: State) {
    forall i :: 0 <= i < |s.prod| ==>
      && (s.prod[i].PStore? || s.prod[i].PPut? ==> s.put.nput < s.nitems)
      && (s.prod[i].PExitUnlock? || s.prod[i].PDone? ==> s.put.nput >= s.nitems)
      && (s.prod[i].PPut? ==> s.put.nput < |s.mem.buf| && s.mem.buf[s.put.nput] == s.put.nput)
      && (s.prod[i].PReady? ==> !s.cons.CAsleep?)
  }

  /** The consumer's part; its second line is that no wake-up is lost. */
  predicate ConsumerFacts(s: State) {
    && s.ready.nready >= 0
    && (s.cons.CSleep? || s.cons.CAsleep? ==> s.ready.nready == 0)
    && (s.cons.CTake? ==> s.ready.nready > 0)
    && (s.cons.CDone? ==> s.i >= s.nitems)
    && (!s.cons.CDone? && !s.cons.CFor? ==> s.i < s.nitems)
  }

  predicate Contents(s: State) {
    && s.nitems <= MAXNITEMS && |s.mem.buf| == MAXNITEMS
    && (s.put.nput == 0 || s.put.nput <= s.nitems)
    && (forall k :: 0 <= k < s.put.nput ==> s.mem.buf[k] == k)
    && s.mem.mismatches == 0 && s.mem.faults == 0
    && |s.mem.got| == s.i + Ind(s.cons.CInc?)
    && (forall k :: 0 <= k < |s.mem.got| ==> s.mem.got[k] == k)
  }

  predicate Inv(s: State) {
    WellFormed(s) && Locks(s) && Announced(s) && Counters(s) && ProducerFacts(s) && ConsumerFacts(s) && Contents(s)
  }

  lemma InitInv(n: int, np: nat)
    ensures Inv(Init(n, np))
  {
    var s := Init(n, np);
    CountZero(s.prod, PHoldsPut);
    CountZero(s.prod, PHoldsReady);
    CountZero(s.prod, PBetween);
    CountZero(s.prod, PUncounted);
    CountZero(s.prod, PAtVal);
    SumZeros(np);
  }

  lemma StepLocksP(s: State, i: nat)
    requires WellFormed(s) && Locks(s) && Announced(s) && Enabled(s, Producer(i))
    ensures Locks(StepProducer(s, i)) && Announced(StepProducer(s, i))
  {
    var pc := StepProducer(s, i).prod[i];
    CountUpdate(s.prod, i, pc, PHoldsPut);
    CountUpdate(s.prod, i, pc, PHoldsReady);
    CountUpdate(s.prod, i, pc, PBetween);
  }

  lemma StepCountersP(s: State, i: nat)
    requires WellFormed(s) && Counters(s) && Enabled(s, Producer(i))
    ensures Counters(StepProducer(s, i))
  {
    var pc := StepProducer(s, i).prod[i];
    CountUpdate(s.prod, i, pc, PUncounted);
    CountUpdate(s.prod, i, pc, PAtVal);
    SumUpdate(s.made, i, s.made[i] + 1);
  }

  /** A producer that holds a mutex holds it alone. */
  lemma Alone(s: State, i: nat)
    requires Locks(s) && i < |s.prod|
    ensures PHoldsPut(s.prod[i]) ==> forall k :: 0 <= k < |s.prod| && PHoldsPut(s.prod[k]) ==> k == i
    ensures PHoldsReady(s.prod[i]) ==> !CHoldsReady(s.cons)
  {
    CountUpdate(s.prod, i, s.prod[i], PHoldsPut);
    CountUpdate(s.prod, i, s.prod[i], PHoldsReady);
    if PHoldsPut(s.prod[i]) {
      CountOne(s.prod, i, PHoldsPut);
    }
  }

  lemma StepFactsP(s: State, i: nat)
    requires Inv(s) && Enabled(s, Producer(i))
    ensures ProducerFacts(StepProducer(s, i)) && ConsumerFacts(StepProducer(s, i))
  {
    Alone(s, i);
  }

  lemma StepContentsP(s: State, i: nat)
    requires Inv(s) && Enabled(s, Producer(i))
    ensures Contents(StepProducer(s, i))
  {}

  lemma StepTokensC(s: State)
    requires WellFormed(s) && Locks(s) && Announced(s) && Counters(s) && Enabled(s, Consumer)
    ensures WellFormed(StepConsumer(s)) && Locks(StepConsumer(s)) && Announced(StepConsumer(s)) && Counters(StepConsumer(s))
  {}

  lemma StepFactsC(s: State)
    requires Inv(s) && Enabled(s, Consumer)
    ensures ProducerFacts(StepConsumer(s)) && ConsumerFacts(StepConsumer(s))
  {
    CountZero(s.prod, PHoldsReady);
  }

  lemma StepContentsC(s: State)
    requires Inv(s) && Enabled(s, Consumer)
    ensures Contents(StepConsumer(s))
  {}

  lemma StepInv(s: State, t: Tid)
    requires Inv(s) && Enabled(s, t)
    ensures Inv(Step(s, t))
  {
    match t {
      case Producer(i) => StepLocksP(s, i); StepCountersP(s, i); StepFactsP(s, i); StepContentsP(s, i);
      case Consumer => StepTokensC(s); StepFactsC(s); StepContentsC(s);
      case Spurious =>
    }
  }

  lemma {:induction false} RunInv(s: State, ts: seq<Tid>)
    requires Inv(s) && Runs(s, ts)
    ensures Inv(After(s, ts)) && After(s, ts).nitems == s.nitems && |After(s, ts).prod| == |s.prod|
    decreases |ts|
  {
    if ts != [] {
      StepInv(s, ts[0]);
      RunInv(Step(s, ts[0]), ts[1..]);
    }
  }

  // ------------------------------------------------------------------------------------
  // The counters that `main` prints for each producer.

  /** How many items producer i puts in a run: its steps that change `nput`. */
  function Puts(s: State, ts: seq<Tid>, i: nat): nat
    requires WellFormed(s) && Runs(s, ts)
    decreases |ts|
  {
    if ts == [] then 0
    else
      var s' := Step(s, ts[0]);
      Ind(ts[0] == Producer(i) && s'.put.nput != s.put.nput) + Puts(s', ts[1..], i)
  }

  lemma {:induction false} PutsCounted(s: State, ts: seq<Tid>, i: nat)
    requires WellFormed(s) && Runs(s, ts) && i < |s.prod|
    ensures var s' := After(s, ts);
      && |s'.prod| == |s.prod|
      && s'.made[i] + Ind(PUncounted(s'.prod[i])) == s.made[i] + Ind(PUncounted(s.prod[i])) + Puts(s, ts, i)
    decreases |ts|
  {
    if ts != [] {
      PutsCounted(Step(s, ts[0]), ts[1..], i);
    }
  }

  /** In every reachable state each producer's counter is the number of items that it has put, but
      for one it has not counted yet. */
  lemma {:induction false} OwnCounts(n: int, np: nat, ts: seq<Tid>)
    requires Runs(Init(n, np), ts)
    ensures var s0 := Init(n, np); var s := After(s0, ts);
      && |s.prod| == |s.made| == np
      && (forall i :: 0 <= i < np ==> s.made[i] + Ind(PUncounted(s.prod[i])) == Puts(s0, ts, i))
  {
    var s0 := Init(n, np);
    InitInv(n, np);
    RunInv(s0, ts);
    forall i | 0 <= i < np
      ensures After(s0, ts).made[i] + Ind(PUncounted(After(s0, ts).prod[i])) == Puts(s0, ts, i)
    {
      PutsCounted(s0, ts, i);
    }
  }

  // ------------------------------------------------------------------------------------
  // Every run, spurious wake-ups included.

  /** Every item put is announced, on its way to be announced, or taken; a sleeping consumer
      has nothing to take; the consumer reads 0, 1, 2, ... from slots already written, and no
      producer writes the slot it reads although it holds no lock. */
  lemma {:induction false} Safety(n: int, np: nat, ts: seq<Tid>)
    requires Runs(Init(n, np), ts)
    ensures var s := After(Init(n, np), ts);
      && s.ready.nready + Taken(s) + Count(s.prod, PBetween) == s.put.nput
      && (s.cons.CAsleep? ==> s.ready.nready == 0)
      && s.mem.mismatches == 0 && s.mem.faults == 0
      && s.i <= |s.mem.got| && (forall k :: 0 <= k < |s.mem.got| ==> s.mem.got[k] == k)
      && (s.cons.CCheck? ==> s.i < s.put.nput <= |s.mem.buf| && s.mem.buf[s.i] == s.i)
  {
    InitInv(n, np);
    RunInv(Init(n, np), ts);
  }

  /** No thread can step, spurious wake-ups aside. */
  ghost predicate Stuck(s: State) {
    !Enabled(s, Consumer) && forall i :: !Enabled(s, Producer(i))
  }

  predicate AllReturned(s: State) {
    s.cons.CDone? && forall i :: 0 <= i < |s.prod| ==> s.prod[i] == PDone
  }

  /** Both mutexes are free in a stuck state, so producers have returned and the consumer has
      returned or sleeps. */
  lemma StuckPlaces(s: State)
    requires Inv(s) && Stuck(s)
    ensures forall i :: 0 <= i < |s.prod| ==> s.prod[i].PDone?
    ensures s.cons.CDone? || s.cons.CAsleep?
    ensures s.ready.nready + s.i == s.put.nput && Sum(s.made) == s.put.nput == s.put.nval
  {
    forall i | 0 <= i < |s.prod|
      ensures s.prod[i].PDone? || (s.prod[i].PLockPut? && s.put.locked) || (s.prod[i].PLockReady? && s.ready.locked)
    {
      assert !Enabled(s, Producer(i));
    }
    CountZero(s.prod, PHoldsPut);
    CountZero(s.prod, PHoldsReady);
    CountZero(s.prod, PBetween);
    CountZero(s.prod, PUncounted);
    CountZero(s.prod, PAtVal);
  }

  /** No lost wake-up: with a producer, a state where no thread can step has all returned. */
  lemma NoDeadlock(s: State)
    requires Inv(s) && Stuck(s) && (|s.prod| >= 1 || s.nitems <= 0)
    ensures AllReturned(s)
  {
    StuckPlaces(s);
    if |s.prod| >= 1 {
      var p := s.prod[0];
    }
  }

  function RankP(pc: PPc): nat {
    match pc
    case PVal => 16 case PUnlockPut => 15 case PLockReady => 14 case PSignalTest => 13 case PSignal => 12
    case PReady => 8 case PUnlockReady => 7 case PCount => 6
    case PLockPut => 5 case PTest => 4 case PStore => 3 case PPut => 2
    case PExitUnlock => 1 case PDone => 0
  }

  function RankC(pc: CPc): nat {
    match pc
    case CFor => 8 case CLock => 7 case CRelock => 7 case CWhile => 6 case CSleep => 5 case CAsleep => 4
    case CTake => 3 case CUnlock => 2 case CCheck => 1 case CInc => 0 case CDone => 0
  }

  function Items(nitems: int): nat {
    if nitems < 0 then 0 else nitems
  }

  /** The work left: every step of a thread lowers it, a signal that wakes the consumer
      included; a spurious wake-up adds at most 3. */
  function Work(s: State): int {
    15 * (Items(s.nitems) - s.put.nput) + 9 * (Items(s.nitems) - s.i) + Total(s.prod, RankP) + RankC(s.cons)
  }

  lemma WorkDropsP(s: State, i: nat)
    requires WellFormed(s) && ProducerFacts(s) && Enabled(s, Producer(i))
    ensures Work(StepProducer(s, i)) < Work(s)
  {
    TotalUpdate(s.prod, i, StepProducer(s, i).prod[i], RankP);
  }

  lemma WorkDrops(s: State, t: Tid)
    requires Inv(s) && Enabled(s, t)
    ensures 0 <= Work(Step(s, t)) <= if t.Spurious? then Work(s) + 3 else Work(s) - 1
  {
    StepInv(s, t);
    match t {
      case Producer(i) => WorkDropsP(s, i);
      case Consumer => WorkDropsC(s);
      case Spurious =>
    }
  }

  lemma WorkDropsC(s: State)
    requires ConsumerFacts(s) && Enabled(s, Consumer)
    ensures Work(StepConsumer(s)) < Work(s)
  {}

  function Spurious(ts: seq<Tid>): nat {
    if ts == [] then 0 else Ind(ts[0] == Tid.Spurious) + Spurious(ts[1..])
  }

  lemma {:induction false} RunBounded(s: State, ts: seq<Tid>)
    requires Inv(s) && Runs(s, ts)
    ensures |ts| <= Work(s) + 4 * Spurious(ts)
    decreases |ts|
  {
    if ts != [] {
      StepInv(s, ts[0]);
      WorkDrops(s, ts[0]);
      RunBounded(Step(s, ts[0]), ts[1..]);
    }
  }

  lemma InitWork(n: int, np: nat)
    ensures Work(Init(n, np)) <= 24 * Items(n) + 5 * np + 8
  {
    TotalEqual(np, PLockPut, RankP);
  }

  lemma StuckIsFinished(n: int, s: State)
    requires Inv(s) && Stuck(s) && |s.prod| >= 1 && s.nitems == Init(n, 0).nitems
    ensures Finished(s, n, |s.prod|)
  {
    NoDeadlock(s);
    StuckPlaces(s);
    GotAll(s.mem.got);
    assert s.prod[0].PDone?;
    GotAll(s.mem.buf[..s.put.nput]);
  }

  /** The end of a run of the program with the argument n, of which at most a million count. */
  predicate Finished(s: State, n: int, np: nat) {
    var m := if n < 0 then 0 else if n <= 1000000 then n else 1000000;
    && AllReturned(s) && |s.prod| == |s.made| == np
    && s.put.nput == s.put.nval == m && s.ready.nready == 0 && s.i == m && Sum(s.made) == m
    && s.mem.got == Upto(m) && m <= |s.mem.buf| && s.mem.buf[..m] == Upto(m)
  }

  /** With a producer, a run is at most linear in the items and producers plus four steps for each
      spurious wake-up, and one that cannot be extended has all threads returned, the items of
      its argument consumed in order and each producer's counter at the number of its own. */
  lemma {:induction false} EveryMaximalRunFinishes(n: int, np: nat, ts: seq<Tid>)
    requires np >= 1 && Runs(Init(n, np), ts)
    ensures |ts| <= 24 * Items(n) + 5 * np + 8 + 4 * Spurious(ts)
    ensures var s := After(Init(n, np), ts);
      Stuck(s) ==> Finished(s, n, np) && forall i :: 0 <= i < np ==> s.made[i] == Puts(Init(n, np), ts, i)
  {
    InitInv(n, np);
    RunBounded(Init(n, np), ts);
    InitWork(n, np);
    RunInv(Init(n, np), ts);
    var s := After(Init(n, np), ts);
    if Stuck(s) {
      StuckIsFinished(n, s);
      OwnCounts(n, np, ts);
    }
  }

  lemma RunCons(s: State, t: Tid, ts: seq<Tid>)
    requires WellFormed(s) && Enabled(s, t) && Runs(Step(s, t), ts)
    ensures Runs(s, [t] + ts) && After(s, [t] + ts) == After(Step(s, t), ts)
  {
    assert ([t] + ts)[1..] == ts;
  }

  /** A spurious wake-up is harmless: a consumer that sleeps takes the mutex, finds nothing ready
      and sleeps again, with nothing changed. */
  lemma SpuriousIsHarmless(s: State)
    requires Inv(s) && s.cons.CAsleep? && !s.ready.locked
    ensures var ts := [Tid.Spurious] + ([Consumer] + ([Consumer] + [Consumer]));
      Runs(s, ts) && After(s, ts) == s
  {
    var s1 := Step(s, Tid.Spurious);
    var s2 := Step(s1, Consumer);
    var s3 := Step(s2, Consumer);
    assert [Consumer][1..] == [] && Runs(s3, [Consumer]) && After(s3, [Consumer]) == s;
    RunCons(s2, Consumer, [Consumer]);
    RunCons(s1, Consumer, [Consumer] + [Consumer]);
    RunCons(s, Tid.Spurious, [Consumer] + ([Consumer] + [Consumer]));
  }

  ghost predicate Deadlocks(n: int, np: nat, ts: seq<Tid>) {
    var s0 := Init(n, np);
    Runs(s0, ts) && Stuck(After(s0, ts)) && !AllReturned(After(s0, ts))
  }

  /** A run can end with a thread blocked if and only if there is no producer and something to
      consume. */
  lemma {:induction false} DeadlockExactly(n: int, np: nat)
    ensures (np == 0 && n > 0) <==> exists ts :: Deadlocks(n, np, ts)
  {
    var s0 := Init(n, np);
    if np == 0 && n > 0 {
      var s1 := Step(s0, Consumer);
      var s2 := Step(s1, Consumer);
      var s3 := Step(s2, Consumer);
      var s4 := Step(s3, Consumer);
      assert After(s4, []) == s4;
      RunCons(s3, Consumer, []);
      assert [Consumer] + [] == [Consumer];
      RunCons(s2, Consumer, [Consumer]);
      assert [Consumer] + [Consumer] == [Consumer, Consumer];
      RunCons(s1, Consumer, [Consumer, Consumer]);
      assert [Consumer] + [Consumer, Consumer] == [Consumer, Consumer, Consumer];
      RunCons(s0, Consumer, [Consumer, Consumer, Consumer]);
      var ts := [Consumer] + [Consumer, Consumer, Consumer];
      assert Deadlocks(n, np, ts);
    } else {
      InitInv(n, np);
      forall ts ensures !Deadlocks(n, np, ts) {
        if Runs(s0, ts) && Stuck(After(s0, ts)) {
          RunInv(s0, ts);
          NoDeadlock(After(s0, ts));
        }
      }
    }
  }
}
