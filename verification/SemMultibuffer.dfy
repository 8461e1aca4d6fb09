/** `ipc/src/pxsem/sem_multibuffer.c`: one thread reads a file into a ring of NBUFF buffers,
    one writes them out. The buffers are accessed outside the mutex, whose critical region is
    empty; only the counting semaphores keep the two threads apart. An empty buffer marks the
    end of the file. */
module SemMultibuffer {
  import opened Counting

  const NBUFF: nat := 8
  const BUFFSIZE: nat := 1024

  type Byte = b: int | 0 <= b < 256

  /** Where the producer stands: the name is the action it takes next. `PRead` fills the data of
      its buffer, `PSetN` stores the count, `PTest` reads it back. */
  datatype PPc = PEmpty | PMutex | PUnlock | PRead | PSetN | PTest | PEof | PAdvance | PPost | PDone

  datatype CPc = CStored | CMutex | CUnlock | CTest | CWrite | CAdvance | CPost | CDone

  datatype Sems = Sems(mutex: nat, nempty: nat, nstored: nat)

  datatype Slot = Slot(data: seq<Byte>, n: nat)

  /** `cuts` records where `read` has cut the file: read k returned file[cuts[k]..cuts[k+1]].
      `released` counts the buffers the consumer has given back. */
  datatype State = State(
    file: seq<Byte>, cuts: seq<nat>, released: nat, output: seq<Byte>,
    buff: seq<Slot>, sem: Sems,
    prod: PPc, pi: nat, rd: nat,
    cons: CPc, ci: nat)

  /** For the producer, `n` is what `read` returns if that is its next action. */
  datatype Tid = Producer(n: nat) | Consumer

  function Init(file: seq<Byte>): State {
    State(file, [0], 0, [], seq(NBUFF, _ => Slot(seq(BUFFSIZE, _ => 0), 0)), Sems(1, NBUFF, 0),
          PEmpty, 0, 0, CStored, 0)
  }

  /** The number of calls of `read` that have returned, and the file offset they reached. */
  function Reads(s: State): nat
    requires s.cuts != []
  {
    |s.cuts| - 1
  }

  function Offset(s: State): nat
    requires s.cuts != []
  {
    s.cuts[|s.cuts| - 1]
  }

  predicate WellFormed(s: State) {
    && s.cuts != [] && Offset(s) <= |s.file|
    && |s.buff| == NBUFF && (forall k :: 0 <= k < NBUFF ==> |s.buff[k].data| == BUFFSIZE && s.buff[k].n <= BUFFSIZE)
    && s.pi < NBUFF && s.ci < NBUFF && s.rd <= BUFFSIZE
  }

  /** `read` returns 0 at the end of the file and otherwise any positive count that fits. */
  predicate MayRead(s: State, n: nat)
    requires WellFormed(s)
  {
    n <= BUFFSIZE && Offset(s) + n <= |s.file| && (n == 0 <==> Offset(s) == |s.file|)
  }

  predicate Enabled(s: State, t: Tid)
    requires WellFormed(s)
  {
    match t
    case Producer(n) =>
      !s.prod.PDone?
      && (s.prod.PEmpty? ==> s.sem.nempty > 0) && (s.prod.PMutex? ==> s.sem.mutex > 0)
      && (s.prod.PRead? ==> MayRead(s, n))
    case Consumer =>
      !s.cons.CDone? && (s.cons.CStored? ==> s.sem.nstored > 0) && (s.cons.CMutex? ==> s.sem.mutex > 0)
  }

  function Next(i: nat): nat {
    if i + 1 >= NBUFF then 0 else i + 1
  }

  function StepProducer(s: State, n: nat): State
    requires WellFormed(s) && Enabled(s, Producer(n))
  {
    match s.prod
    case PEmpty => s.(sem := s.sem.(nempty := s.sem.nempty - 1), prod := PMutex)
    case PMutex => s.(sem := s.sem.(mutex := s.sem.mutex - 1), prod := PUnlock)
    case PUnlock => s.(sem := s.sem.(mutex := s.sem.mutex + 1), prod := PRead)
    case PRead =>
      var b := s.buff[s.pi];
      s.(buff := s.buff[s.pi := b.(data := s.file[Offset(s)..Offset(s) + n] + b.data[n..])],
         cuts := s.cuts + [Offset(s) + n], rd := n, prod := PSetN)
    case PSetN => s.(buff := s.buff[s.pi := s.buff[s.pi].(n := s.rd)], prod := PTest)
    case PTest => s.(prod := if s.buff[s.pi].n == 0 then PEof else PAdvance)
    case PEof => s.(sem := s.sem.(nstored := s.sem.nstored + 1), prod := PDone)
    case PAdvance => s.(pi := Next(s.pi), prod := PPost)
    case PPost => s.(sem := s.sem.(nstored := s.sem.nstored + 1), prod := PEmpty)
  }

  function StepConsumer(s: State): State
    requires WellFormed(s) && Enabled(s, Consumer)
  {
    match s.cons
    case CStored => s.(sem := s.sem.(nstored := s.sem.nstored - 1), cons := CMutex)
    case CMutex => s.(sem := s.sem.(mutex := s.sem.mutex - 1), cons := CUnlock)
    case CUnlock => s.(sem := s.sem.(mutex := s.sem.mutex + 1), cons := CTest)
    case CTest => s.(cons := if s.buff[s.ci].n == 0 then CDone else CWrite)
    case CWrite => s.(output := s.output + s.buff[s.ci].data[..s.buff[s.ci].n], cons := CAdvance)
    case CAdvance => s.(ci := Next(s.ci), cons := CPost)
    case CPost => s.(sem := s.sem.(nempty := s.sem.nempty + 1), released := s.released + 1, cons := CStored)
  }

  function Step(s: State, t: Tid): State
    requires WellFormed(s) && Enabled(s, t)
  {
    match t
    case Producer(n) => StepProducer(s, n)
    case Consumer => StepConsumer(s)
  }

  lemma StepWellFormed(s: State, t: Tid)
    requires WellFormed(s) && Enabled(s, t)
    ensures WellFormed(Step(s, t))
  {}

  /** `ts` is a schedule, with the results of `read`, that the system can follow from `s`. */
  predicate Runs(s: State, ts: seq<Tid>)
    requires WellFormed(s)
    decreases |ts|
  {
    ts == [] || (Enabled(s, ts[0]) && (StepWellFormed(s, ts[0]); Runs(Step(s, ts[0]), ts[1..])))
  }

  function After(s: State, ts: seq<Tid>): (s': State)
    requires WellFormed(s) && Runs(s, ts)
    ensures WellFormed(s')
    decreases |ts|
  {
    if ts == [] then s else StepWellFormed(s, ts[0]); After(Step(s, ts[0]), ts[1..])
  }

  // ------------------------------------------------------------------------------------
  // The invariant.

  /** The producer has cut a chunk and not yet announced it. */
  predicate POwesStored(pc: PPc) {
    pc.PSetN? || pc.PTest? || pc.PEof? || pc.PAdvance? || pc.PPost?
  }

  predicate PHoldsEmpty(pc: PPc) {
    pc.PMutex? || pc.PUnlock? || pc.PRead?
  }

  predicate CHoldsStored(pc: CPc) {
    !pc.CStored?
  }

  predicate CHasWritten(pc: CPc) {
    pc.CAdvance? || pc.CPost?
  }

  /** The producer's index still points at the chunk last read. */
  predicate PAtLast(pc: PPc) {
    pc.PSetN? || pc.PTest? || pc.PEof? || pc.PAdvance? || pc.PDone?
  }

  predicate Tokens(s: State)
    requires WellFormed(s)
  {
    && s.sem.mutex + Ind(s.prod.PUnlock?) + Ind(s.cons.CUnlock?) == 1
    && s.sem.nempty + Ind(PHoldsEmpty(s.prod)) + Reads(s) == NBUFF + s.released
    && s.sem.nstored + Ind(POwesStored(s.prod)) + Ind(CHoldsStored(s.cons)) + s.released == Reads(s)
  }

  predicate Indices(s: State)
    requires WellFormed(s)
  {
    && (PAtLast(s.prod) ==> Reads(s) >= 1)
    && s.pi == (Reads(s) - Ind(PAtLast(s.prod))) % NBUFF
    && s.ci == (s.released + Ind(s.cons.CPost?)) % NBUFF
  }

  /** Buffer `k % NBUFF` holds the bytes of chunk k. */
  predicate Filled(s: State, k: nat)
    requires WellFormed(s) && k < Reads(s)
  {
    var b := s.buff[k % NBUFF];
    s.cuts[k] <= s.cuts[k + 1] <= s.cuts[k] + BUFFSIZE && s.cuts[k + 1] <= |s.file|
    && b.data[..s.cuts[k + 1] - s.cuts[k]] == s.file[s.cuts[k]..s.cuts[k + 1]]
  }

  /** ... and its count has been stored. */
  predicate Counted(s: State, k: nat)
    requires WellFormed(s) && k < Reads(s)
  {
    s.cuts[k] + s.buff[k % NBUFF].n == s.cuts[k + 1]
  }

  predicate Buffers(s: State)
    requires WellFormed(s)
  {
    && (forall k :: s.released <= k < Reads(s) ==> Filled(s, k))
    && (forall k :: s.released <= k < Reads(s) - Ind(s.prod.PSetN?) ==> Counted(s, k))
    && (s.prod.PSetN? && Reads(s) >= 1 ==> s.cuts[Reads(s) - 1] + s.rd == Offset(s))
  }

  /** Whether `read` has returned 0. */
  predicate Eof(s: State)
    requires WellFormed(s)
  {
    Reads(s) >= 1 && s.cuts[Reads(s) - 1] == Offset(s)
  }

  /** Only the last chunk can be empty, and only at the end of the file. */
  predicate Ends(s: State)
    requires WellFormed(s)
  {
    && (forall k :: 0 <= k < Reads(s) - 1 ==> s.cuts[k] < s.cuts[k + 1])
    && (Eof(s) ==> Offset(s) == |s.file| && (s.prod.PSetN? || s.prod.PTest? || s.prod.PEof? || s.prod.PDone?))
    && (s.prod.PEof? || s.prod.PDone? ==> Eof(s))
    && s.cuts[0] == 0 && (Reads(s) >= 1 ==> s.cuts[Reads(s) - 1] <= Offset(s))
  }

  /** The consumer's progress: it never gives back the empty buffer. */
  predicate Written(s: State)
    requires WellFormed(s)
  {
    && s.released + Ind(CHasWritten(s.cons)) <= Reads(s) - Ind(Eof(s))
    && (s.cons.CWrite? ==> s.released < Reads(s) - Ind(Eof(s)))
    && s.cuts[s.released + Ind(CHasWritten(s.cons))] <= |s.file|
    && s.output == s.file[..s.cuts[s.released + Ind(CHasWritten(s.cons))]]
    && (s.cons.CDone? ==> Eof(s) && s.released == Reads(s) - 1)
  }

  predicate Inv(s: State) {
    WellFormed(s) && Tokens(s) && Indices(s) && Buffers(s) && Ends(s) && Written(s)
  }

  /** The slot filled next differs from every slot the consumer may still read. */
  lemma FreshSlot(s: State)
    requires WellFormed(s) && Tokens(s) && Indices(s) && s.prod.PRead?
    ensures forall k :: s.released <= k < Reads(s) ==> k % NBUFF != s.pi
  {
    forall k | s.released <= k < Reads(s) ensures k % NBUFF != s.pi {
      SlotsDiffer(NBUFF, k, Reads(s));
    }
  }

  /** While the producer handles the chunk it has just read, no older chunk shares its slot. */
  lemma LastSlot(s: State)
    requires WellFormed(s) && Tokens(s) && Indices(s) && (s.prod.PSetN? || s.prod.PTest?)
    ensures forall k :: s.released <= k < Reads(s) - 1 ==> k % NBUFF != s.pi
    ensures s.pi == (Reads(s) - 1) % NBUFF
  {
    forall k | s.released <= k < Reads(s) - 1 ensures k % NBUFF != s.pi {
      SlotsDiffer(NBUFF, k, Reads(s) - 1);
    }
  }

  /** Race freedom: when both threads access a buffer, it is not the same one. */
  lemma Apart(s: State)
    requires Inv(s)
    requires s.prod.PRead? || s.prod.PSetN? || s.prod.PTest?
    requires s.cons.CTest? || s.cons.CWrite?
    ensures s.pi != s.ci
  {
    if s.prod.PRead? {
      FreshSlot(s);
    } else {
      LastSlot(s);
    }
  }

  lemma StepTokens(s: State, t: Tid)
    requires WellFormed(s) && Tokens(s) && Enabled(s, t)
    ensures WellFormed(Step(s, t)) && Tokens(Step(s, t))
  {}

  lemma NextSlot(x: nat)
    ensures Next(x % NBUFF) == (x + 1) % NBUFF
  {}

  lemma StepIndicesP(s: State, n: nat)
    requires WellFormed(s) && Indices(s) && Enabled(s, Producer(n))
    ensures WellFormed(StepProducer(s, n)) && Indices(StepProducer(s, n))
  {
    StepWellFormed(s, Producer(n));
    if s.prod.PAdvance? {
      NextSlot(Reads(s) - 1);
    }
  }

  lemma StepIndicesC(s: State)
    requires WellFormed(s) && Indices(s) && Enabled(s, Consumer)
    ensures WellFormed(StepConsumer(s)) && Indices(StepConsumer(s))
  {
    NextSlot(s.released);
  }

  /** A chunk whose buffer and cuts are the same is still there. */
  lemma SameChunk(s: State, s': State, k: nat)
    requires WellFormed(s) && WellFormed(s') && k < Reads(s) && k < Reads(s')
    requires s'.file == s.file && s'.buff[k % NBUFF] == s.buff[k % NBUFF]
    requires s'.cuts[k] == s.cuts[k] && s'.cuts[k + 1] == s.cuts[k + 1]
    ensures Filled(s, k) ==> Filled(s', k)
    ensures Counted(s, k) ==> Counted(s', k)
  {}

  /** The chunk just read is in its buffer. */
  lemma ReadFills(s: State, n: nat)
    requires WellFormed(s) && Indices(s) && s.prod.PRead? && Enabled(s, Producer(n))
    ensures WellFormed(StepProducer(s, n)) && Filled(StepProducer(s, n), Reads(s))
  {
    var s' := StepProducer(s, n);
    StepWellFormed(s, Producer(n));
    assert s'.cuts[Reads(s)] == Offset(s) && s'.cuts[Reads(s) + 1] == Offset(s) + n;
    var chunk := s.file[Offset(s)..Offset(s) + n];
    assert s'.buff[s.pi].data == chunk + s.buff[s.pi].data[n..];
    assert (chunk + s.buff[s.pi].data[n..])[..n] == chunk;
  }

  /** Reading into a free buffer leaves the chunk k that the consumer has not given back. */
  lemma ReadKeeps(s: State, n: nat, k: nat)
    requires WellFormed(s) && Tokens(s) && Indices(s) && s.prod.PRead? && Enabled(s, Producer(n))
    requires s.released <= k < Reads(s) && Filled(s, k) && Counted(s, k)
    ensures WellFormed(StepProducer(s, n)) && Filled(StepProducer(s, n), k) && Counted(StepProducer(s, n), k)
  {
    StepWellFormed(s, Producer(n));
    SlotsDiffer(NBUFF, k, Reads(s));
    SameChunk(s, StepProducer(s, n), k);
  }

  lemma StepRead(s: State, n: nat)
    requires WellFormed(s) && Tokens(s) && Indices(s) && Buffers(s) && s.prod.PRead? && Enabled(s, Producer(n))
    ensures WellFormed(StepProducer(s, n)) && Buffers(StepProducer(s, n))
  {
    var s' := StepProducer(s, n);
    ReadFills(s, n);
    forall k | s.released <= k < Reads(s) ensures Filled(s', k) && Counted(s', k) {
      ReadKeeps(s, n, k);
    }
  }

  lemma SetNKeeps(s: State, n: nat, k: nat)
    requires WellFormed(s) && Tokens(s) && Indices(s) && s.prod.PSetN? && Enabled(s, Producer(n))
    requires s.released <= k < Reads(s) - 1 && Filled(s, k) && Counted(s, k)
    ensures WellFormed(StepProducer(s, n)) && Filled(StepProducer(s, n), k) && Counted(StepProducer(s, n), k)
  {
    StepWellFormed(s, Producer(n));
    SlotsDiffer(NBUFF, k, Reads(s) - 1);
    SameChunk(s, StepProducer(s, n), k);
  }

  lemma StepSetN(s: State, n: nat)
    requires WellFormed(s) && Tokens(s) && Indices(s) && Buffers(s) && s.prod.PSetN? && Enabled(s, Producer(n))
    ensures WellFormed(StepProducer(s, n)) && Buffers(StepProducer(s, n))
  {
    StepWellFormed(s, Producer(n));
    var s' := StepProducer(s, n);
    forall k | s.released <= k < Reads(s) - 1 ensures Filled(s', k) && Counted(s', k) {
      SetNKeeps(s, n, k);
    }
    assert Filled(s, Reads(s) - 1);
    assert Filled(s', Reads(s) - 1) && Counted(s', Reads(s) - 1);
  }

  /** A step that leaves the buffers and the cuts alone. */
  lemma SameBuffers(s: State, s': State)
    requires WellFormed(s) && WellFormed(s') && Buffers(s)
    requires s'.buff == s.buff && s'.cuts == s.cuts && s'.file == s.file && s'.released >= s.released
    requires s'.rd == s.rd && (s'.prod.PSetN? <==> s.prod.PSetN?)
    ensures Buffers(s')
  {
    forall k | s'.released <= k < Reads(s') ensures Filled(s', k) {
      assert Filled(s, k);
    }
    forall k | s'.released <= k < Reads(s') - Ind(s'.prod.PSetN?) ensures Counted(s', k) {
      assert Counted(s, k);
    }
  }

  lemma StepBuffers(s: State, t: Tid)
    requires Inv(s) && Enabled(s, t)
    ensures WellFormed(Step(s, t)) && Buffers(Step(s, t))
  {
    StepWellFormed(s, t);
    if t.Producer? && s.prod.PRead? {
      StepRead(s, t.n);
    } else if t.Producer? && s.prod.PSetN? {
      StepSetN(s, t.n);
    } else {
      SameBuffers(s, Step(s, t));
    }
  }

  lemma StepEndsP(s: State, n: nat)
    requires WellFormed(s) && Tokens(s) && Indices(s) && Buffers(s) && Ends(s) && Enabled(s, Producer(n))
    ensures WellFormed(StepProducer(s, n)) && Ends(StepProducer(s, n))
  {
    StepWellFormed(s, Producer(n));
    if s.prod.PTest? {
      TestSeesEnd(s);
    }
  }

  /** The count read back is zero exactly at the end of the file. */
  lemma TestSeesEnd(s: State)
    requires WellFormed(s) && Tokens(s) && Indices(s) && Buffers(s) && s.prod.PTest?
    ensures s.buff[s.pi].n == 0 <==> Eof(s)
  {
    LastSlot(s);
    assert Counted(s, Reads(s) - 1);
  }

  lemma StepWrittenP(s: State, n: nat)
    requires WellFormed(s) && Ends(s) && Written(s) && Enabled(s, Producer(n))
    ensures WellFormed(StepProducer(s, n)) && Written(StepProducer(s, n))
  {
    StepWellFormed(s, Producer(n));
  }

  /** What is written next is the next chunk of the file. */
  lemma StepWrite(s: State)
    requires Inv(s) && s.cons.CWrite?
    ensures WellFormed(StepConsumer(s)) && Written(StepConsumer(s))
  {
    assert Filled(s, s.released) && Counted(s, s.released);
    var a, b := s.cuts[s.released], s.cuts[s.released + 1];
    assert s.file[..a] + s.file[a..b] == s.file[..b];
  }

  lemma StepEndTest(s: State)
    requires Inv(s) && s.cons.CTest?
    ensures WellFormed(StepConsumer(s)) && Written(StepConsumer(s))
  {
    assert Counted(s, s.released);
  }

  lemma StepWrittenC(s: State)
    requires WellFormed(s) && Tokens(s) && Written(s) && Ends(s) && Enabled(s, Consumer) && !s.cons.CTest? && !s.cons.CWrite?
    ensures WellFormed(StepConsumer(s)) && Written(StepConsumer(s))
  {}

  lemma StepInvC(s: State)
    requires Inv(s) && Enabled(s, Consumer)
    ensures Written(StepConsumer(s)) && Ends(StepConsumer(s))
  {
    match s.cons {
      case CTest => StepEndTest(s);
      case CWrite => StepWrite(s);
      case _ => StepWrittenC(s);
    }
  }

  lemma StepInv(s: State, t: Tid)
    requires Inv(s) && Enabled(s, t)
    ensures Inv(Step(s, t))
  {
    StepTokens(s, t);
    StepBuffers(s, t);
    match t {
      case Producer(n) => StepIndicesP(s, n); StepEndsP(s, n); StepWrittenP(s, n);
      case Consumer => StepWellFormed(s, Consumer); StepIndicesC(s); StepInvC(s);
    }
  }

  lemma {:induction false} RunInv(s: State, ts: seq<Tid>)
    requires Inv(s) && Runs(s, ts)
    ensures Inv(After(s, ts)) && After(s, ts).file == s.file
    decreases |ts|
  {
    if ts != [] {
      StepInv(s, ts[0]);
      RunInv(Step(s, ts[0]), ts[1..]);
    }
  }

  lemma InitInv(file: seq<Byte>)
    ensures Inv(Init(file))
  {}

  // ------------------------------------------------------------------------------------
  // Every run, and every way `read` can cut the file.

  /** Producer and consumer never access the same buffer at the same time, and the output is
      always a prefix of the file. */
  lemma {:induction false} Safety(file: seq<Byte>, ts: seq<Tid>)
    requires Runs(Init(file), ts)
    ensures var s := After(Init(file), ts);
      && s.output <= file
      && !((s.prod.PRead? || s.prod.PSetN? || s.prod.PTest?) && (s.cons.CTest? || s.cons.CWrite?) && s.pi == s.ci)
  {
    InitInv(file);
    RunInv(Init(file), ts);
    var s := After(Init(file), ts);
    if (s.prod.PRead? || s.prod.PSetN? || s.prod.PTest?) && (s.cons.CTest? || s.cons.CWrite?) {
      Apart(s);
    }
  }

  ghost predicate Stuck(s: State)
    requires WellFormed(s)
  {
    forall t :: !Enabled(s, t)
  }

  /** No deadlock: when neither thread can step both have returned and the copy is complete. */
  lemma StuckIsDone(s: State)
    requires Inv(s) && Stuck(s)
    ensures s.prod.PDone? && s.cons.CDone? && s.output == s.file && s.sem == Sems(1, NBUFF - 1, 0)
  {
    var left := |s.file| - Offset(s);
    assert !Enabled(s, Producer(if left < BUFFSIZE then left else BUFFSIZE)) && !Enabled(s, Consumer);
  }

  function RankP(pc: PPc): nat {
    match pc
    case PSetN => 7 case PTest => 6 case PAdvance => 5 case PPost => 4
    case PEmpty => 3 case PMutex => 2 case PUnlock => 1 case PRead => 0
    case PEof => 1 case PDone => 0
  }

  function RankC(pc: CPc): nat {
    match pc
    case CStored => 6 case CMutex => 5 case CUnlock => 4 case CTest => 3
    case CWrite => 2 case CAdvance => 1 case CPost => 0 case CDone => 0
  }

  /** The work left: it drops on every step. */
  function Work(s: State): int
    requires WellFormed(s)
  {
    16 * (|s.file| - Offset(s) + Ind(!Eof(s))) + 7 * (Reads(s) - s.released) + RankP(s.prod) + RankC(s.cons)
  }

  lemma WorkDrops(s: State, t: Tid)
    requires Inv(s) && Enabled(s, t)
    ensures WellFormed(Step(s, t)) && 0 <= Work(Step(s, t)) < Work(s)
  {
    StepInv(s, t);
    match t {
      case Producer(n) => WorkDropsP(s, n);
      case Consumer => WorkDropsC(s);
    }
  }

  lemma WorkDropsP(s: State, n: nat)
    requires WellFormed(s) && Ends(s) && Enabled(s, Producer(n))
    ensures WellFormed(StepProducer(s, n)) && Work(StepProducer(s, n)) < Work(s)
  {
    StepWellFormed(s, Producer(n));
  }

  lemma WorkDropsC(s: State)
    requires WellFormed(s) && Enabled(s, Consumer)
    ensures WellFormed(StepConsumer(s)) && Work(StepConsumer(s)) < Work(s)
  {
    StepWellFormed(s, Consumer);
  }

  lemma {:induction false} RunBounded(s: State, ts: seq<Tid>)
    requires Inv(s) && Runs(s, ts)
    ensures |ts| <= Work(s)
    decreases |ts|
  {
    if ts != [] {
      StepInv(s, ts[0]);
      WorkDrops(s, ts[0]);
      RunBounded(Step(s, ts[0]), ts[1..]);
    }
  }

  /** Every run is finite, and one that cannot be extended has copied the whole file. */
  lemma {:induction false} EveryMaximalRunCopies(file: seq<Byte>, ts: seq<Tid>)
    requires Runs(Init(file), ts)
    ensures |ts| <= 16 * |file| + 25
    ensures var s := After(Init(file), ts);
      Stuck(s) ==> s.prod.PDone? && s.cons.CDone? && s.output == file && s.sem == Sems(1, NBUFF - 1, 0)
  {
    InitInv(file);
    RunBounded(Init(file), ts);
    RunInv(Init(file), ts);
    if Stuck(After(Init(file), ts)) {
      StuckIsDone(After(Init(file), ts));
    }
  }

  // ------------------------------------------------------------------------------------
  // The runs cover every way to cut the file.

  /** A way to cut a file of the given length into non-empty chunks, and the empty read at its
      end. */
  predicate Cutting(cuts: seq<nat>, length: nat) {
    && |cuts| >= 2 && cuts[0] == 0 && cuts[|cuts| - 2] == cuts[|cuts| - 1] == length
    && forall k :: 0 <= k < |cuts| - 2 ==> cuts[k] < cuts[k + 1] <= cuts[k] + BUFFSIZE
  }

  lemma {:induction false} CutsGrow(cuts: seq<nat>, length: nat, k: nat)
    requires Cutting(cuts, length) && k < |cuts|
    ensures cuts[k] <= length && (k < |cuts| - 2 ==> cuts[k] < length)
    decreases |cuts| - k
  {
    if k < |cuts| - 2 {
      CutsGrow(cuts, length, k + 1);
    }
  }

  /** The next read of the cutting may happen. */
  lemma NextCut(s: State, cuts: seq<nat>)
    requires Inv(s) && s.prod.PRead? && s.cuts <= cuts && Cutting(cuts, |s.file|)
    ensures |s.cuts| < |cuts| && Offset(s) <= cuts[|s.cuts|] && MayRead(s, cuts[|s.cuts|] - Offset(s))
  {
    var k := |s.cuts| - 1;
    CutsGrow(cuts, |s.file|, k);
    if |s.cuts| < |cuts| {
      CutsGrow(cuts, |s.file|, k + 1);
    }
  }

  lemma StuckHasCuts(s: State, cuts: seq<nat>)
    requires Inv(s) && Stuck(s) && s.cuts <= cuts && Cutting(cuts, |s.file|)
    ensures s.cuts == cuts
  {
    StuckIsDone(s);
    var k := Reads(s) - 1;
    CutsGrow(cuts, |s.file|, k);
  }

  lemma StepOnCuts(s: State, cuts: seq<nat>) returns (t: Tid)
    requires Inv(s) && !Stuck(s) && s.cuts <= cuts && Cutting(cuts, |s.file|)
    ensures Enabled(s, t) && Step(s, t).cuts <= cuts && Step(s, t).file == s.file
  {
    if Enabled(s, Consumer) {
      t := Consumer;
    } else if s.prod.PRead? {
      NextCut(s, cuts);
      t := Producer(cuts[|s.cuts|] - Offset(s));
    } else {
      t :| Enabled(s, t);
    }
  }

  lemma {:induction false} FollowCuts(s: State, cuts: seq<nat>) returns (ts: seq<Tid>)
    requires Inv(s) && s.cuts <= cuts && Cutting(cuts, |s.file|)
    ensures Runs(s, ts) && Stuck(After(s, ts)) && After(s, ts).cuts == cuts
    decreases Work(s)
  {
    if Stuck(s) {
      StuckHasCuts(s, cuts);
      ts := [];
    } else {
      var t := StepOnCuts(s, cuts);
      StepInv(s, t);
      WorkDrops(s, t);
      var rest := FollowCuts(Step(s, t), cuts);
      ts := [t] + rest;
    }
  }

  /** Every way to cut the file into chunks of at most BUFFSIZE bytes is the cutting of some
      complete run. */
  lemma EveryCuttingRuns(file: seq<Byte>, cuts: seq<nat>) returns (ts: seq<Tid>)
    requires Cutting(cuts, |file|)
    ensures Runs(Init(file), ts) && Stuck(After(Init(file), ts)) && After(Init(file), ts).cuts == cuts
  {
    InitInv(file);
    ts := FollowCuts(Init(file), cuts);
  }
}
