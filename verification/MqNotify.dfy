/** The one-shot notification protocol of `ipc/src/pxmsg/mqnotifysig4.c`: register, then in
    each round wait for the signal, register again, and drain the queue without blocking. The
    notification rules are those of `mq_notify` in POSIX.1-2017 (System Interfaces), restated
    at `ipc/ipc.md:491-496`. Senders are arbitrary; the number of rounds is a parameter. */
module MqNotify {
  import opened Counting

  type Message = string

  /** `Start` is about to register for the first time, `Wait` is in `sigwait`, `Rereg` has been
      woken and is about to register again, `Failed` has left through the error handler. */
  datatype Pc = Start | Wait | Rereg | Drain | Done | Failed

  /** `sent` and `received` record the messages that have entered and left the queue. */
  datatype State = State(
    maxmsg: nat, rounds: nat,
    queue: seq<Message>, registered: bool, pending: bool,
    pc: Pc, round: nat,
    sent: seq<Message>, received: seq<Message>)

  datatype Event = Receiver | Send(m: Message)

  /** The receiver opens a queue that may already hold messages. */
  function Init(maxmsg: nat, rounds: nat, queue: seq<Message>): State {
    State(maxmsg, rounds, queue, false, false, Start, 0, queue, [])
  }

  function Loop(round: nat, rounds: nat): Pc {
    if round < rounds then Wait else Done
  }

  predicate Enabled(s: State, e: Event) {
    match e
    case Receiver => !s.pc.Done? && !s.pc.Failed? && (s.pc.Wait? ==> s.pending)
    case Send(_) => |s.queue| < s.maxmsg
  }

  /** A message that arrives on an empty queue uses up the registration and raises the signal;
      one that arrives on a non-empty queue does neither. */
  function StepSend(s: State, m: Message): State {
    var s' := s.(queue := s.queue + [m], sent := s.sent + [m]);
    if s.queue == [] && s.registered then s'.(registered := false, pending := true) else s'
  }

  /** `mq_notify` fails when a registration exists. */
  function StepReceiver(s: State): State
    requires Enabled(s, Receiver)
  {
    match s.pc
    case Start => if s.registered then s.(pc := Failed) else s.(registered := true, round := 0, pc := Loop(0, s.rounds))
    case Wait => s.(pending := false, pc := Rereg)
    case Rereg => if s.registered then s.(pc := Failed) else s.(registered := true, pc := Drain)
    case Drain =>
      if s.queue == [] then s.(round := s.round + 1, pc := Loop(s.round + 1, s.rounds))
      else s.(queue := s.queue[1..], received := s.received + [s.queue[0]])
  }

  function Step(s: State, e: Event): State
    requires Enabled(s, e)
  {
    match e
    case Receiver => StepReceiver(s)
    case Send(m) => StepSend(s, m)
  }

  predicate Runs(s: State, es: seq<Event>)
    decreases |es|
  {
    es == [] || (Enabled(s, es[0]) && Runs(Step(s, es[0]), es[1..]))
  }

  function After(s: State, es: seq<Event>): State
    requires Runs(s, es)
    decreases |es|
  {
    if es == [] then s else After(Step(s, es[0]), es[1..])
  }

  /** The wake-up is always in exactly one place. */
  predicate OneWakeUp(s: State) {
    Ind(s.registered) + Ind(s.pending) + Ind(s.pc.Start? || s.pc.Rereg?) == 1
  }

  predicate Inv(s: State) {
    OneWakeUp(s) && !s.pc.Failed? && s.sent == s.received + s.queue && (s.pc.Wait? ==> s.round < s.rounds)
  }

  /** A receiver that sleeps with messages queued has its signal on the way. */
  predicate NothingStranded(s: State) {
    s.pc.Wait? && s.queue != [] ==> s.pending
  }

  lemma StepInv(s: State, e: Event)
    requires Inv(s) && Enabled(s, e)
    ensures Inv(Step(s, e))
    ensures NothingStranded(s) && !s.pc.Start? ==> NothingStranded(Step(s, e))
    ensures !s.pc.Start? ==> !Step(s, e).pc.Start?
  {
    if s.queue != [] {
      assert s.queue == [s.queue[0]] + s.queue[1..];
    }
  }

  /** The protocol keeps its invariant in every run, whatever the queue held at the start: the
      wake-up is registered, pending, or in the receiver's hands, so registering again never
      finds a registration; and no message is lost, duplicated or reordered. */
  lemma {:induction false} RunInv(s: State, es: seq<Event>)
    requires Inv(s) && Runs(s, es)
    ensures Inv(After(s, es))
    ensures NothingStranded(s) && !s.pc.Start? ==> NothingStranded(After(s, es))
    decreases |es|
  {
    if es != [] {
      StepInv(s, es[0]);
      RunInv(Step(s, es[0]), es[1..]);
    }
  }

  /** The messages of the senders in a run. */
  function Sends(es: seq<Event>): seq<Message> {
    if es == [] then [] else (if es[0].Send? then [es[0].m] else []) + Sends(es[1..])
  }

  predicate IsReceiver(e: Event) {
    e.Receiver?
  }

  /** How often the receiver is woken in a run ... */
  function Wakes(s: State, es: seq<Event>): nat
    requires Runs(s, es)
    decreases |es|
  {
    if es == [] then 0 else Ind(es[0].Receiver? && s.pc.Wait?) + Wakes(Step(s, es[0]), es[1..])
  }

  /** ... and how often it then finds the queue empty. */
  function Drains(s: State, es: seq<Event>): nat
    requires Runs(s, es)
    decreases |es|
  {
    if es == [] then 0
    else Ind(es[0].Receiver? && s.pc.Drain? && s.queue == []) + Drains(Step(s, es[0]), es[1..])
  }

  /** The place of the receiver for `woken` wake-ups and `drained` drains so far. */
  predicate InRound(s: State, registered: bool, woken: nat, drained: nat) {
    && drained == s.round <= s.rounds
    && (registered <==> !s.pc.Start?)
    && woken == drained + Ind(s.pc.Rereg? || s.pc.Drain?)
    && (s.pc.Done? <==> registered && drained == s.rounds)
    && (s.pc.Start? ==> drained == 0)
    && woken <= s.rounds && !s.pc.Failed?
  }

  lemma StepRound(s: State, e: Event, registered: bool, woken: nat, drained: nat)
    requires Inv(s) && InRound(s, registered, woken, drained) && Enabled(s, e)
    ensures InRound(Step(s, e), registered || e.Receiver?, woken + Ind(e.Receiver? && s.pc.Wait?),
                    drained + Ind(e.Receiver? && s.pc.Drain? && s.queue == []))
    ensures Step(s, e).rounds == s.rounds
  {}

  lemma {:induction false} RoundsCounted(s: State, es: seq<Event>, registered: bool, woken: nat, drained: nat)
    requires Inv(s) && InRound(s, registered, woken, drained) && Runs(s, es)
    ensures InRound(After(s, es), registered || Count(es, IsReceiver) > 0, woken + Wakes(s, es), drained + Drains(s, es))
    ensures After(s, es).rounds == s.rounds
    decreases |es|
  {
    if es != [] {
      StepInv(s, es[0]);
      StepRound(s, es[0], registered, woken, drained);
      RoundsCounted(Step(s, es[0]), es[1..], registered || es[0].Receiver?,
                    woken + Ind(es[0].Receiver? && s.pc.Wait?),
                    drained + Ind(es[0].Receiver? && s.pc.Drain? && s.queue == []));
    }
  }

  /** The loop makes exactly `rounds` rounds: in every run the receiver has been woken once for
      each time it has drained the queue, and once more in the middle of a round; and it has
      returned if and only if it has registered and drained the queue `rounds` times. */
  lemma {:induction false} EveryRound(maxmsg: nat, rounds: nat, queue: seq<Message>, es: seq<Event>)
    requires Runs(Init(maxmsg, rounds, queue), es)
    ensures var s0 := Init(maxmsg, rounds, queue); var s := After(s0, es);
      && Wakes(s0, es) == Drains(s0, es) + Ind(s.pc.Rereg? || s.pc.Drain?) <= rounds
      && (s.pc.Done? <==> Count(es, IsReceiver) > 0 && Drains(s0, es) == rounds)
      && (s.pc.Start? <==> Count(es, IsReceiver) == 0)
      && s.round == Drains(s0, es)
  {
    RoundsCounted(Init(maxmsg, rounds, queue), es, false, 0, 0);
  }

  lemma StepSent(s: State, e: Event)
    requires Enabled(s, e)
    ensures var s' := Step(s, e);
      && (if e.Send? then s'.sent == s.sent + [e.m] else s'.sent == s.sent) && s'.maxmsg == s.maxmsg
      && (|s'.queue| <= |s.queue| || |s'.queue| <= s.maxmsg)
  {}

  /** What has entered the queue is what it held and what was sent, in order; and it holds no
      more than it may. */
  lemma {:induction false} SentIsSends(s: State, es: seq<Event>)
    requires Runs(s, es)
    ensures After(s, es).sent == s.sent + Sends(es)
    ensures |After(s, es).queue| <= if |s.queue| <= s.maxmsg then s.maxmsg else |s.queue|
    ensures After(s, es).maxmsg == s.maxmsg
    decreases |es|
  {
    if es != [] {
      StepSent(s, es[0]);
      SentIsSends(Step(s, es[0]), es[1..]);
    }
  }

  lemma {:induction false} Safety(maxmsg: nat, rounds: nat, queue: seq<Message>, es: seq<Event>)
    requires Runs(Init(maxmsg, rounds, queue), es)
    ensures var s := After(Init(maxmsg, rounds, queue), es);
      OneWakeUp(s) && !s.pc.Failed? && s.received + s.queue == queue + Sends(es)
      && (|queue| <= maxmsg ==> |s.queue| <= maxmsg)
  {
    RunInv(Init(maxmsg, rounds, queue), es);
    SentIsSends(Init(maxmsg, rounds, queue), es);
  }

  /** Once registered with messages already queued, the receiver sleeps for ever: the queue is
      never empty again, so no signal is ever raised. */
  lemma {:induction false} SleepsForEver(s: State, es: seq<Event>)
    requires s.pc.Wait? && s.queue != [] && !s.pending && Runs(s, es)
    ensures var s' := After(s, es);
      s'.pc.Wait? && s'.queue != [] && !s'.pending && s'.received == s.received
    decreases |es|
  {
    if es != [] {
      SleepsForEver(Step(s, es[0]), es[1..]);
    }
  }

  ghost predicate NeverStranded(s: State) {
    forall es :: Runs(s, es) ==> NothingStranded(After(s, es))
  }

  /** The protocol loses no wake-up if and only if the queue is empty at the first
      registration. */
  lemma StrandedExactly(s: State)
    requires Inv(s) && s.pc.Start? && s.rounds > 0
    ensures s.queue == [] <==> NeverStranded(Step(s, Receiver))
  {
    var s' := Step(s, Receiver);
    StepInv(s, Receiver);
    if s.queue == [] {
      forall es | Runs(s', es) ensures NothingStranded(After(s', es)) {
        RunInv(s', es);
      }
    } else {
      assert Runs(s', []) && !NothingStranded(After(s', []));
    }
  }

  predicate InLoop(s: State) {
    s.pc.Wait? || s.pc.Rereg? || s.pc.Drain?
  }

  /** The number of receiver steps before the next message is received. */
  function StepsToDrain(s: State): nat {
    match s.pc case Wait => 2 case Rereg => 1 case _ => 0
  }

  lemma {:induction false} ReceivedGrows(s: State, es: seq<Event>)
    requires Runs(s, es)
    ensures s.received <= After(s, es).received
    decreases |es|
  {
    if es != [] {
      ReceivedGrows(Step(s, es[0]), es[1..]);
    }
  }

  /** A receiver in its loop with messages queued and none stranded can always step ... */
  lemma NeverBlocked(s: State)
    requires NothingStranded(s) && InLoop(s) && s.queue != []
    ensures Enabled(s, Receiver)
  {}

  /** ... and a step of it brings it nearer to a message, or receives it, whatever is sent. */
  lemma StepNearer(s: State, e: Event, k: nat)
    requires Inv(s) && NothingStranded(s) && InLoop(s) && 1 <= k <= |s.queue| && Enabled(s, e)
    ensures var s' := Step(s, e);
      && InLoop(s') && NothingStranded(s')
      && if s'.received == s.received
         then s'.queue[..k] == s.queue[..k] && StepsToDrain(s) == StepsToDrain(s') + Ind(IsReceiver(e))
         else s'.received == s.received + [s.queue[0]] && s'.queue[..k - 1] == s.queue[1..k]
              && StepsToDrain(s) == StepsToDrain(s') == 0 && IsReceiver(e)
  {
    StepInv(s, e);
  }

  /** Delivery in every schedule: the first k queued messages have been received, in order, once
      the receiver has made k + 2, k + 1 or k steps, whoever sends in between. */
  lemma {:induction false} Delivers(s: State, es: seq<Event>, k: nat)
    requires Inv(s) && NothingStranded(s) && InLoop(s) && k <= |s.queue| && Runs(s, es)
    requires Count(es, IsReceiver) >= k + StepsToDrain(s)
    ensures s.received + s.queue[..k] <= After(s, es).received
    decreases |es|
  {
    if k == 0 {
      ReceivedGrows(s, es);
    } else {
      var s' := Step(s, es[0]);
      StepInv(s, es[0]);
      StepNearer(s, es[0], k);
      if s'.received == s.received {
        Delivers(s', es[1..], k);
      } else {
        Delivers(s', es[1..], k - 1);
        assert s.queue[..k] == [s.queue[0]] + s.queue[1..k];
      }
    }
  }

  /** So nothing sent after a first registration on an empty queue is lost to a schedule that keeps
      running the receiver, before the last round is over: what is queued after any such run is
      received within two of its steps and one more for each message. */
  lemma {:induction false} EventuallyReceived(maxmsg: nat, rounds: nat, es: seq<Event>, later: seq<Event>)
    requires Runs(Init(maxmsg, rounds, []), [Receiver] + es)
    requires var t := After(Init(maxmsg, rounds, []), [Receiver] + es);
      && Drains(Init(maxmsg, rounds, []), [Receiver] + es) < rounds
      && Runs(t, later) && Count(later, IsReceiver) >= |t.queue| + 2
    ensures Sends(es) <= After(After(Init(maxmsg, rounds, []), [Receiver] + es), later).received
  {
    var s0 := Init(maxmsg, rounds, []);
    var t := After(s0, [Receiver] + es);
    assert ([Receiver] + es)[1..] == es;
    StepInv(s0, Receiver);
    RunInv(Step(s0, Receiver), es);
    EveryRound(maxmsg, rounds, [], [Receiver] + es);
    SentIsSends(s0, [Receiver] + es);
    Delivers(t, later, |t.queue|);
    assert t.queue[..|t.queue|] == t.queue;
  }

  function Alone(n: nat): seq<Event> {
    seq(n, _ => Receiver)
  }

  lemma {:induction false} RunsAlone(s: State, k: nat)
    requires Inv(s) && NothingStranded(s) && InLoop(s) && k <= |s.queue| && (k == 0 ==> !s.pc.Wait?)
    ensures Runs(s, Alone(k + StepsToDrain(s))) && After(s, Alone(k + StepsToDrain(s))).sent == s.sent
    ensures Count(Alone(k + StepsToDrain(s)), IsReceiver) == k + StepsToDrain(s)
    decreases k + StepsToDrain(s)
  {
    var n := k + StepsToDrain(s);
    if n > 0 {
      assert Alone(n)[1..] == Alone(n - 1);
      var s' := Step(s, Receiver);
      StepInv(s, Receiver);
      RunsAlone(s', if s.pc.Drain? then k - 1 else k);
    }
  }

  /** In particular a receiver that runs alone receives all that has been sent. */
  lemma {:induction false} DrainsAlone(s: State)
    requires Inv(s) && NothingStranded(s) && InLoop(s) && (s.pc.Wait? ==> s.queue != [])
    ensures var es := Alone(|s.queue| + StepsToDrain(s));
      Runs(s, es) && After(s, es).received == s.sent
  {
    var es := Alone(|s.queue| + StepsToDrain(s));
    RunsAlone(s, |s.queue|);
    Delivers(s, es, |s.queue|);
    RunInv(s, es);
    assert s.queue[..|s.queue|] == s.queue;
  }
}

/** `ipc/src/pxmsg/mqnotifysig3.c`: the same protocol with a signal handler that sets `mqflag`.
    The main program tests the flag with the signal blocked and waits in `sigsuspend`, which
    unblocks it; the results of `mq_notify` are not looked at. */
module MqNotifyFlag {
  import opened Counting
  import opened MqNotify

  datatype FPc = FStart | FBlock | FTest | FSuspend | FReset | FRereg | FDrain | FUnblock | FDone

  /** `failures` counts the calls of `mq_notify` that found a registration. */
  datatype FState = FState(
    maxmsg: nat, rounds: nat,
    queue: seq<Message>, registered: bool, pending: bool,
    blocked: bool, mqflag: bool,
    pc: FPc, round: nat,
    sent: seq<Message>, received: seq<Message>, failures: nat)

  datatype FEvent = Main | Handler | FSend(m: Message)

  function FInit(maxmsg: nat, rounds: nat, queue: seq<Message>): FState {
    FState(maxmsg, rounds, queue, false, false, false, false, FStart, 0, queue, [], 0)
  }

  function FLoop(round: nat, rounds: nat): FPc {
    if round < rounds then FBlock else FDone
  }

  /** A pending signal is delivered to the handler at any point where it is not blocked, and
      to a suspended program, which then returns from `sigsuspend`. */
  predicate FEnabled(s: FState, e: FEvent) {
    match e
    case Main => !s.pc.FDone? && (s.pc.FSuspend? ==> s.pending)
    case Handler => s.pending && !s.blocked
    case FSend(_) => |s.queue| < s.maxmsg
  }

  function Notify(s: FState): FState {
    if s.registered then s.(failures := s.failures + 1) else s.(registered := true)
  }

  function StepMain(s: FState): FState
    requires FEnabled(s, Main)
  {
    match s.pc
    case FStart => Notify(s).(round := 0, pc := FLoop(0, s.rounds))
    case FBlock => s.(blocked := true, pc := FTest)
    case FTest => s.(pc := if s.mqflag then FReset else FSuspend)
    case FSuspend => s.(pending := false, mqflag := true, pc := FTest)
    case FReset => s.(mqflag := false, pc := FRereg)
    case FRereg => Notify(s).(pc := FDrain)
    case FDrain =>
      if s.queue == [] then s.(pc := FUnblock)
      else s.(queue := s.queue[1..], received := s.received + [s.queue[0]])
    case FUnblock => s.(blocked := false, round := s.round + 1, pc := FLoop(s.round + 1, s.rounds))
  }

  function FStep(s: FState, e: FEvent): FState
    requires FEnabled(s, e)
  {
    match e
    case Main => StepMain(s)
    case Handler => s.(pending := false, mqflag := true)
    case FSend(m) =>
      var s' := s.(queue := s.queue + [m], sent := s.sent + [m]);
      if s.queue == [] && s.registered then s'.(registered := false, pending := true) else s'
  }

  predicate FRuns(s: FState, es: seq<FEvent>)
    decreases |es|
  {
    es == [] || (FEnabled(s, es[0]) && FRuns(FStep(s, es[0]), es[1..]))
  }

  function FAfter(s: FState, es: seq<FEvent>): FState
    requires FRuns(s, es)
    decreases |es|
  {
    if es == [] then s else FAfter(FStep(s, es[0]), es[1..])
  }

  /** The flag is a further place where the wake-up can be; a program between two drains waits. */
  function Abs(s: FState): State {
    var round := s.round + Ind(s.pc.FUnblock?);
    State(s.maxmsg, s.rounds, s.queue, s.registered, s.pending || s.mqflag,
          match s.pc
          case FStart => Start
          case FBlock => Wait case FTest => Wait case FSuspend => Wait case FReset => Wait
          case FRereg => Rereg
          case FDrain => Drain
          case FUnblock => Loop(round, s.rounds)
          case FDone => Done,
          round, s.sent, s.received)
  }

  predicate Masked(pc: FPc) {
    pc.FTest? || pc.FSuspend? || pc.FReset? || pc.FRereg? || pc.FDrain? || pc.FUnblock?
  }

  predicate FInv(s: FState) {
    && Inv(Abs(s))
    && !(s.pending && s.mqflag)
    && (s.blocked <==> Masked(s.pc))
    && (s.pc.FSuspend? ==> !s.mqflag)
    && (s.pc.FReset? ==> s.mqflag)
    && s.failures == 0
  }

  /** The abstract steps that correspond to one concrete step: one or none. */
  function AbsEvent(s: FState, e: FEvent): seq<Event> {
    match e
    case FSend(m) => [Send(m)]
    case Handler => []
    case Main => if s.pc.FStart? || s.pc.FReset? || s.pc.FRereg? || s.pc.FDrain? then [Receiver] else []
  }

  lemma StepRefines(s: FState, e: FEvent)
    requires FInv(s) && FEnabled(s, e)
    ensures Runs(Abs(s), AbsEvent(s, e))
    ensures After(Abs(s), AbsEvent(s, e)) == Abs(FStep(s, e))
    ensures FInv(FStep(s, e))
  {
    var es := AbsEvent(s, e);
    if es != [] {
      assert es[1..] == [];
      assert Enabled(Abs(s), es[0]);
      assert Step(Abs(s), es[0]) == Abs(FStep(s, e));
      StepInv(Abs(s), es[0]);
    } else {
      assert Abs(FStep(s, e)) == Abs(s);
    }
  }

  function AbsEvents(s: FState, es: seq<FEvent>): seq<Event>
    requires FRuns(s, es)
    decreases |es|
  {
    if es == [] then [] else AbsEvent(s, es[0]) + AbsEvents(FStep(s, es[0]), es[1..])
  }

  lemma {:induction false} RunsAppend(s: State, xs: seq<Event>, ys: seq<Event>)
    requires Runs(s, xs) && Runs(After(s, xs), ys)
    ensures Runs(s, xs + ys) && After(s, xs + ys) == After(After(s, xs), ys)
    decreases |xs|
  {
    if xs == [] {
      assert xs + ys == ys;
    } else {
      RunsAppend(Step(s, xs[0]), xs[1..], ys);
      assert (xs + ys)[1..] == xs[1..] + ys && (xs + ys)[0] == xs[0];
    }
  }

  function FSends(es: seq<FEvent>): seq<Message> {
    if es == [] then [] else (if es[0].FSend? then [es[0].m] else []) + FSends(es[1..])
  }

  /** Refinement: every run of the flag version is, with the same messages sent, a run of the
      signal-wait version, and ends in the abstraction of the state it reaches. */
  lemma {:induction false} Refines(s: FState, es: seq<FEvent>)
    requires FInv(s) && FRuns(s, es)
    ensures FInv(FAfter(s, es))
    ensures Runs(Abs(s), AbsEvents(s, es))
    ensures After(Abs(s), AbsEvents(s, es)) == Abs(FAfter(s, es))
    ensures Sends(AbsEvents(s, es)) == FSends(es)
    decreases |es|
  {
    if es != [] {
      StepRefines(s, es[0]);
      Refines(FStep(s, es[0]), es[1..]);
      var xs, ys := AbsEvent(s, es[0]), AbsEvents(FStep(s, es[0]), es[1..]);
      RunsAppend(Abs(s), xs, ys);
      if xs == [] {
        assert xs + ys == ys;
      } else {
        assert (xs + ys)[1..] == ys;
      }
    }
  }

  predicate IsMain(e: FEvent) {
    e.Main?
  }

  /** How often the program takes up the flag in a run, finds the queue empty, and ends a round. */
  function FWakes(s: FState, es: seq<FEvent>): nat
    requires FRuns(s, es)
    decreases |es|
  {
    if es == [] then 0 else Ind(es[0].Main? && s.pc.FReset?) + FWakes(FStep(s, es[0]), es[1..])
  }

  function FDrains(s: FState, es: seq<FEvent>): nat
    requires FRuns(s, es)
    decreases |es|
  {
    if es == [] then 0
    else Ind(es[0].Main? && s.pc.FDrain? && s.queue == []) + FDrains(FStep(s, es[0]), es[1..])
  }

  function FRounds(s: FState, es: seq<FEvent>): nat
    requires FRuns(s, es)
    decreases |es|
  {
    if es == [] then 0 else Ind(es[0].Main? && s.pc.FUnblock?) + FRounds(FStep(s, es[0]), es[1..])
  }

  predicate FInRound(s: FState, registered: bool, woken: nat, drained: nat, ended: nat) {
    && ended == s.round <= s.rounds
    && (registered <==> !s.pc.FStart?)
    && drained == ended + Ind(s.pc.FUnblock?)
    && woken == drained + Ind(s.pc.FRereg? || s.pc.FDrain?)
    && (s.pc.FDone? <==> registered && ended == s.rounds)
    && (s.pc.FStart? ==> ended == 0)
    && woken <= s.rounds
  }

  lemma FStepRound(s: FState, e: FEvent, registered: bool, woken: nat, drained: nat, ended: nat)
    requires FInRound(s, registered, woken, drained, ended) && FEnabled(s, e)
    ensures FInRound(FStep(s, e), registered || e.Main?, woken + Ind(e.Main? && s.pc.FReset?),
                     drained + Ind(e.Main? && s.pc.FDrain? && s.queue == []), ended + Ind(e.Main? && s.pc.FUnblock?))
    ensures FStep(s, e).rounds == s.rounds
  {}

  lemma {:induction false} FRoundsCounted(s: FState, es: seq<FEvent>, registered: bool, woken: nat, drained: nat, ended: nat)
    requires FInRound(s, registered, woken, drained, ended) && FRuns(s, es)
    ensures FInRound(FAfter(s, es), registered || Count(es, IsMain) > 0,
                     woken + FWakes(s, es), drained + FDrains(s, es), ended + FRounds(s, es))
    ensures FAfter(s, es).rounds == s.rounds
    decreases |es|
  {
    if es != [] {
      FStepRound(s, es[0], registered, woken, drained, ended);
      FRoundsCounted(FStep(s, es[0]), es[1..], registered || es[0].Main?,
                     woken + Ind(es[0].Main? && s.pc.FReset?),
                     drained + Ind(es[0].Main? && s.pc.FDrain? && s.queue == []),
                     ended + Ind(es[0].Main? && s.pc.FUnblock?));
    }
  }

  /** The loop makes exactly `rounds` rounds here too, each with one wake-up and one drain. */
  lemma {:induction false} FEveryRound(maxmsg: nat, rounds: nat, queue: seq<Message>, es: seq<FEvent>)
    requires FRuns(FInit(maxmsg, rounds, queue), es)
    ensures var s0 := FInit(maxmsg, rounds, queue); var s := FAfter(s0, es);
      && FDrains(s0, es) == FRounds(s0, es) + Ind(s.pc.FUnblock?)
      && FWakes(s0, es) == FDrains(s0, es) + Ind(s.pc.FRereg? || s.pc.FDrain?) <= rounds
      && (s.pc.FDone? <==> Count(es, IsMain) > 0 && FRounds(s0, es) == rounds)
      && (s.pc.FStart? <==> Count(es, IsMain) == 0)
      && s.round == FRounds(s0, es)
  {
    FRoundsCounted(FInit(maxmsg, rounds, queue), es, false, 0, 0, 0);
  }

  lemma FStepSent(s: FState, e: FEvent)
    requires FEnabled(s, e)
    ensures var s' := FStep(s, e);
      && (if e.FSend? then s'.sent == s.sent + [e.m] else s'.sent == s.sent) && s'.maxmsg == s.maxmsg
      && (|s'.queue| <= |s.queue| || |s'.queue| <= s.maxmsg)
  {}

  lemma {:induction false} FSentIsSends(s: FState, es: seq<FEvent>)
    requires FRuns(s, es)
    ensures FAfter(s, es).sent == s.sent + FSends(es)
    ensures |FAfter(s, es).queue| <= if |s.queue| <= s.maxmsg then s.maxmsg else |s.queue|
    ensures FAfter(s, es).maxmsg == s.maxmsg
    decreases |es|
  {
    if es != [] {
      FStepSent(s, es[0]);
      FSentIsSends(FStep(s, es[0]), es[1..]);
    }
  }

  /** In every run the wake-up is in exactly one of its places, `mq_notify` never finds a
      registration, and messages are conserved in order. */
  lemma {:induction false} FSafety(maxmsg: nat, rounds: nat, queue: seq<Message>, es: seq<FEvent>)
    requires FRuns(FInit(maxmsg, rounds, queue), es)
    ensures var s := FAfter(FInit(maxmsg, rounds, queue), es);
      && Ind(s.registered) + Ind(s.pending) + Ind(s.mqflag) + Ind(s.pc.FStart? || s.pc.FRereg?) == 1
      && s.failures == 0 && s.received + s.queue == queue + FSends(es)
      && (|queue| <= maxmsg ==> |s.queue| <= maxmsg)
  {
    Refines(FInit(maxmsg, rounds, queue), es);
    FSentIsSends(FInit(maxmsg, rounds, queue), es);
  }

  /** Testing the flag with the signal blocked never loses a wake-up: from a first registration
      on an empty queue, a program that is suspended with messages queued has a signal pending,
      and one that is about to wait has the signal pending or the flag set. */
  lemma {:induction false} FNothingStranded(s: FState, es: seq<FEvent>)
    requires FInv(s) && s.pc.FStart? && s.queue == [] && FRuns(FStep(s, Main), es)
    ensures var s' := FAfter(FStep(s, Main), es);
      s'.queue != [] ==>
        && (s'.pc.FSuspend? ==> s'.pending)
        && (s'.pc.FBlock? || s'.pc.FTest? ==> s'.pending || s'.mqflag)
  {
    var s1 := FStep(s, Main);
    StepRefines(s, Main);
    Refines(s1, es);
    RunInv(Abs(s1), AbsEvents(s1, es));
  }

  lemma FRunCons(s: FState, e: FEvent, es: seq<FEvent>)
    requires FEnabled(s, e) && FRuns(FStep(s, e), es)
    ensures FRuns(s, [e] + es) && FAfter(s, [e] + es) == FAfter(FStep(s, e), es)
  {
    assert ([e] + es)[1..] == es;
  }

  /** Wherever the message comes in, before the signal is blocked, before the flag is tested, or
      between the test and `sigsuspend`, the program takes up the wake-up: it is about to reset
      the flag. */
  lemma TestAndSuspend(s: FState, m: Message)
    requires FInv(s) && s.pc.FBlock? && s.registered && s.queue == [] && s.maxmsg > 0
    ensures var early := [FSend(m)] + ([Handler] + ([Main] + [Main]));
      FRuns(s, early) && FAfter(s, early).pc.FReset?
    ensures var blocked := [Main] + ([FSend(m)] + ([Main] + ([Main] + [Main])));
      FRuns(s, blocked) && FAfter(s, blocked).pc.FReset?
    ensures var late := [Main] + ([Main] + ([FSend(m)] + ([Main] + [Main])));
      FRuns(s, late) && FAfter(s, late).pc.FReset?
  {
    EarlySignal(s, m);
    BlockedSignal(s, m);
    LateSignal(s, m);
  }

  lemma EarlySignal(s: FState, m: Message)
    requires FInv(s) && s.pc.FBlock? && s.registered && s.queue == [] && s.maxmsg > 0
    ensures var es := [FSend(m)] + ([Handler] + ([Main] + [Main]));
      FRuns(s, es) && FAfter(s, es).pc.FReset?
  {
    var s1 := FStep(s, FSend(m));
    var s2 := FStep(s1, Handler);
    var s3 := FStep(s2, Main);
    TakesUp(s3);
    FRunCons(s2, Main, [Main]);
    FRunCons(s1, Handler, [Main] + [Main]);
    FRunCons(s, FSend(m), [Handler] + ([Main] + [Main]));
  }

  lemma TakesUp(s: FState)
    requires s.pc.FTest? && s.mqflag
    ensures FRuns(s, [Main]) && FAfter(s, [Main]).pc.FReset?
  {
    assert [Main][1..] == [] && FAfter(FStep(s, Main), []) == FStep(s, Main);
  }

  lemma BlockedSignal(s: FState, m: Message)
    requires FInv(s) && s.pc.FBlock? && s.registered && s.queue == [] && s.maxmsg > 0
    ensures var es := [Main] + ([FSend(m)] + ([Main] + ([Main] + [Main])));
      FRuns(s, es) && FAfter(s, es).pc.FReset?
  {
    var s1 := FStep(s, Main);
    var s2 := FStep(s1, FSend(m));
    var s3 := FStep(s2, Main);
    var s4 := FStep(s3, Main);
    TakesUp(s4);
    FRunCons(s3, Main, [Main]);
    FRunCons(s2, Main, [Main] + [Main]);
    FRunCons(s1, FSend(m), [Main] + ([Main] + [Main]));
    FRunCons(s, Main, [FSend(m)] + ([Main] + ([Main] + [Main])));
  }

  lemma LateSignal(s: FState, m: Message)
    requires FInv(s) && s.pc.FBlock? && s.registered && s.queue == [] && s.maxmsg > 0
    ensures var es := [Main] + ([Main] + ([FSend(m)] + ([Main] + [Main])));
      FRuns(s, es) && FAfter(s, es).pc.FReset?
  {
    var s1 := FStep(s, Main);
    var s2 := FStep(s1, Main);
    var s3 := FStep(s2, FSend(m));
    var s4 := FStep(s3, Main);
    TakesUp(s4);
    FRunCons(s3, Main, [Main]);
    FRunCons(s2, FSend(m), [Main] + [Main]);
    FRunCons(s1, Main, [FSend(m)] + ([Main] + [Main]));
    FRunCons(s, Main, [Main] + ([FSend(m)] + ([Main] + [Main])));
  }

  /** Once registered with messages already queued, the program never wakes: its runs are runs of
      the signal-wait version, which sleeps for ever. */
  lemma {:induction false} FSleepsForEver(s: FState, es: seq<FEvent>)
    requires FInv(s) && Abs(s).pc.Wait? && s.queue != [] && !s.pending && !s.mqflag && FRuns(s, es)
    ensures var s' := FAfter(s, es);
      Abs(s').pc.Wait? && s'.queue != [] && !s'.pending && !s'.mqflag && s'.received == s.received
  {
    Refines(s, es);
    SleepsForEver(Abs(s), AbsEvents(s, es));
  }

  ghost predicate FNeverStranded(s: FState) {
    forall es :: FRuns(s, es) ==> NothingStranded(Abs(FAfter(s, es)))
  }

  /** Here too no wake-up is lost if and only if the queue is empty at the first registration. */
  lemma FStrandedExactly(s: FState)
    requires FInv(s) && s.pc.FStart? && s.rounds > 0
    ensures s.queue == [] <==> FNeverStranded(FStep(s, Main))
  {
    var s1 := FStep(s, Main);
    StepRefines(s, Main);
    if s.queue == [] {
      forall es | FRuns(s1, es) ensures NothingStranded(Abs(FAfter(s1, es))) {
        Refines(s1, es);
        RunInv(Abs(s1), AbsEvents(s1, es));
      }
    } else {
      assert FRuns(s1, []) && !NothingStranded(Abs(FAfter(s1, [])));
    }
  }

  /** At most this many steps of the main program come before the next message is received. */
  function FStepsToDrain(s: FState): nat {
    match s.pc
    case FRereg => 1
    case FReset => 2
    case FTest => if s.mqflag then 3 else 5
    case FSuspend => 4
    case FBlock => if s.mqflag then 4 else 6
    case FUnblock => 7
    case _ => 0
  }

  lemma {:induction false} FReceivedGrows(s: FState, es: seq<FEvent>)
    requires FRuns(s, es)
    ensures s.received <= FAfter(s, es).received
    decreases |es|
  {
    if es != [] {
      FReceivedGrows(FStep(s, es[0]), es[1..]);
    }
  }

  lemma FNeverBlocked(s: FState)
    requires FInv(s) && NothingStranded(Abs(s)) && InLoop(Abs(s)) && s.queue != []
    ensures FEnabled(s, Main)
  {}

  /** A step of the main program brings it nearer to a message, or receives it, whatever is sent
      and whenever the signal is handled. */
  lemma FStepNearer(s: FState, e: FEvent, k: nat)
    requires FInv(s) && NothingStranded(Abs(s)) && InLoop(Abs(s)) && 1 <= k <= |s.queue| && FEnabled(s, e)
    ensures var s' := FStep(s, e);
      && FInv(s') && InLoop(Abs(s')) && NothingStranded(Abs(s'))
      && if s'.received == s.received
         then k <= |s'.queue| && s'.queue[..k] == s.queue[..k] && FStepsToDrain(s) >= FStepsToDrain(s') + Ind(IsMain(e))
         else s'.received == s.received + [s.queue[0]] && k - 1 <= |s'.queue| && s'.queue[..k - 1] == s.queue[1..k]
              && FStepsToDrain(s') == 0 && IsMain(e)
  {
    StepRefines(s, e);
  }

  /** Delivery in every schedule of the flag version. */
  lemma {:induction false} FDelivers(s: FState, es: seq<FEvent>, k: nat)
    requires FInv(s) && NothingStranded(Abs(s)) && InLoop(Abs(s)) && k <= |s.queue| && FRuns(s, es)
    requires Count(es, IsMain) >= k + FStepsToDrain(s)
    ensures s.received + s.queue[..k] <= FAfter(s, es).received
    decreases |es|
  {
    if k == 0 {
      FReceivedGrows(s, es);
    } else {
      var s' := FStep(s, es[0]);
      FStepNearer(s, es[0], k);
      if s'.received == s.received {
        FDelivers(s', es[1..], k);
      } else {
        FDelivers(s', es[1..], k - 1);
        assert s.queue[..k] == [s.queue[0]] + s.queue[1..k];
      }
    }
  }

  /** So nothing sent after a first registration on an empty queue is lost to a schedule that keeps
      running the main program, before the last drain is over: what is queued after any such run is
      received within seven of its steps and one more for each message. */
  lemma {:induction false} FEventuallyReceived(maxmsg: nat, rounds: nat, es: seq<FEvent>, later: seq<FEvent>)
    requires FRuns(FInit(maxmsg, rounds, []), [Main] + es)
    requires var t := FAfter(FInit(maxmsg, rounds, []), [Main] + es);
      && FDrains(FInit(maxmsg, rounds, []), [Main] + es) < rounds
      && FRuns(t, later) && Count(later, IsMain) >= |t.queue| + 7
    ensures FSends(es) <= FAfter(FAfter(FInit(maxmsg, rounds, []), [Main] + es), later).received
  {
    var s0 := FInit(maxmsg, rounds, []);
    var s1, t := FStep(s0, Main), FAfter(s0, [Main] + es);
    assert ([Main] + es)[1..] == es;
    StepRefines(s0, Main);
    Refines(s1, es);
    RunInv(Abs(s1), AbsEvents(s1, es));
    FRoundsCounted(s0, [Main] + es, false, 0, 0, 0);
    FSentIsSends(s0, [Main] + es);
    FDelivers(t, later, |t.queue|);
    assert t.queue[..|t.queue|] == t.queue;
  }

  function FAlone(n: nat): seq<FEvent> {
    seq(n, _ => Main)
  }

  lemma {:induction false} FRunsAlone(s: FState, k: nat)
    requires FInv(s) && NothingStranded(Abs(s)) && InLoop(Abs(s)) && k <= |s.queue| && !s.pc.FUnblock?
    requires k == 0 ==> s.pc.FDrain? || s.pc.FRereg?
    ensures FRuns(s, FAlone(k + FStepsToDrain(s))) && FAfter(s, FAlone(k + FStepsToDrain(s))).sent == s.sent
    ensures Count(FAlone(k + FStepsToDrain(s)), IsMain) == k + FStepsToDrain(s)
    decreases k + FStepsToDrain(s)
  {
    var n := k + FStepsToDrain(s);
    if n > 0 {
      assert FAlone(n)[1..] == FAlone(n - 1);
      StepRefines(s, Main);
      FRunsAlone(FStep(s, Main), if s.pc.FDrain? then k - 1 else k);
    }
  }

  /** In particular the main program on its own receives all that has been sent. */
  lemma {:induction false} FDrainsAlone(s: FState)
    requires FInv(s) && NothingStranded(Abs(s)) && InLoop(Abs(s)) && !s.pc.FUnblock?
    requires s.queue == [] ==> s.pc.FDrain? || s.pc.FRereg?
    ensures var es := FAlone(|s.queue| + FStepsToDrain(s));
      FRuns(s, es) && FAfter(s, es).received == s.sent
  {
    var es := FAlone(|s.queue| + FStepsToDrain(s));
    FRunsAlone(s, |s.queue|);
    FDelivers(s, es, |s.queue|);
    Refines(s, es);
    assert s.queue[..|s.queue|] == s.queue;
  }
}
