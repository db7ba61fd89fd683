/**
 The hand-off between threads: producers push work into a queue under a mutex, a loop takes the
 whole queue and works it off, and sleeps on a condition variable in between. Threads interleave
 at every single step.
 */
module HandOff {
  import opened Lists

  type Instr = int

  datatype ProducerPc =
    | Idle
    | Locked(instr: Instr)        // holds the mutex
    | Pushed                      // holds the mutex, item in the queue
    | Counted                     // holds the mutex, counter raised
    | HasRead(need: bool)         // holds the mutex, has read the waiting flag
    | Unlocked(need: bool)        // has released the mutex, may still have to notify

  datatype LoopPc =
    | Top                         // tests the exit flag
    | WantLock
    | HoldsLock                   // about to raise the waiting flag
    | Testing                     // holds the mutex, tests the wake-up condition
    | Deciding                    // holds the mutex, the condition was false
    | Blocked                     // sleeps, mutex released
    | Woken                       // wants the mutex back
    | Passed                      // holds the mutex, the condition was true
    | Unflagged                   // holds the mutex, waiting flag lowered
    | Copied                      // holds the mutex, queue copied
    | Cleared                     // holds the mutex, queue cleared
    | Zeroed                      // holds the mutex, counter reset
    | Working(next: nat)          // works off the local copy
    | Done

  datatype ExiterPc = NotYet | ExitLocked | ExitStored | ExitUnlocked | Notified

  datatype Owner = Free | ByLoop | ByProducer(p: nat) | ByExiter

  datatype State = State(
    mutex: Owner, queue: seq<Instr>, count: int, waiting: bool, exit: bool, busy: bool,
    loop: LoopPc, local: seq<Instr>, producers: seq<ProducerPc>, exiter: ExiterPc,
    executed: seq<Instr>, history: seq<Instr>)

  datatype Action =
    | Lock(p: nat, instr: Instr) | Push(p: nat) | Count(p: nat) | ReadFlag(p: nat) | Unlock(p: nat) | Notify(p: nat)
    | TestExit | LoopLock | RaiseFlag | Test | Decide | Wake | Relock | LowerFlag | Copy | Clear | Zero | LoopUnlock
    | Work(busy: bool) | Finish(busy: bool)
    | ExitLock | StoreExit | ExitUnlock | ExitNotify

  /** The exit flag of the instruction loop is set under the mutex of that loop; that of the stream loop is not. */
  datatype Config = Config(exitUnderLock: bool)

  function WakeUp(s: State): State {
    if s.loop == Blocked then s.(loop := Woken) else s
  }

  predicate Enabled(cfg: Config, s: State, a: Action) {
    match a
    case Lock(p, _) => p < |s.producers| && s.producers[p] == Idle && s.mutex == Free
    case Push(p) => p < |s.producers| && s.producers[p].Locked?
    case Count(p) => p < |s.producers| && s.producers[p] == Pushed
    case ReadFlag(p) => p < |s.producers| && s.producers[p] == Counted
    case Unlock(p) => p < |s.producers| && s.producers[p].HasRead?
    case Notify(p) => p < |s.producers| && s.producers[p].Unlocked?
    case TestExit => s.loop == Top
    case LoopLock => s.loop == WantLock && s.mutex == Free
    case RaiseFlag => s.loop == HoldsLock
    case Test => s.loop == Testing
    case Decide => s.loop == Deciding
    case Wake => s.loop == Blocked
    case Relock => s.loop == Woken && s.mutex == Free
    case LowerFlag => s.loop == Passed
    case Copy => s.loop == Unflagged
    case Clear => s.loop == Copied
    case Zero => s.loop == Cleared
    case LoopUnlock => s.loop == Zeroed
    case Work(_) => s.loop.Working? && s.loop.next < |s.local|
    case Finish(_) => s.loop.Working? && s.loop.next >= |s.local|
    case ExitLock => s.exiter == NotYet && cfg.exitUnderLock && s.mutex == Free
    case StoreExit => s.exiter == if cfg.exitUnderLock then ExitLocked else NotYet
    case ExitUnlock => s.exiter == ExitStored
    case ExitNotify => s.exiter == ExitUnlocked
  }

  function Step(cfg: Config, s: State, a: Action): State
    requires Enabled(cfg, s, a)
  {
    match a
    case Lock(p, instr) => s.(mutex := ByProducer(p), producers := s.producers[p := Locked(instr)])
    case Push(p) =>
      var instr := s.producers[p].instr;
      s.(queue := s.queue + [instr], history := s.history + [instr], producers := s.producers[p := Pushed])
    case Count(p) => s.(count := s.count + 1, producers := s.producers[p := Counted])
    case ReadFlag(p) => s.(producers := s.producers[p := HasRead(s.waiting)])
    case Unlock(p) => s.(mutex := Free, producers := s.producers[p := Unlocked(s.producers[p].need)])
    case Notify(p) =>
      var s' := s.(producers := s.producers[p := Idle]);
      if s.producers[p].need then WakeUp(s') else s'
    case TestExit => s.(loop := if s.exit then Done else WantLock)
    case LoopLock => s.(mutex := ByLoop, loop := HoldsLock)
    case RaiseFlag => s.(waiting := true, loop := Testing)
    case Test => s.(loop := if s.busy || s.count > 0 || s.exit then Passed else Deciding)
    case Decide => s.(mutex := Free, loop := Blocked)
    case Wake => s.(loop := Woken)
    case Relock => s.(mutex := ByLoop, loop := Testing)
    case LowerFlag => s.(waiting := false, loop := Unflagged)
    case Copy => s.(local := s.queue, loop := Copied)
    case Clear => s.(queue := [], loop := Cleared)
    case Zero => s.(count := 0, loop := Zeroed)
    case LoopUnlock => s.(mutex := Free, loop := Working(0))
    case Work(busy) =>
      s.(executed := s.executed + [s.local[s.loop.next]], loop := Working(s.loop.next + 1), busy := busy)
    case Finish(busy) => s.(loop := Top, busy := busy)
    case ExitLock => s.(mutex := ByExiter, exiter := ExitLocked)
    case StoreExit => s.(exit := true, exiter := ExitStored)
    case ExitUnlock => s.(mutex := if cfg.exitUnderLock then Free else s.mutex, exiter := ExitUnlocked)
    case ExitNotify => WakeUp(s).(exiter := Notified)
  }

  ghost predicate Init(s: State) {
    && s.mutex == Free && s.queue == [] && s.count == 0 && !s.waiting && !s.exit && s.loop == Top && s.local == []
    && (forall p :: 0 <= p < |s.producers| ==> s.producers[p] == Idle)
    && s.exiter == NotYet && s.executed == [] && s.history == []
  }

  // ---------------------------------------------------------------- invariants

  predicate LoopHolds(pc: LoopPc) {
    pc in {HoldsLock, Testing, Deciding, Passed, Unflagged, Copied, Cleared, Zeroed}
  }

  predicate ProducerHolds(pc: ProducerPc) {
    pc.Locked? || pc.Pushed? || pc.Counted? || pc.HasRead?
  }

  ghost predicate Exclusive(cfg: Config, s: State) {
    && (s.mutex == ByLoop <==> LoopHolds(s.loop))
    && (forall p :: 0 <= p < |s.producers| ==> (s.mutex == ByProducer(p) <==> ProducerHolds(s.producers[p])))
    && (s.mutex.ByProducer? ==> s.mutex.p < |s.producers|)
    && (s.mutex == ByExiter <==> cfg.exitUnderLock && (s.exiter == ExitLocked || s.exiter == ExitStored))
  }

  /** The part of the local copy that has not been executed. */
  function Unprocessed(s: State): seq<Instr> {
    if s.loop.Working? && s.loop.next <= |s.local| then s.local[s.loop.next..]
    else if s.loop == Cleared || s.loop == Zeroed then s.local
    else []
  }

  /** Exactly once and in order: executed, then the local copy, then the queue. */
  ghost predicate Fifo(s: State) {
    && s.history == s.executed + Unprocessed(s) + s.queue
    && (s.loop == Copied ==> s.local == s.queue)
    && (s.loop == Cleared || s.loop == Zeroed ==> s.queue == [])
    && (s.loop.Working? ==> s.loop.next <= |s.local|)
  }

  ghost predicate CounterOk(s: State) {
    if s.loop == Cleared then true
    else if s.mutex.ByProducer? && s.mutex.p < |s.producers| && s.producers[s.mutex.p] == Pushed
    then s.count + 1 == |s.queue|
    else s.count == |s.queue|
  }

  ghost predicate FlagOk(s: State) {
    s.waiting <==> s.loop in {Testing, Deciding, Blocked, Woken, Passed}
  }

  /** Producer p is on its way to a notification. */
  predicate WillNotify(s: State, p: nat) {
    p < |s.producers| &&
    (s.producers[p] in {Pushed, Counted, HasRead(true), Unlocked(true)})
  }

  /** A sleeping loop with work in the queue has a notification on its way. */
  ghost predicate NoLostWork(s: State) {
    && (s.loop == Deciding ==> s.count == 0)
    && (s.loop == Blocked && s.queue != [] ==> exists p: nat :: WillNotify(s, p))
  }

  /** A sleeping loop that has to exit has a notification on its way. */
  ghost predicate NoLostExit(s: State) {
    && (s.exit <==> s.exiter !in {NotYet, ExitLocked})
    && (s.loop == Deciding ==> !s.exit)
    && (s.loop == Blocked && s.exit ==> s.exiter == ExitStored || s.exiter == ExitUnlocked)
  }

  /** The loop sleeps only when the engine has nothing to do, and goes on only for a reason. */
  predicate SleepOk(s: State) {
    && (s.loop == Deciding || s.loop == Blocked ==> !s.busy)
    && (s.loop == Passed ==> s.busy || s.count > 0 || s.exit)
    && (s.loop == Done ==> s.exit)
  }

  ghost predicate Inv(cfg: Config, s: State) {
    Exclusive(cfg, s) && Fifo(s) && CounterOk(s) && FlagOk(s) && NoLostWork(s) && SleepOk(s)
  }

  lemma InitInv(cfg: Config, s: State)
    requires Init(s)
    ensures Inv(cfg, s) && NoLostExit(s)
  {
  }

  predicate ByProducerStep(a: Action) {
    a.Lock? || a.Push? || a.Count? || a.ReadFlag? || a.Unlock? || a.Notify?
  }

  predicate ByExiterStep(a: Action) {
    a.ExitLock? || a.StoreExit? || a.ExitUnlock? || a.ExitNotify?
  }

  /** A producer takes or releases the mutex. */
  lemma ExclusiveHandover(cfg: Config, s: State, a: Action)
    requires Exclusive(cfg, s) && Enabled(cfg, s, a) && (a.Lock? || a.Unlock?)
    ensures Exclusive(cfg, Step(cfg, s, a))
  {
  }

  lemma ExclusiveProducer(cfg: Config, s: State, a: Action)
    requires Exclusive(cfg, s) && Enabled(cfg, s, a) && ByProducerStep(a)
    ensures Exclusive(cfg, Step(cfg, s, a))
  {
    if a.Lock? || a.Unlock? {
      ExclusiveHandover(cfg, s, a);
    }
  }

  lemma ExclusiveExiter(cfg: Config, s: State, a: Action)
    requires Exclusive(cfg, s) && Enabled(cfg, s, a) && ByExiterStep(a)
    ensures Exclusive(cfg, Step(cfg, s, a))
  {
  }

  lemma ExclusiveLoop(cfg: Config, s: State, a: Action)
    requires Exclusive(cfg, s) && Enabled(cfg, s, a) && !ByProducerStep(a) && !ByExiterStep(a)
    ensures Exclusive(cfg, Step(cfg, s, a))
  {
  }

  lemma FifoStep(cfg: Config, s: State, a: Action)
    requires Inv(cfg, s) && Enabled(cfg, s, a)
    ensures Fifo(Step(cfg, s, a))
  {
    if ByProducerStep(a) {
      FifoProducer(cfg, s, a);
    } else if !ByExiterStep(a) {
      FifoLoop(cfg, s, a);
    }
  }

  /** An instruction enters the queue and the history. */
  lemma FifoPush(cfg: Config, s: State, a: Action)
    requires Exclusive(cfg, s) && Fifo(s) && Enabled(cfg, s, a) && a.Push?
    ensures Fifo(Step(cfg, s, a))
  {
    ConcatAssoc(s.executed + Unprocessed(s), s.queue, [s.producers[a.p].instr]);
  }

  lemma FifoProducer(cfg: Config, s: State, a: Action)
    requires Exclusive(cfg, s) && Fifo(s) && Enabled(cfg, s, a) && ByProducerStep(a)
    ensures Fifo(Step(cfg, s, a))
  {
    if a.Push? {
      FifoPush(cfg, s, a);
    }
  }

  /** An instruction moves from the local copy to the executed ones. */
  lemma FifoWork(cfg: Config, s: State, a: Action)
    requires Fifo(s) && Enabled(cfg, s, a) && a.Work?
    ensures Fifo(Step(cfg, s, a))
  {
    var n := s.loop.next;
    DropNext(s.local, n);
    ConcatAssoc(s.executed, [s.local[n]], s.local[n + 1..]);
  }

  lemma FifoLoop(cfg: Config, s: State, a: Action)
    requires Exclusive(cfg, s) && Fifo(s) && Enabled(cfg, s, a) && !ByProducerStep(a) && !ByExiterStep(a)
    ensures Fifo(Step(cfg, s, a))
  {
    if a.Work? {
      FifoWork(cfg, s, a);
    } else if a.Finish? {
      assert Unprocessed(s) == [];
    } else if a.Clear? {
      assert s.executed + [] + s.queue == s.executed + s.queue + [];
    } else if a.LoopUnlock? {
      assert s.local[0..] == s.local;
    }
  }

  lemma CounterProducer(cfg: Config, s: State, a: Action)
    requires Exclusive(cfg, s) && CounterOk(s) && Enabled(cfg, s, a) && ByProducerStep(a)
    ensures CounterOk(Step(cfg, s, a))
  {
  }

  lemma CounterOther(cfg: Config, s: State, a: Action)
    requires Exclusive(cfg, s) && Fifo(s) && CounterOk(s) && Enabled(cfg, s, a) && !ByProducerStep(a)
    ensures CounterOk(Step(cfg, s, a))
  {
  }

  lemma FlagStep(cfg: Config, s: State, a: Action)
    requires FlagOk(s) && Enabled(cfg, s, a)
    ensures FlagOk(Step(cfg, s, a))
  {
  }

  lemma SleepStep(cfg: Config, s: State, a: Action)
    requires Exclusive(cfg, s) && SleepOk(s) && Enabled(cfg, s, a)
    ensures SleepOk(Step(cfg, s, a))
  {
    if ByProducerStep(a) {
      SleepProducer(cfg, s, a);
    }
  }

  lemma SleepProducer(cfg: Config, s: State, a: Action)
    requires Exclusive(cfg, s) && SleepOk(s) && Enabled(cfg, s, a) && ByProducerStep(a)
    ensures SleepOk(Step(cfg, s, a))
  {
  }

  lemma NoLostWorkStep(cfg: Config, s: State, a: Action)
    requires Inv(cfg, s) && Enabled(cfg, s, a)
    ensures NoLostWork(Step(cfg, s, a))
  {
    var s' := Step(cfg, s, a);
    if s'.loop == Blocked && s'.queue != [] {
      if a.Push? {
        assert WillNotify(s', a.p);
      } else if !a.Decide? {
        var p: nat :| WillNotify(s, p);
        assert WillNotify(s', p);
      }
    }
  }

  /** Only the exiting thread touches the exit flag. */
  lemma ExitUntouched(cfg: Config, s: State, a: Action)
    requires Enabled(cfg, s, a) && !ByExiterStep(a)
    ensures Step(cfg, s, a).exit == s.exit && Step(cfg, s, a).exiter == s.exiter
  {
  }

  lemma NoLostExitStep(cfg: Config, s: State, a: Action)
    requires Inv(cfg, s) && NoLostExit(s) && cfg.exitUnderLock && Enabled(cfg, s, a)
    ensures NoLostExit(Step(cfg, s, a))
  {
    if ByExiterStep(a) {
      NoLostExitExiter(cfg, s, a);
    } else {
      ExitUntouched(cfg, s, a);
    }
  }

  lemma NoLostExitExiter(cfg: Config, s: State, a: Action)
    requires Exclusive(cfg, s) && NoLostExit(s) && cfg.exitUnderLock && Enabled(cfg, s, a) && ByExiterStep(a)
    ensures NoLostExit(Step(cfg, s, a))
  {
  }

  lemma InvStep(cfg: Config, s: State, a: Action)
    requires Inv(cfg, s) && Enabled(cfg, s, a)
    ensures Inv(cfg, Step(cfg, s, a))
  {
    if ByProducerStep(a) {
      ExclusiveProducer(cfg, s, a);
      CounterProducer(cfg, s, a);
    } else if ByExiterStep(a) {
      ExclusiveExiter(cfg, s, a);
      CounterOther(cfg, s, a);
    } else {
      ExclusiveLoop(cfg, s, a);
      CounterOther(cfg, s, a);
    }
    FifoStep(cfg, s, a);
    FlagStep(cfg, s, a);
    SleepStep(cfg, s, a);
    NoLostWorkStep(cfg, s, a);
  }

  // ---------------------------------------------------------------- what was asked for

  /** The instruction of a producer that holds the mutex and has yet to push it. */
  function Asked(s: State): seq<Instr> {
    if s.mutex.ByProducer? && s.mutex.p < |s.producers| && s.producers[s.mutex.p].Locked?
    then [s.producers[s.mutex.p].instr]
    else []
  }

  /** The instruction that a step brings in. */
  function Brings(a: Action): seq<Instr> {
    if a.Lock? then [a.instr] else []
  }

  /** The instructions that a run brings in, in the order in which the producers got the mutex. */
  ghost function Brought(run: seq<Action>): seq<Instr> {
    if run == [] then [] else Brings(run[0]) + Brought(run[1..])
  }

  lemma AskedStep(cfg: Config, s: State, a: Action)
    requires Exclusive(cfg, s) && Enabled(cfg, s, a)
    ensures var s' := Step(cfg, s, a); s'.history + Asked(s') == s.history + Asked(s) + Brings(a)
  {
    if ByProducerStep(a) {
      AskedProducer(cfg, s, a);
    } else {
      AskedOther(cfg, s, a);
    }
  }

  lemma AskedProducer(cfg: Config, s: State, a: Action)
    requires Exclusive(cfg, s) && Enabled(cfg, s, a) && ByProducerStep(a)
    ensures var s' := Step(cfg, s, a); s'.history + Asked(s') == s.history + Asked(s) + Brings(a)
  {
  }

  lemma AskedOther(cfg: Config, s: State, a: Action)
    requires Exclusive(cfg, s) && Enabled(cfg, s, a) && !ByProducerStep(a)
    ensures var s' := Step(cfg, s, a); s'.history == s.history && Asked(s') == Asked(s) && Brings(a) == []
  {
  }

  // ---------------------------------------------------------------- whole runs

  ghost predicate Runnable(cfg: Config, s: State, run: seq<Action>)
    decreases |run|
  {
    run != [] ==> Enabled(cfg, s, run[0]) && Runnable(cfg, Step(cfg, s, run[0]), run[1..])
  }

  ghost function After(cfg: Config, s: State, run: seq<Action>): State
    requires Runnable(cfg, s, run)
    decreases |run|
  {
    if run == [] then s else After(cfg, Step(cfg, s, run[0]), run[1..])
  }

  lemma {:induction false} InvAlways(cfg: Config, s: State, run: seq<Action>)
    requires Inv(cfg, s) && Runnable(cfg, s, run)
    ensures Inv(cfg, After(cfg, s, run))
    ensures cfg.exitUnderLock && NoLostExit(s) ==> NoLostExit(After(cfg, s, run))
    decreases |run|
  {
    if run != [] {
      InvStep(cfg, s, run[0]);
      if cfg.exitUnderLock && NoLostExit(s) {
        NoLostExitStep(cfg, s, run[0]);
      }
      InvAlways(cfg, Step(cfg, s, run[0]), run[1..]);
    }
  }

  /** The history is what the producers asked for. */
  lemma {:induction false} HistoryIsBrought(cfg: Config, s: State, run: seq<Action>)
    requires Inv(cfg, s) && Runnable(cfg, s, run)
    ensures var r := After(cfg, s, run); r.history + Asked(r) == s.history + Asked(s) + Brought(run)
    decreases |run|
  {
    if run != [] {
      AskedStep(cfg, s, run[0]);
      InvStep(cfg, s, run[0]);
      HistoryIsBrought(cfg, Step(cfg, s, run[0]), run[1..]);
      ConcatAssoc(s.history + Asked(s), Brings(run[0]), Brought(run[1..]));
    }
  }

  /**
   Whatever the interleaving: every instruction is executed once and in order, the counter is right
   whenever the mutex is free, and no work is left behind with the loop asleep and nobody about to
   wake it. The loop never sleeps while the engine has unfinished requests, goes on only for a
   reason, and ends only on exit.
   */
  lemma HandOffSafe(cfg: Config, s: State, run: seq<Action>)
    requires Init(s) && Runnable(cfg, s, run)
    ensures var r := After(cfg, s, run);
            && r.history == r.executed + Unprocessed(r) + r.queue
            && r.history + Asked(r) == Brought(run)
            && (r.mutex == Free ==> r.count == |r.queue|)
            && (r.loop == Blocked && r.queue != [] ==> exists p: nat :: WillNotify(r, p))
            && (r.loop == Deciding || r.loop == Blocked ==> !r.busy)
            && (r.loop == Passed ==> r.busy || r.queue != [] || r.exit)
            && (r.loop == Done ==> r.exit)
  {
    InitInv(cfg, s);
    InvAlways(cfg, s, run);
    HistoryIsBrought(cfg, s, run);
  }

  /** With the exit flag set under the mutex of the loop, the loop cannot sleep through it. */
  lemma ExitSafe(s: State, run: seq<Action>)
    requires Init(s) && Runnable(Config(true), s, run)
    ensures var r := After(Config(true), s, run);
            r.loop == Blocked && r.exit ==> r.exiter == ExitStored || r.exiter == ExitUnlocked
  {
    InitInv(Config(true), s);
    InvAlways(Config(true), s, run);
  }

  // ---------------------------------------------------------------- the missed exit

  /** The loop sleeps, has to exit, and the exiting thread has nothing left to do. */
  predicate Missed(s: State) {
    s.loop == Blocked && s.exit && s.exiter == Notified
  }

  /** The loop has yet to test the exit flag again before it may sleep. */
  predicate Alert(s: State) {
    s.exit && s.exiter == Notified && s.loop != Deciding && s.loop != Blocked
  }

  /** The exit flag is set from the moment it is stored. */
  predicate ExitStage(s: State) {
    s.exit <==> s.exiter != NotYet && s.exiter != ExitLocked
  }

  lemma AlertStep(cfg: Config, s: State, a: Action)
    requires Alert(s) && Enabled(cfg, s, a)
    ensures Alert(Step(cfg, s, a))
  {
  }

  lemma {:induction false} AlertAlways(cfg: Config, s: State, run: seq<Action>)
    requires Alert(s) && Runnable(cfg, s, run)
    ensures Alert(After(cfg, s, run))
    decreases |run|
  {
    if run != [] {
      AlertStep(cfg, s, run[0]);
      AlertAlways(cfg, Step(cfg, s, run[0]), run[1..]);
    }
  }

  lemma ExitStageStep(cfg: Config, s: State, a: Action)
    requires Enabled(cfg, s, a)
    ensures ExitStage(s) ==> ExitStage(Step(cfg, s, a))
    ensures Step(cfg, s, a).exiter == Notified ==> s.exiter == Notified || a == ExitNotify
  {
    if !ByExiterStep(a) {
      ExitUntouched(cfg, s, a);
    }
  }

  lemma {:induction false} ExitStageAlways(cfg: Config, s: State, run: seq<Action>)
    requires ExitStage(s) && Runnable(cfg, s, run)
    ensures ExitStage(After(cfg, s, run))
    decreases |run|
  {
    if run != [] {
      ExitStageStep(cfg, s, run[0]);
      ExitStageAlways(cfg, Step(cfg, s, run[0]), run[1..]);
    }
  }

  /** A run may be cut anywhere. */
  lemma {:induction false} RunConcat(cfg: Config, s: State, a: seq<Action>, b: seq<Action>)
    ensures Runnable(cfg, s, a + b) <==> Runnable(cfg, s, a) && Runnable(cfg, After(cfg, s, a), b)
    ensures Runnable(cfg, s, a + b) ==> After(cfg, s, a + b) == After(cfg, After(cfg, s, a), b)
    decreases |a|
  {
    if a == [] {
      assert a + b == b;
    } else {
      assert (a + b)[0] == a[0] && (a + b)[1..] == a[1..] + b;
      if Enabled(cfg, s, a[0]) {
        RunConcat(cfg, Step(cfg, s, a[0]), a[1..], b);
      }
    }
  }

  lemma RunOne(cfg: Config, s: State, a: Action)
    ensures Runnable(cfg, s, [a]) <==> Enabled(cfg, s, a)
    ensures Enabled(cfg, s, a) ==> After(cfg, s, [a]) == Step(cfg, s, a)
  {
    assert [a][1..] == [];
    if Enabled(cfg, s, a) {
      assert Runnable(cfg, Step(cfg, s, a), []);
      assert After(cfg, Step(cfg, s, a), []) == Step(cfg, s, a);
    }
  }

  /** From s on, the loop can get to sleep through an exit that has been notified. */
  ghost predicate CanMiss(cfg: Config, s: State) {
    exists run :: Runnable(cfg, s, run) && Missed(After(cfg, s, run))
  }

  /**
   An exit can be slept through exactly when its notification comes in the moment between the
   test that found nothing to do and the sleep that follows.
   */
  lemma ExitMissedIff(cfg: Config, s: State)
    requires s.exiter == ExitUnlocked && ExitStage(s)
    ensures CanMiss(cfg, Step(cfg, s, ExitNotify)) <==> s.loop == Deciding
  {
    var s' := Step(cfg, s, ExitNotify);
    if s.loop == Deciding {
      RunOne(cfg, s', Decide);
      assert Runnable(cfg, s', [Decide]) && Missed(After(cfg, s', [Decide]));
    } else {
      forall run | Runnable(cfg, s', run) ensures !Missed(After(cfg, s', run)) {
        AlertAlways(cfg, s', run);
      }
    }
  }

  /** The same for every run of the program up to the notification. */
  lemma ExitMissedRuns(cfg: Config, s: State, run: seq<Action>)
    requires Init(s) && Runnable(cfg, s, run) && After(cfg, s, run).exiter == ExitUnlocked
    ensures (exists more :: Runnable(cfg, s, run + [ExitNotify] + more)
                            && Missed(After(cfg, s, run + [ExitNotify] + more)))
            <==> After(cfg, s, run).loop == Deciding
  {
    var r := After(cfg, s, run);
    ExitStageAlways(cfg, s, run);
    ExitMissedIff(cfg, r);
    RunOne(cfg, r, ExitNotify);
    RunConcat(cfg, s, run, [ExitNotify]);
    var r' := Step(cfg, r, ExitNotify);
    forall more
      ensures Runnable(cfg, s, run + [ExitNotify] + more) <==> Runnable(cfg, r', more)
      ensures Runnable(cfg, r', more) ==> After(cfg, s, run + [ExitNotify] + more) == After(cfg, r', more)
    {
      RunConcat(cfg, s, run + [ExitNotify], more);
    }
  }

  /** Every run that ends with the exit slept through had its notification in that moment. */
  lemma {:induction false} MissedBecause(cfg: Config, s: State, run: seq<Action>) returns (k: nat)
    requires Init(s) && Runnable(cfg, s, run) && Missed(After(cfg, s, run))
    ensures k < |run| && run[k] == ExitNotify
    ensures Runnable(cfg, s, run[..k]) && After(cfg, s, run[..k]).loop == Deciding
    decreases |run|
  {
    k := NotifyIn(cfg, s, run);
    var early, late := run[..k], run[k + 1..];
    assert run == early + [ExitNotify] + late;
    RunConcat(cfg, s, early + [ExitNotify], late);
    RunConcat(cfg, s, early, [ExitNotify]);
    RunOne(cfg, After(cfg, s, early), ExitNotify);
    ExitMissedRuns(cfg, s, early);
  }

  /** The exiting thread is done only by notifying. */
  lemma {:induction false} NotifyIn(cfg: Config, s: State, run: seq<Action>) returns (k: nat)
    requires Runnable(cfg, s, run) && s.exiter != Notified && After(cfg, s, run).exiter == Notified
    ensures k < |run| && run[k] == ExitNotify
    decreases |run|
  {
    ExitStageStep(cfg, s, run[0]);
    if run[0] == ExitNotify {
      k := 0;
    } else {
      k := NotifyIn(cfg, Step(cfg, s, run[0]), run[1..]);
      k := k + 1;
    }
  }

  /** The exit flag stays set, and a loop that has ended stays so. */
  lemma ExitStays(cfg: Config, s: State, a: Action)
    requires s.exit && Enabled(cfg, s, a)
    ensures Step(cfg, s, a).exit
    ensures s.loop == Done ==> Step(cfg, s, a).loop == Done && a != TestExit
    ensures a == TestExit ==> Step(cfg, s, a).loop == Done
  {
  }

  lemma {:induction false} DoneStays(cfg: Config, s: State, run: seq<Action>)
    requires s.exit && s.loop == Done && Runnable(cfg, s, run)
    ensures TestExit !in run
    decreases |run|
  {
    if run != [] {
      ExitStays(cfg, s, run[0]);
      DoneStays(cfg, Step(cfg, s, run[0]), run[1..]);
      assert run == [run[0]] + run[1..];
    }
  }

  /** Once the exit flag is set, the loop tests it at most once more: it starts no further round. */
  lemma {:induction false} ExitEndsLoop(cfg: Config, s: State, run: seq<Action>)
    requires s.exit && Runnable(cfg, s, run)
    ensures forall i, j :: 0 <= i < j < |run| ==> run[i] != TestExit || run[j] != TestExit
    ensures TestExit in run ==> After(cfg, s, run).loop == Done
    decreases |run|
  {
    if run != [] {
      var s', rest := Step(cfg, s, run[0]), run[1..];
      ExitStays(cfg, s, run[0]);
      ExitEndsLoop(cfg, s', rest);
      assert run == [run[0]] + rest;
      if run[0] == TestExit {
        DoneStays(cfg, s', rest);
        DoneAfter(cfg, s', rest);
      }
      forall i, j | 0 <= i < j < |run| ensures run[i] != TestExit || run[j] != TestExit {
        if i == 0 {
          assert run[j] in rest;
        } else {
          assert run[i] == rest[i - 1] && run[j] == rest[j - 1];
        }
      }
    }
  }

  lemma {:induction false} DoneAfter(cfg: Config, s: State, run: seq<Action>)
    requires s.exit && s.loop == Done && Runnable(cfg, s, run)
    ensures After(cfg, s, run).loop == Done
    decreases |run|
  {
    if run != [] {
      ExitStays(cfg, s, run[0]);
      DoneAfter(cfg, Step(cfg, s, run[0]), run[1..]);
    }
  }

  /** A state of the loop and the exiting thread alone. */
  function Alone(loop: LoopPc, mutex: Owner, waiting: bool, exit: bool, exiter: ExiterPc): State {
    State(mutex, [], 0, waiting, exit, false, loop, [], [], exiter, [], [])
  }

  /** The loop finds nothing to do, but is not asleep yet. */
  lemma LoopDecides(run: seq<Action>, r: State)
    requires Runnable(Config(false), Alone(Deciding, ByLoop, true, false, NotYet), run)
    requires After(Config(false), Alone(Deciding, ByLoop, true, false, NotYet), run) == r
    ensures var all := [TestExit] + ([LoopLock] + ([RaiseFlag] + ([Test] + run)));
            Runnable(Config(false), Alone(Top, Free, false, false, NotYet), all)
            && After(Config(false), Alone(Top, Free, false, false, NotYet), all) == r
  {
    var cfg := Config(false);
    Unroll(cfg, Alone(Testing, ByLoop, true, false, NotYet), Test, run, r);
    Unroll(cfg, Alone(HoldsLock, ByLoop, false, false, NotYet), RaiseFlag, [Test] + run, r);
    Unroll(cfg, Alone(WantLock, Free, false, false, NotYet), LoopLock, [RaiseFlag] + ([Test] + run), r);
    Unroll(cfg, Alone(Top, Free, false, false, NotYet), TestExit, [LoopLock] + ([RaiseFlag] + ([Test] + run)), r);
  }

  /** In that moment the exit is stored; the notification is still to come. */
  lemma ExitSlipsIn()
    ensures var run := [StoreExit] + ([ExitUnlock] + []);
            Runnable(Config(false), Alone(Deciding, ByLoop, true, false, NotYet), run)
            && After(Config(false), Alone(Deciding, ByLoop, true, false, NotYet), run)
               == Alone(Deciding, ByLoop, true, true, ExitUnlocked)
  {
    var cfg, r := Config(false), Alone(Deciding, ByLoop, true, true, ExitUnlocked);
    Unroll(cfg, Alone(Deciding, ByLoop, true, true, ExitStored), ExitUnlock, [], r);
    Unroll(cfg, Alone(Deciding, ByLoop, true, false, NotYet), StoreExit, [ExitUnlock] + [], r);
  }

  /** With the exit flag set outside the mutex of the loop, the moment can be hit and the exit missed. */
  lemma ExitCanBeMissed() returns (s: State, run: seq<Action>)
    ensures Init(s) && Runnable(Config(false), s, run) && Missed(After(Config(false), s, run))
  {
    s := Alone(Top, Free, false, false, NotYet);
    var tail := [StoreExit] + ([ExitUnlock] + []);
    ExitSlipsIn();
    LoopDecides(tail, Alone(Deciding, ByLoop, true, true, ExitUnlocked));
    run := [TestExit] + ([LoopLock] + ([RaiseFlag] + ([Test] + tail)));
    ExitMissedRuns(Config(false), s, run);
    var more :| Runnable(Config(false), s, run + [ExitNotify] + more)
                && Missed(After(Config(false), s, run + [ExitNotify] + more));
    run := run + [ExitNotify] + more;
  }

  /** With the exit flag set under the mutex of the loop, the moment never comes. */
  lemma ExitNeverMissed(s: State, run: seq<Action>)
    requires Init(s) && Runnable(Config(true), s, run)
    ensures !Missed(After(Config(true), s, run))
  {
    ExitSafe(s, run);
  }

  lemma Unroll(cfg: Config, s: State, a: Action, run: seq<Action>, r: State)
    requires Enabled(cfg, s, a)
    requires Runnable(cfg, Step(cfg, s, a), run) && After(cfg, Step(cfg, s, a), run) == r
    ensures Runnable(cfg, s, [a] + run) && After(cfg, s, [a] + run) == r
  {
    assert ([a] + run)[1..] == run;
  }
}
