/** The guarantees of sleep over whole runs, from power-on through any interleaving. */
module NodePowerRuns {
  import opened Words
  import opened NodePower
  import opened NodePowerProofs

  lemma MoveKeeps(m: Machine, move: Move)
    requires Inv(m) && Enabled(m, move)
    ensures Inv(Moved(m, move))
  {
    hide Inv, ThreadStep, Ticked, Called, Entering, InCallback;
    if move.Thread? {
      ThreadKeeps(m, move.choice);
    } else if move.IsrEnter? || move.IsrReadCause? || move.IsrClear? || move.IsrCallback? {
      IsrKeeps(m, move);
    } else if move.Tick? {
      TickKeeps(m);
    } else if move.CallInitialize? || move.CallSleep? || move.Outside? {
      CallKeeps(m, move);
    } else {
      OtherKeeps(m, move);
    }
  }

  lemma {:induction false} RunKeeps(m: Machine, moves: seq<Move>)
    requires Inv(m) && Allowed(m, moves)
    ensures Inv(Run(m, moves))
    decreases |moves|
  {
    hide Inv, Moved, Enabled;
    if moves != [] {
      MoveKeeps(m, moves[0]);
      RunKeeps(Moved(m, moves[0]), moves[1..]);
    }
  }

  /** A state some interleaving reaches from power-on. */
  ghost predicate Reachable(m: Machine) {
    exists start, moves :: PowerOn(start) && Allowed(start, moves) && Run(start, moves) == m
  }

  lemma ReachableIsGood(m: Machine)
    requires Reachable(m)
    ensures Inv(m)
  {
    hide Inv, Run, Allowed;
    var start, moves :| PowerOn(start) && Allowed(start, moves) && Run(start, moves) == m;
    PowerOnInv(start);
    RunKeeps(start, moves);
  }

  /** COUNT, COMP and CTRL are never touched while an earlier write is being synchronized. */
  lemma RegisterDiscipline(m: Machine)
    requires Reachable(m)
    ensures !m.hist.fault
  {
    ReachableIsGood(m);
  }

  /** The wait loop is left, and sleep reports success, only after this call's compare match. */
  lemma NoEarlyWake(m: Machine)
    requires Reachable(m)
    requires m.pc.End? || (m.hist.sleepCall && m.pc == Return(true))
    ensures m.hist.matched
    ensures m.hist.matchAt == TicksFor(m.hist.intervalMs) <= m.hist.sinceArm
  {
    ReachableIsGood(m);
  }

  /** PRIMASK and SLEEPDEEP are the caller's again when a call returns. */
  lemma MasksRestored(m: Machine)
    requires Reachable(m) && m.pc.Return?
    ensures m.cpu.primask == m.hist.entryPrimask
    ensures m.cpu.sleepDeep == m.hist.entrySleepDeep
  {
    ReachableIsGood(m);
  }

  /** The processor waits in Standby: SLEEPDEEP is set whenever the thread is in WFI. */
  lemma WaitsInStandby(m: Machine)
    requires Reachable(m) && m.pc == Loop(Wfi)
    ensures m.cpu.sleepDeep
  {
    ReachableIsGood(m);
  }

  /** No call returns with an RTC set up since the last stop, and a successful one leaves it at rest. */
  lemma StoppedOnReturn(m: Machine)
    requires Reachable(m) && m.pc.Return?
    ensures !m.hist.unstopped
    ensures m.pc.result ==> !m.rtc.enable && !m.rtc.running && !m.rtc.intEn && !m.rtc.intFlag && !m.cpu.rtcPending
  {
    ReachableIsGood(m);
  }

  // ----- no lost wakeup -----

  /** The thread in WFI is never left there with the compare match behind it. */
  lemma NoLostWakeup(m: Machine)
    requires Reachable(m) && m.pc == Loop(Wfi)
    ensures m.hist.matched ==> Enabled(m, Thread(false))
    ensures !m.hist.matched ==>
              Enabled(m, Tick) && m.rtc.count == m.hist.sinceArm < TicksFor(m.hist.intervalMs) == m.rtc.comp
  {
    ReachableIsGood(m);
  }

  function Ticks(n: nat): (moves: seq<Move>) {
    seq(n, _ => Tick)
  }

  /** Ticks that are left before the match. */
  function Left(m: Machine): int {
    m.rtc.comp - m.rtc.count
  }

  lemma TickInWfi(m: Machine)
    requires Inv(m) && m.pc == Loop(Wfi) && !m.hist.matched
    ensures Enabled(m, Tick) && Left(m) > 0
    ensures var n := Moved(m, Tick);
            && n.pc == Loop(Wfi) && (n.hist.matched <==> Left(m) == 1)
            && (n.hist.matched ==> WfiReleased(n.cpu))
            && (!n.hist.matched ==> Left(n) == Left(m) - 1)
  {}

  /** While the match is ahead, the thread sleeps through exactly the ticks that are left. */
  lemma {:induction false} WakesOnTime(m: Machine, n: nat)
    requires Inv(m) && m.pc == Loop(Wfi) && !m.hist.matched && n <= Left(m)
    ensures Allowed(m, Ticks(n))
    ensures var after := Run(m, Ticks(n));
            && Inv(after) && after.pc == Loop(Wfi)
            && (after.hist.matched <==> n == Left(m))
            && (after.hist.matched ==> WfiReleased(after.cpu))
    decreases n
  {
    hide Inv, Moved, Enabled, Left, WfiReleased;
    TickInWfi(m);
    if n == 0 {
      assert Ticks(n) == [];
    } else {
      assert Ticks(n)[0] == Tick && Ticks(n)[1..] == Ticks(n - 1);
      var next := Moved(m, Tick);
      MoveKeeps(m, Tick);
      if next.hist.matched {
        assert n == 1 && Ticks(n - 1) == [];
        assert Run(next, []) == next;
      } else {
        WakesOnTime(next, n - 1);
      }
    }
  }

  // ----- the wake is prompt -----

  predicate ByProcessor(move: Move) {
    move.Thread? || move.IsrEnter? || move.IsrReadCause? || move.IsrClear? || move.IsrCallback?
  }

  /** Interrupts first. */
  predicate Prompt(m: Machine, move: Move) {
    Enabled(m, move) && (move.Thread? ==> !Enabled(m, IsrEnter))
  }

  function LoopRank(at: LoopAt): nat {
    match at
    case TestFlag => 1
    case SaveDeep => 2
    case RestoreLoop => 2
    case RestoreDeep => 3
    case Wfi => 4
    case SetDeep => 5
    case RetestFlag => 6
    case MaskLoop => 7
  }

  function IsrRank(cpu: Cpu, rtc: Rtc): nat {
    var again := if cpu.rtcPending then 4 else 0;
    match cpu.isr
    case NoIsr => again
    case Entered => 3 + again
    case CauseRead(_) => 2 + again
    case Cleared(_) => 1 + (if cpu.rtcPending || Line(rtc) then 4 else 0)
  }

  /** Processor moves that are left before the wait loop is left. */
  function Rank(m: Machine): (r: nat)
    requires m.pc.Loop?
    ensures r <= 14
  {
    LoopRank(m.pc.loop) + IsrRank(m.cpu, m.rtc)
  }

  /**
   * After the match each move of the processor brings the end of the loop nearer. A tick can put it
   * off by one more run of the handler, and nothing else can put it off at all.
   */
  lemma WakeProgress(m: Machine, move: Move)
    requires Inv(m) && m.pc.Loop? && m.hist.matched && Prompt(m, move)
    ensures var n := Moved(m, move);
            if ByProcessor(move) then n.pc == End(MaskEnd) || (n.pc.Loop? && n.hist.matched && Rank(n) < Rank(m))
            else n.pc.Loop? && n.hist.matched && Rank(n) <= Rank(m) + (if move.Tick? then 4 else 0)
  {
    hide DeepInv;
    match move
    case Thread(_) =>
      match m.pc.loop {
        case SaveDeep =>
        case TestFlag =>
        case MaskLoop =>
        case RetestFlag =>
        case SetDeep =>
        case Wfi =>
        case RestoreDeep =>
        case RestoreLoop =>
      }
    case _ =>
  }

  lemma WakeEnabled(m: Machine)
    requires Inv(m) && m.pc.Loop? && m.hist.matched
    ensures exists move :: ByProcessor(move) && Prompt(m, move)
  {
    match m.cpu.isr
    case NoIsr =>
      if Enabled(m, IsrEnter) {
        assert Prompt(m, IsrEnter);
      } else {
        assert Prompt(m, Thread(false));
      }
    case Entered => assert Prompt(m, IsrReadCause);
    case CauseRead(_) => assert Prompt(m, IsrClear);
    case Cleared(_) => assert Prompt(m, IsrCallback);
  }

  /** A prompt run that stays in the wait loop. */
  predicate Waits(m: Machine, moves: seq<Move>)
    decreases |moves|
  {
    m.pc.Loop? && (moves != [] ==> Prompt(m, moves[0]) && Waits(Moved(m, moves[0]), moves[1..]))
  }

  function ProcessorMoves(moves: seq<Move>): (n: nat) {
    if moves == [] then 0
    else (if ByProcessor(moves[0]) then 1 else 0) + ProcessorMoves(moves[1..])
  }

  function TickMoves(moves: seq<Move>): (n: nat) {
    if moves == [] then 0
    else (if moves[0].Tick? then 1 else 0) + TickMoves(moves[1..])
  }

  /** After the match fourteen processor moves, and four more for each tick among them, leave the wait loop. */
  lemma {:induction false} WakeIsPrompt(m: Machine, moves: seq<Move>)
    requires Inv(m) && m.pc.Loop? && m.hist.matched && Waits(m, moves)
    ensures ProcessorMoves(moves) <= Rank(m) + 4 * TickMoves(moves) <= 14 + 4 * TickMoves(moves)
    decreases |moves|
  {
    hide Inv, Moved, Rank, Prompt;
    if moves != [] {
      assert Enabled(m, moves[0]) by { PromptIsEnabled(m, moves[0]); }
      WakeProgress(m, moves[0]);
      MoveKeeps(m, moves[0]);
      WakeIsPrompt(Moved(m, moves[0]), moves[1..]);
    }
  }

  lemma PromptIsEnabled(m: Machine, move: Move)
    requires Prompt(m, move)
    ensures Enabled(m, move)
  {}

  // ----- the latch -----

  /** Nothing but a call of initialization can be under way towards a sleep. */
  predicate Latched(m: Machine) {
    && !m.sw.powerReady
    && (m.pc == Idle || m.pc == Return(false) || (m.pc.Check? && m.pc.check.Arguments?))
  }

  /** What the firmware, as opposed to the running counter, has put in the RTC. */
  function Settings(rtc: Rtc): (bool, bool, bool, uint32) {
    (rtc.enable, rtc.intEn, rtc.clearOnMatch, rtc.comp)
  }

  lemma LatchStep(m: Machine, move: Move)
    requires Latched(m) && Enabled(m, move) && !move.CallInitialize?
    ensures Latched(Moved(m, move)) && Settings(Moved(m, move).rtc) == Settings(m.rtc)
  {}

  /** Without initialization every sleep is refused, and the RTC keeps its settings. */
  lemma {:induction false} RefusedUntilInitialized(m: Machine, moves: seq<Move>)
    requires Latched(m) && Allowed(m, moves)
    requires forall move :: move in moves ==> !move.CallInitialize?
    ensures Latched(Run(m, moves)) && Settings(Run(m, moves).rtc) == Settings(m.rtc)
    decreases |moves|
  {
    hide Latched, Moved, Enabled, Settings;
    if moves != [] {
      LatchStep(m, moves[0]);
      RefusedUntilInitialized(Moved(m, moves[0]), moves[1..]);
    }
  }

  /** Where a call can return false, and what the latch is then. */
  lemma FailingPlace(m: Machine, choice: bool)
    requires PlaceInv(m) && !m.pc.Return? && ThreadStep(m, choice).pc == Return(false)
    requires !(m.pc.Check? && m.pc.check.Arguments?)
    ensures !ThreadStep(m, choice).sw.powerReady
  {
    match m.pc
    case Init(at) =>
    case Stop(site, at) => assert at.Stopped? && site == Cleanup;
    case Check(at) =>
    case End(at) =>
    case _ =>
  }

  lemma FailingArguments(m: Machine, choice: bool)
    requires PlaceInv(m) && m.pc.Check? && m.pc.check.Arguments? && ThreadStep(m, choice).pc == Return(false)
    ensures m.pc == Check(Arguments(m.hist.intervalMs)) && Refused(m, m.hist.intervalMs)
  {}

  /** A call fails either on its arguments, before any write, or closes the latch. */
  lemma FailureLatches(m: Machine, choice: bool)
    requires Reachable(m) && Enabled(m, Thread(choice))
    requires !m.pc.Return? && ThreadStep(m, choice).pc == Return(false)
    ensures Latched(ThreadStep(m, choice))
            || (m.pc == Check(Arguments(m.hist.intervalMs)) && Refused(m, m.hist.intervalMs))
  {
    assert PlaceInv(m) by { ReachableIsGood(m); }
    hide Reachable, PlaceInv, ThreadStep, Enabled, Refused;
    if m.pc.Check? && m.pc.check.Arguments? {
      FailingArguments(m, choice);
    } else {
      FailingPlace(m, choice);
    }
  }

  /** Sleep is refused, before anything is written, exactly for these reasons; otherwise it goes on. */
  lemma RefusedIff(m: Machine, intervalMs: uint32, choice: bool)
    requires Reachable(m) && m.pc == Check(Arguments(intervalMs))
    ensures var n := ThreadStep(m, choice);
      var refused := !m.sw.powerReady || intervalMs == 0 || intervalMs > 4_194_303_999
                     || !m.cpu.irqEnabled || m.cpu.primask;
      && n.pc == (if refused then Return(false) else Check(Prepare))
      && n.rtc == m.rtc && n.cpu == m.cpu && n.sw.powerReady == m.sw.powerReady
  {
    TicksRefused(intervalMs);
    hide TicksFor;
  }

  /** A failed preparation ends the call with false and the latch closed; the RTC is not touched. */
  lemma PreparationIff(m: Machine, prepared: bool)
    requires Reachable(m) && m.pc == Check(Prepare)
    ensures var n := ThreadStep(m, prepared);
      && n.pc == (if prepared then Check(MaskArm) else Return(false))
      && n.rtc == m.rtc && n.cpu == m.cpu
      && n.sw.powerReady == prepared
  {
    assert m.sw.powerReady by { PreparingIsReady(m); }
  }

  lemma PreparingIsReady(m: Machine)
    requires Reachable(m) && m.pc == Check(Prepare)
    ensures m.sw.powerReady
  {
    ReachableIsGood(m);
  }

  /** Initialization is refused with the interrupt disabled, or with a nonzero mode or prescaler. */
  lemma InitializationRefused(m: Machine, modeIsZero: bool)
    requires Reachable(m)
    ensures m.pc == Idle && m.cpu.isr == NoIsr && !m.cpu.irqEnabled ==>
      var n := Moved(m, CallInitialize);
      n.pc == Return(false) && !n.sw.powerReady && n.rtc == m.rtc
    ensures m.pc == Init(ReadMode) ==>
      var n := ThreadStep(m, modeIsZero);
      n.pc == (if modeIsZero then Init(MaskInit) else Return(false)) && !n.sw.powerReady && n.rtc == m.rtc
  {
    ReachableIsGood(m);
  }

  // ----- the bounded waits -----

  /** A wait for the synchronization. */
  predicate Awaiting(pc: Pc) {
    match pc
    case Init(at) => at.AwaitReady?
    case Stop(_, at) => at.AwaitBefore? || at.AwaitAfter?
    case Arm(at) => at.AwaitCount? || at.AwaitComp? || at.AwaitEnable?
    case _ => false
  }

  /** Where a wait that times out leads. */
  function AfterTimeout(pc: Pc): Pc
    requires Awaiting(pc)
  {
    match pc
    case Init(_) => Return(false)
    case Stop(site, _) => Stop(site, Stopped(false))
    case Arm(_) => Arm(RestoreArm)
  }

  function Turns(n: nat): (moves: seq<Move>) {
    seq(n, _ => Thread(false))
  }

  lemma StopWaitStarts(m: Machine, site: Site, at: StopAt)
    requires m.pc == Stop(site, at)
    ensures var n := StopStep(m, site, at); Awaiting(n.pc) && n.pc != m.pc ==> n.sw.attempts == 1_000_000
  {}

  lemma ArmWaitStarts(m: Machine, at: ArmAt)
    requires m.pc == Arm(at)
    ensures var n := ArmStep(m, at); Awaiting(n.pc) && n.pc != m.pc ==> n.sw.attempts == 1_000_000
  {}

  lemma OtherWaitStarts(m: Machine, choice: bool)
    requires !m.pc.Stop? && !m.pc.Arm?
    ensures var n := ThreadStep(m, choice); Awaiting(n.pc) && n.pc != m.pc ==> n.sw.attempts == 1_000_000
  {
    hide StopStep, ArmStep;
    match m.pc
    case Init(_) =>
    case Check(_) =>
    case Loop(_) =>
    case End(_) =>
    case _ =>
  }

  lemma CallWaitStarts(m: Machine)
    ensures var n := Called(m); Awaiting(n.pc) ==> n.sw.attempts == 1_000_000
  {}

  /** Every wait starts with a million attempts. */
  lemma WaitStarts(m: Machine, choice: bool)
    ensures var n := ThreadStep(m, choice); Awaiting(n.pc) && n.pc != m.pc ==> n.sw.attempts == 1_000_000
    ensures var n := Called(m); Awaiting(n.pc) ==> n.sw.attempts == 1_000_000
  {
    CallWaitStarts(m);
    hide Called;
    match m.pc
    case Stop(site, at) =>
      hide StopStep, Awaiting;
      StopWaitStarts(m, site, at);
    case Arm(at) =>
      hide ArmStep, Awaiting;
      ArmWaitStarts(m, at);
    case _ =>
      hide ThreadStep, Awaiting;
      OtherWaitStarts(m, choice);
  }

  lemma BusyPoll(m: Machine)
    requires Awaiting(m.pc) && m.rtc.syncBusy && m.cpu.isr == NoIsr
    ensures Enabled(m, Thread(false))
    ensures m.sw.attempts > 1 ==>
      Moved(m, Thread(false)) == m.(sw := m.sw.(attempts := m.sw.attempts - 1))
    ensures m.sw.attempts <= 1 ==>
      var n := Moved(m, Thread(false));
      n.pc == AfterTimeout(m.pc) && (m.pc.Arm? ==> !n.sw.powerReady)
  {}

  /** While the RTC stays busy a wait polls as often as it has attempts left, and then times out. */
  lemma {:induction false} WaitTimesOut(m: Machine, polls: nat)
    requires Awaiting(m.pc) && m.rtc.syncBusy && m.cpu.isr == NoIsr && 0 < polls <= m.sw.attempts
    ensures Allowed(m, Turns(polls))
    ensures var n := Run(m, Turns(polls));
      && (polls < m.sw.attempts ==> n.pc == m.pc)
      && (polls == m.sw.attempts ==> n.pc == AfterTimeout(m.pc) && (m.pc.Arm? ==> !n.sw.powerReady))
    decreases polls
  {
    hide Awaiting, AfterTimeout, Moved, Enabled;
    BusyPoll(m);
    var n := Moved(m, Thread(false));
    assert Turns(polls)[0] == Thread(false) && Turns(polls)[1..] == Turns(polls - 1);
    if polls == 1 {
      assert Turns(0) == [] && Run(n, []) == n && Allowed(n, []);
    } else {
      WaitTimesOut(n, polls - 1);
    }
  }

  // ----- the length -----

  /** The least number of 1024 Hz ticks that last at least the interval. */
  lemma TicksAreLeast(intervalMs: uint32)
    ensures var t := TicksFor(intervalMs);
            t * 1000 >= intervalMs * 1024 && (t > 0 ==> (t - 1) * 1000 < intervalMs * 1024)
  {}

  lemma TicksRefused(intervalMs: uint32)
    ensures TicksFor(intervalMs) == 0 <==> intervalMs == 0
    ensures TicksFor(intervalMs) > UINT32_MAX <==> intervalMs > 4_194_303_999
    ensures intervalMs * 1024 + 999 < 0x1_0000_0000_0000_0000
  {}
}
