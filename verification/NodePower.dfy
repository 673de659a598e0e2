/**
 * RTC sleep as an interleaving of the thread (one register access or flag test per step), the RTC
 * interrupt handler, the RTC hardware and unrelated interrupts.
 */
module NodePower {
  import opened Words

  const CLOCK_HZ: nat := 1024
  const WAIT_ATTEMPTS: nat := 1_000_000
  const UINT32_MAX: nat := 0xFFFF_FFFF

  /** The 64-bit tick computation, rounding up. */
  function TicksFor(intervalMs: uint32): nat {
    (intervalMs * CLOCK_HZ + 999) / 1000
  }

  // ----- the program counter -----

  /** The four places that call the stop routine. */
  datatype Site = Initialize | Rearm | Cleanup | Final

  datatype InitAt = AwaitReady | ReadMode | MaskInit | FinishInit(stopped: bool)

  datatype StopAt =
    | AwaitBefore | DisableInterrupts | Disable | AwaitAfter | ClearFlags | ClearPending | Stopped(ok: bool)

  datatype CheckAt = Arguments(intervalMs: uint32) | Prepare | MaskArm

  datatype ArmAt =
    | WriteCount | AwaitCount | WriteComp | AwaitComp | EnableInterrupt | Enable | AwaitEnable | RestoreArm

  datatype LoopAt = SaveDeep | TestFlag | MaskLoop | RetestFlag | SetDeep | Wfi | RestoreDeep | RestoreLoop

  datatype EndAt = MaskEnd | RestoreEnd

  datatype Pc =
    | Idle
    | Init(init: InitAt)
    | Stop(site: Site, stop: StopAt)
    | Check(check: CheckAt)
    | Arm(arm: ArmAt)
    | Loop(loop: LoopAt)
    | End(end: EndAt)
    | Return(result: bool)

  // ----- the state -----

  /** Locals and statics of the firmware. */
  datatype Software = Software(
    attempts: nat, interruptState: bool, savedSleepDeep: bool, ticks: uint32,
    rtcWakePending: bool, powerReady: bool, registered: bool)

  /** The RTC handler: entered, cause read, flags cleared and callback still to run. */
  datatype Isr = NoIsr | Entered | CauseRead(compare: bool) | Cleared(compare: bool)

  datatype Cpu = Cpu(
    primask: bool, sleepDeep: bool, irqEnabled: bool, rtcPending: bool, otherPending: bool, isr: Isr)

  /** The enable bit as written and the counter as running differ while a write is synchronized. */
  datatype Rtc = Rtc(
    syncBusy: bool, enable: bool, running: bool, clearOnMatch: bool,
    count: uint32, comp: uint32, intEn: bool, intFlag: bool, otherFlag: bool)

  /**
   * What the theorems speak about: whether a synchronized register was touched while busy; whether the
   * RTC has been set up since the stop routine was last entered; ticks and the
   * first match since COUNT was zeroed; what the caller saw on entry, whether it called sleep and for how
   * long.
   */
  datatype History = History(
    fault: bool, unstopped: bool, sinceArm: nat, matched: bool, matchAt: nat,
    entryPrimask: bool, entrySleepDeep: bool, sleepCall: bool, intervalMs: uint32)

  datatype Machine = Machine(pc: Pc, sw: Software, cpu: Cpu, rtc: Rtc, hist: History)

  /** The interrupt line of the RTC. */
  predicate Line(rtc: Rtc) {
    rtc.intEn && rtc.intFlag
  }

  // ----- thread steps -----

  function Goto(m: Machine, pc: Pc): Machine {
    m.(pc := pc)
  }

  /** One turn of the bounded wait for the synchronization. */
  function Await(m: Machine, done: Pc, timedOut: Machine): Machine {
    if !m.rtc.syncBusy then Goto(m, done)
    else if m.sw.attempts <= 1 then timedOut
    else m.(sw := m.sw.(attempts := m.sw.attempts - 1))
  }

  function StartAwait(m: Machine, pc: Pc): Machine {
    m.(pc := pc, sw := m.sw.(attempts := WAIT_ATTEMPTS))
  }

  /** A call of the stop routine. */
  function StartStop(m: Machine, site: Site): Machine {
    StartAwait(m.(hist := m.hist.(unstopped := false)), Stop(site, AwaitBefore))
  }

  /** A register is set up for the sleep. */
  function SetUp(m: Machine): Machine {
    m.(hist := m.hist.(unstopped := true))
  }

  /** Write of a register behind clock synchronization: a fault while the last write is pending. */
  function Synchronized(m: Machine, written: Rtc): Machine {
    m.(rtc := written.(syncBusy := true), hist := m.hist.(fault := m.hist.fault || m.rtc.syncBusy))
  }

  /** Interrupts off, the previous state kept in the local. */
  function Mask(m: Machine): Machine {
    m.(sw := m.sw.(interruptState := !m.cpu.primask), cpu := m.cpu.(primask := true))
  }

  function Restore(m: Machine): Machine {
    m.(cpu := m.cpu.(primask := !m.sw.interruptState))
  }

  function SetReady(m: Machine, ready: bool): Machine {
    m.(sw := m.sw.(powerReady := ready))
  }

  /** Initialization, after the frequency and interrupt checks. */
  function InitStep(m: Machine, at: InitAt, modeIsZero: bool): Machine {
    match at
    case AwaitReady => Await(m, Init(ReadMode), Goto(m, Return(false)))
    case ReadMode =>
      m.(pc := if modeIsZero then Init(MaskInit) else Return(false),
         hist := m.hist.(fault := m.hist.fault || m.rtc.syncBusy))
    case MaskInit => StartStop(Mask(m), Initialize)
    case FinishInit(stopped) =>
      Goto(Restore(m.(sw := m.sw.(powerReady := stopped, rtcWakePending := false, registered := true))),
           Return(stopped))
  }

  /** The stop routine. */
  function StopStep(m: Machine, site: Site, at: StopAt): Machine {
    match at
    case AwaitBefore => Await(m, Stop(site, DisableInterrupts), Goto(m, Stop(site, Stopped(false))))
    case DisableInterrupts => Goto(m.(rtc := m.rtc.(intEn := false)), Stop(site, Disable))
    case Disable => StartAwait(Synchronized(m, m.rtc.(enable := false)), Stop(site, AwaitAfter))
    case AwaitAfter => Await(m, Stop(site, ClearFlags), Goto(m, Stop(site, Stopped(false))))
    case ClearFlags =>
      Goto(m.(rtc := m.rtc.(intFlag := false, otherFlag := false)), Stop(site, ClearPending))
    case ClearPending =>
      Goto(m.(cpu := m.cpu.(rtcPending := Line(m.rtc))), Stop(site, Stopped(true)))
    case Stopped(ok) => StopReturned(m, site, ok)
  }

  function StopReturned(m: Machine, site: Site, ok: bool): Machine {
    match site
    case Initialize => Goto(m, Init(FinishInit(ok)))
    case Rearm =>
      m.(pc := Arm(if ok then WriteCount else RestoreArm),
         sw := m.sw.(powerReady := ok, rtcWakePending := false))
    case Cleanup => Goto(m, Return(false))
    case Final => Goto(SetReady(m, ok), End(RestoreEnd))
  }

  /** The checks of sleep that come before any write. */
  predicate Refused(m: Machine, intervalMs: uint32) {
    var ticks := TicksFor(intervalMs);
    !m.sw.powerReady || ticks == 0 || ticks > UINT32_MAX || !m.cpu.irqEnabled || m.cpu.primask
  }

  function CheckStep(m: Machine, at: CheckAt, prepared: bool): Machine {
    match at
    case Arguments(intervalMs) =>
      if Refused(m, intervalMs) then Goto(m, Return(false))
      else m.(pc := Check(Prepare), sw := m.sw.(ticks := TicksFor(intervalMs)))
    case Prepare =>
      if prepared then Goto(m, Check(MaskArm)) else Goto(SetReady(m, false), Return(false))
    case MaskArm => StartStop(Mask(m), Rearm)
  }

  /** Arming under PRIMASK. */
  function ArmStep(m: Machine, at: ArmAt): Machine {
    match at
    case WriteCount =>
      var written := Synchronized(SetUp(m), m.rtc.(count := 0));
      StartAwait(written.(hist := written.hist.(sinceArm := 0, matched := false)), Arm(AwaitCount))
    case AwaitCount => Await(m, Arm(WriteComp), Goto(SetReady(m, false), Arm(RestoreArm)))
    case WriteComp => StartAwait(Synchronized(SetUp(m), m.rtc.(comp := m.sw.ticks)), Arm(AwaitComp))
    case AwaitComp => Await(m, Arm(EnableInterrupt), Goto(SetReady(m, false), Arm(RestoreArm)))
    case EnableInterrupt =>
      Goto(SetUp(m).(rtc := m.rtc.(intEn := true), cpu := m.cpu.(rtcPending := m.cpu.rtcPending || m.rtc.intFlag)),
           Arm(Enable))
    case Enable => StartAwait(Synchronized(SetUp(m), m.rtc.(enable := true)), Arm(AwaitEnable))
    case AwaitEnable => Await(m, Arm(RestoreArm), Goto(SetReady(m, false), Arm(RestoreArm)))
    case RestoreArm =>
      if m.sw.powerReady then Goto(Restore(m), Loop(SaveDeep))
      else StartStop(Restore(m), Cleanup)
  }

  /** The wait loop. */
  function LoopStep(m: Machine, at: LoopAt): Machine {
    match at
    case SaveDeep => Goto(m.(sw := m.sw.(savedSleepDeep := m.cpu.sleepDeep)), Loop(TestFlag))
    case TestFlag => Goto(m, if m.sw.rtcWakePending then End(MaskEnd) else Loop(MaskLoop))
    case MaskLoop => Goto(Mask(m), Loop(RetestFlag))
    case RetestFlag => Goto(m, Loop(if m.sw.rtcWakePending then RestoreDeep else SetDeep))
    case SetDeep => Goto(m.(cpu := m.cpu.(sleepDeep := true)), Loop(Wfi))
    case Wfi => Goto(m, Loop(RestoreDeep))
    case RestoreDeep => Goto(m.(cpu := m.cpu.(sleepDeep := m.sw.savedSleepDeep)), Loop(RestoreLoop))
    case RestoreLoop => Goto(Restore(m), Loop(TestFlag))
  }

  /** After the wake. */
  function EndStep(m: Machine, at: EndAt): Machine {
    match at
    case MaskEnd => StartStop(Mask(m), Final)
    case RestoreEnd => Goto(Restore(m), Return(m.sw.powerReady))
  }

  /** `choice` is the outcome of what the RTC model does not decide: peripheral preparation, mode bits. */
  function ThreadStep(m: Machine, choice: bool): Machine {
    match m.pc
    case Idle => m
    case Init(at) => InitStep(m, at, choice)
    case Stop(site, at) => StopStep(m, site, at)
    case Check(at) => CheckStep(m, at, choice)
    case Arm(at) => ArmStep(m, at)
    case Loop(at) => LoopStep(m, at)
    case End(at) => EndStep(m, at)
    case Return(_) => Goto(m, Idle)
  }

  // ----- everything else that can happen -----

  datatype Move =
    | Thread(choice: bool)
    | CallInitialize
    | CallSleep(intervalMs: uint32)
    | Outside(primask: bool, irqEnabled: bool, sleepDeep: bool)   // code between calls
    | IsrEnter | IsrReadCause | IsrClear | IsrCallback
    | SyncDone
    | Tick
    | OtherFlagSet
    | OtherInterrupt | OtherHandled

  /** WFI waits for an enabled pending interrupt, masked or not. */
  predicate WfiReleased(cpu: Cpu) {
    (cpu.rtcPending && cpu.irqEnabled) || cpu.otherPending
  }

  predicate Enabled(m: Machine, move: Move) {
    match move
    case Thread(_) => m.cpu.isr == NoIsr && m.pc != Idle && (m.pc == Loop(Wfi) ==> WfiReleased(m.cpu))
    case CallInitialize => m.cpu.isr == NoIsr && m.pc == Idle
    case CallSleep(_) => m.cpu.isr == NoIsr && m.pc == Idle
    case Outside(_, _, _) => m.cpu.isr == NoIsr && m.pc == Idle
    case IsrEnter => m.cpu.isr == NoIsr && !m.cpu.primask && m.cpu.irqEnabled && m.cpu.rtcPending
    case IsrReadCause => m.cpu.isr == Entered
    case IsrClear => m.cpu.isr.CauseRead?
    case IsrCallback => m.cpu.isr.Cleared?
    case SyncDone => m.rtc.syncBusy
    case Tick => m.rtc.running || m.rtc.enable
    case OtherFlagSet => true
    case OtherInterrupt => true
    case OtherHandled => m.cpu.isr == NoIsr && !m.cpu.primask && m.cpu.otherPending
  }

  /** Both calls start by recording what the caller sees. */
  function Entering(m: Machine, pc: Pc, sleepCall: bool): Machine {
    m.(pc := pc, hist := m.hist.(sleepCall := sleepCall, entryPrimask := m.cpu.primask,
                                 entrySleepDeep := m.cpu.sleepDeep))
  }

  function Called(m: Machine): Machine {
    var entered := Entering(SetReady(m, false), Return(false), false);
    if m.cpu.irqEnabled then StartAwait(entered, Init(AwaitReady)) else entered
  }

  /** COUNT advances; reaching COMP raises the flag, and with MATCHCLR the next tick restarts at 0. */
  function Ticked(m: Machine): Machine {
    var count: uint32 := if m.rtc.clearOnMatch && m.rtc.count == m.rtc.comp then 0
                         else (m.rtc.count + 1) % 0x1_0000_0000;
    var hit := count == m.rtc.comp;
    m.(rtc := m.rtc.(count := count, intFlag := m.rtc.intFlag || hit),
       cpu := m.cpu.(rtcPending := m.cpu.rtcPending || (hit && m.rtc.intEn)),
       hist := m.hist.(sinceArm := m.hist.sinceArm + 1,
                       matchAt := if hit && !m.hist.matched then m.hist.sinceArm + 1 else m.hist.matchAt,
                       matched := m.hist.matched || hit))
  }

  function InCallback(m: Machine): Machine
    requires m.cpu.isr.Cleared?
  {
    m.(cpu := m.cpu.(isr := NoIsr, rtcPending := m.cpu.rtcPending || Line(m.rtc)),
       sw := m.sw.(rtcWakePending := m.sw.rtcWakePending || (m.sw.registered && m.cpu.isr.compare)))
  }

  function Moved(m: Machine, move: Move): Machine
    requires Enabled(m, move)
  {
    match move
    case Thread(choice) => ThreadStep(m, choice)
    case CallInitialize => Called(m)
    case CallSleep(intervalMs) =>
      var entered := Entering(m, Check(Arguments(intervalMs)), true);
      entered.(hist := entered.hist.(intervalMs := intervalMs))
    case Outside(primask, irqEnabled, sleepDeep) =>
      m.(cpu := m.cpu.(primask := primask, irqEnabled := irqEnabled, sleepDeep := sleepDeep))
    case IsrEnter => m.(cpu := m.cpu.(isr := Entered, rtcPending := false))
    case IsrReadCause => m.(cpu := m.cpu.(isr := CauseRead(m.rtc.intFlag)))
    case IsrClear =>
      m.(cpu := m.cpu.(isr := Cleared(m.cpu.isr.compare)), rtc := m.rtc.(intFlag := false, otherFlag := false))
    case IsrCallback => InCallback(m)
    case SyncDone => m.(rtc := m.rtc.(syncBusy := false, running := m.rtc.enable))
    case Tick => Ticked(m)
    case OtherFlagSet => m.(rtc := m.rtc.(otherFlag := true))
    case OtherInterrupt => m.(cpu := m.cpu.(otherPending := true))
    case OtherHandled => m.(cpu := m.cpu.(otherPending := false))
  }

  /** Power-on: nothing is known of the RTC, its flags or a pending interrupt. */
  predicate PowerOn(m: Machine) {
    && m.pc == Idle && m.cpu.isr == NoIsr
    && !m.sw.powerReady && !m.sw.registered && !m.hist.fault && !m.hist.unstopped
  }

  /** A sequence of moves, each possible in its turn. */
  predicate Allowed(m: Machine, moves: seq<Move>)
    decreases |moves|
  {
    moves == [] || (Enabled(m, moves[0]) && Allowed(Moved(m, moves[0]), moves[1..]))
  }

  function Run(m: Machine, moves: seq<Move>): (r: Machine)
    requires Allowed(m, moves)
    decreases |moves|
  {
    if moves == [] then m else Run(Moved(m, moves[0]), moves[1..])
  }
}
