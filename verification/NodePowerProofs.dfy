/** What holds in every interleaving of the sleep code with interrupts and the RTC. */
module NodePowerProofs {
  import opened NodePower

  // ----- where the thread is -----

  /** Sleep, past its checks. */
  predicate InSleep(pc: Pc) {
    match pc
    case Check(at) => !at.Arguments?
    case Arm(_) => true
    case Loop(_) => true
    case End(_) => true
    case Stop(site, _) => site != Initialize
    case _ => false
  }

  /** Between an interrupt mask and its restore. */
  predicate Masked(pc: Pc) {
    match pc
    case Init(at) => at.FinishInit?
    case Stop(site, _) => site != Cleanup
    case Arm(_) => true
    case Loop(at) => !(at.SaveDeep? || at.TestFlag? || at.MaskLoop?)
    case End(at) => at.RestoreEnd?
    case _ => false
  }

  // ----- the invariant -----

  /** PRIMASK is as on entry outside the masked sections, and will be restored from inside them. */
  predicate MaskInv(m: Machine) {
    && (m.cpu.isr != NoIsr ==> !m.cpu.primask)
    && (m.pc != Idle ==>
          if Masked(m.pc) then m.cpu.primask && m.sw.interruptState == !m.hist.entryPrimask
          else m.cpu.primask == m.hist.entryPrimask)
    && (InSleep(m.pc) ==>
          && !m.hist.entryPrimask && m.cpu.irqEnabled && m.sw.registered && m.hist.sleepCall
          && 0 < m.sw.ticks == TicksFor(m.hist.intervalMs))
    && (m.sw.powerReady ==> m.sw.registered)
  }

  /** SLEEPDEEP is as on entry except around WFI, where the saved copy is. */
  predicate DeepInv(m: Machine) {
    && (m.pc.Loop? && m.pc.loop != SaveDeep ==> m.sw.savedSleepDeep == m.hist.entrySleepDeep)
    && (m.pc != Idle && m.pc != Loop(Wfi) && m.pc != Loop(RestoreDeep) ==>
          m.cpu.sleepDeep == m.hist.entrySleepDeep)
    && (m.pc == Loop(Wfi) ==> m.cpu.sleepDeep)
  }

  /** The stop routine, step by step. */
  predicate StopInv(rtc: Rtc, cpu: Cpu, at: StopAt) {
    match at
    case AwaitBefore => true
    case DisableInterrupts => !rtc.syncBusy
    case Disable => !rtc.syncBusy && !rtc.intEn
    case AwaitAfter => !rtc.intEn && !rtc.enable && (!rtc.syncBusy ==> !rtc.running)
    case ClearFlags => !rtc.syncBusy && !rtc.intEn && !rtc.enable && !rtc.running
    case ClearPending => !rtc.syncBusy && !rtc.intEn && !rtc.enable && !rtc.running && !rtc.intFlag
    case Stopped(ok) => ok ==> Quiet(rtc, cpu) && !rtc.syncBusy && !rtc.intEn
  }

  /** No tick can come, nothing is flagged, nothing is pending. */
  predicate Quiet(rtc: Rtc, cpu: Cpu) {
    !rtc.enable && !rtc.running && !rtc.intFlag && !cpu.rtcPending
  }

  predicate Fresh(m: Machine) {
    m.rtc.count == 0 && m.hist.sinceArm == 0 && !m.hist.matched
  }

  /** Armed, and the compare match either still ahead or on its way to the flag. */
  predicate Armed(m: Machine) {
    && m.rtc.intEn && m.rtc.enable && m.rtc.comp == m.sw.ticks
    && (if !m.hist.matched then
          && m.rtc.count == m.hist.sinceArm < m.rtc.comp
          && !m.rtc.intFlag && !m.cpu.rtcPending && m.cpu.isr == NoIsr && !m.sw.rtcWakePending
        else
          && m.hist.matchAt == m.sw.ticks <= m.hist.sinceArm
          && (m.sw.rtcWakePending
              || m.cpu.isr == CauseRead(true) || m.cpu.isr == Cleared(true)
              || (m.cpu.isr == Entered && m.rtc.intFlag)
              || (m.cpu.isr == NoIsr && m.cpu.rtcPending && m.rtc.intFlag)))
  }

  /** The RTC counted the whole interval from zero before the first match. */
  predicate Slept(m: Machine) {
    m.hist.matched && m.hist.matchAt == TicksFor(m.hist.intervalMs) <= m.hist.sinceArm
  }

  predicate ArmInv(m: Machine, at: ArmAt) {
    match at
    case WriteCount => Quiet(m.rtc, m.cpu) && !m.sw.rtcWakePending && m.sw.powerReady && !m.rtc.syncBusy
    case AwaitCount => Quiet(m.rtc, m.cpu) && !m.sw.rtcWakePending && m.sw.powerReady && Fresh(m)
    case WriteComp =>
      Quiet(m.rtc, m.cpu) && !m.sw.rtcWakePending && m.sw.powerReady && Fresh(m) && !m.rtc.syncBusy
    case AwaitComp =>
      && Quiet(m.rtc, m.cpu) && !m.sw.rtcWakePending && m.sw.powerReady && Fresh(m)
      && m.rtc.comp == m.sw.ticks
    case EnableInterrupt =>
      && Quiet(m.rtc, m.cpu) && !m.sw.rtcWakePending && m.sw.powerReady && Fresh(m)
      && m.rtc.comp == m.sw.ticks && !m.rtc.syncBusy
    case Enable =>
      && Quiet(m.rtc, m.cpu) && !m.sw.rtcWakePending && m.sw.powerReady && Fresh(m)
      && m.rtc.comp == m.sw.ticks && !m.rtc.syncBusy && m.rtc.intEn
    case AwaitEnable => Armed(m) && m.sw.powerReady
    case RestoreArm => m.sw.powerReady ==> Armed(m)
  }

  /** The stop routine has been run to its end: the RTC does nothing and asks for nothing. */
  predicate AtRest(m: Machine) {
    Quiet(m.rtc, m.cpu) && !m.rtc.syncBusy && !m.rtc.intEn
  }

  predicate InitInv(m: Machine, at: InitAt) {
    && !m.hist.unstopped
    && (at.FinishInit? && at.stopped ==> AtRest(m))
    && !m.hist.sleepCall && !m.sw.powerReady
    && (at == ReadMode ==> !m.rtc.syncBusy)
  }

  /** What each place of the code relies on: registers, flags and the record of the sleep. */
  predicate PlaceInv(m: Machine) {
    match m.pc
    case Idle => !m.hist.unstopped
    case Init(at) => InitInv(m, at)
    case Stop(site, at) =>
      && StopInv(m.rtc, m.cpu, at) && !m.hist.unstopped
      && (site == Final ==> Slept(m))
      && (site == Initialize ==> !m.hist.sleepCall)
      && (site == Initialize || site == Cleanup ==> !m.sw.powerReady)
    case Check(at) =>
      && !m.hist.unstopped && m.hist.sleepCall
      && (if at.Arguments? then at.intervalMs == m.hist.intervalMs else m.sw.powerReady)
    case Arm(at) => ArmInv(m, at)
    case Loop(at) => Armed(m) && m.sw.powerReady && (at == SetDeep || at == Wfi ==> !m.sw.rtcWakePending)
    case End(at) => Slept(m) && (at == RestoreEnd ==> !m.hist.unstopped && (m.sw.powerReady ==> AtRest(m)))
    case Return(result) =>
      !m.hist.unstopped && (result ==> m.sw.powerReady && AtRest(m) && (m.hist.sleepCall ==> Slept(m)))
  }

  predicate Inv(m: Machine) {
    && !m.hist.fault
    && MaskInv(m)
    && DeepInv(m)
    && PlaceInv(m)
  }

  lemma PowerOnInv(m: Machine)
    requires PowerOn(m)
    ensures Inv(m)
  {}

  lemma InitKeeps(m: Machine, at: InitAt, choice: bool)
    requires Inv(m) && m.pc == Init(at) && m.cpu.isr == NoIsr
    ensures Inv(InitStep(m, at, choice))
  {}

  lemma StopPlace(m: Machine, site: Site, at: StopAt)
    requires Inv(m) && m.pc == Stop(site, at)
    ensures PlaceInv(StopStep(m, site, at)) && !StopStep(m, site, at).hist.fault
  {
    hide DeepInv;
    match at
    case AwaitBefore =>
    case DisableInterrupts =>
    case Disable =>
    case AwaitAfter =>
    case ClearFlags =>
    case ClearPending =>
    case Stopped(_) =>
  }

  lemma StopMasks(m: Machine, site: Site, at: StopAt)
    requires MaskInv(m) && DeepInv(m) && m.pc == Stop(site, at) && m.cpu.isr == NoIsr
    ensures MaskInv(StopStep(m, site, at)) && DeepInv(StopStep(m, site, at))
  {
    if at.Stopped? {
      match site
      case Initialize =>
      case Rearm =>
      case Cleanup =>
      case Final =>
    } else {
      assert StopStep(m, site, at).pc.Stop? && StopStep(m, site, at).pc.site == site;
    }
  }

  lemma StopKeeps(m: Machine, site: Site, at: StopAt)
    requires Inv(m) && m.pc == Stop(site, at) && m.cpu.isr == NoIsr
    ensures Inv(StopStep(m, site, at))
  {
    StopPlace(m, site, at);
    hide PlaceInv, StopStep, StopReturned;
    StopMasks(m, site, at);
  }

  lemma CheckKeeps(m: Machine, at: CheckAt, choice: bool)
    requires Inv(m) && m.pc == Check(at) && m.cpu.isr == NoIsr
    ensures Inv(CheckStep(m, at, choice))
  {}

  lemma ArmPlace(m: Machine, at: ArmAt)
    requires Inv(m) && m.pc == Arm(at) && m.cpu.isr == NoIsr
    ensures PlaceInv(ArmStep(m, at)) && !ArmStep(m, at).hist.fault
  {
    hide DeepInv;
    match at
    case WriteCount =>
    case AwaitCount =>
    case WriteComp =>
    case AwaitComp =>
    case EnableInterrupt =>
    case Enable =>
    case AwaitEnable =>
    case RestoreArm =>
  }

  lemma ArmKeeps(m: Machine, at: ArmAt)
    requires Inv(m) && m.pc == Arm(at) && m.cpu.isr == NoIsr
    ensures Inv(ArmStep(m, at))
  {
    ArmPlace(m, at);
    hide PlaceInv;
  }

  lemma LoopKeeps(m: Machine, at: LoopAt)
    requires Inv(m) && m.pc == Loop(at) && m.cpu.isr == NoIsr
    ensures Inv(LoopStep(m, at))
  {}

  lemma EndKeeps(m: Machine, at: EndAt)
    requires Inv(m) && m.pc == End(at) && m.cpu.isr == NoIsr
    ensures Inv(EndStep(m, at))
  {}

  lemma ThreadKeeps(m: Machine, choice: bool)
    requires Inv(m) && Enabled(m, Thread(choice))
    ensures Inv(ThreadStep(m, choice))
  {
    hide InitStep, StopStep, CheckStep, ArmStep, LoopStep, EndStep;
    match m.pc
    case Idle => assert false;
    case Init(at) => InitKeeps(m, at, choice);
    case Stop(site, at) => StopKeeps(m, site, at);
    case Check(at) => CheckKeeps(m, at, choice);
    case Arm(at) => ArmKeeps(m, at);
    case Loop(at) => LoopKeeps(m, at);
    case End(at) => EndKeeps(m, at);
    case Return(_) =>
  }

  /** A tick while armed: the count goes on, or reaches COMP and raises the interrupt. */
  lemma TickArmed(m: Machine)
    requires Armed(m)
    ensures Armed(Ticked(m))
  {}

  lemma TickPlace(m: Machine)
    requires PlaceInv(m) && Enabled(m, Tick)
    ensures PlaceInv(Ticked(m))
  {
    hide Armed;
    if Armed(m) {
      TickArmed(m);
    }
    match m.pc
    case Idle =>
    case Init(at) =>
    case Stop(site, at) =>
    case Check(at) =>
    case Arm(at) =>
    case Loop(at) =>
    case End(_) =>
    case Return(_) =>
  }

  lemma TickKeeps(m: Machine)
    requires Inv(m) && Enabled(m, Tick)
    ensures Inv(Ticked(m))
  {
    assert PlaceInv(Ticked(m)) by { TickPlace(m); }
    hide PlaceInv;
  }

  lemma IsrPlace(m: Machine, move: Move)
    requires PlaceInv(m) && MaskInv(m) && Enabled(m, move)
    requires move.IsrEnter? || move.IsrReadCause? || move.IsrClear? || move.IsrCallback?
    ensures PlaceInv(Moved(m, move))
  {}

  lemma IsrKeeps(m: Machine, move: Move)
    requires Inv(m) && Enabled(m, move)
    requires move.IsrEnter? || move.IsrReadCause? || move.IsrClear? || move.IsrCallback?
    ensures Inv(Moved(m, move))
  {
    assert PlaceInv(Moved(m, move)) by { IsrPlace(m, move); }
    hide PlaceInv;
  }

  /** A synchronization that completes only makes more accesses safe. */
  lemma SyncPlace(m: Machine)
    requires PlaceInv(m) && Enabled(m, SyncDone)
    ensures PlaceInv(Moved(m, SyncDone))
  {
    match m.pc
    case Stop(_, _) => SyncStopping(m);
    case Arm(_) => SyncArming(m);
    case _ => SyncElsewhere(m);
  }

  lemma SyncStopping(m: Machine)
    requires PlaceInv(m) && m.rtc.syncBusy && m.pc.Stop?
    ensures PlaceInv(Moved(m, SyncDone))
  {}

  lemma SyncArming(m: Machine)
    requires PlaceInv(m) && m.rtc.syncBusy && m.pc.Arm?
    ensures PlaceInv(Moved(m, SyncDone))
  {}

  lemma SyncElsewhere(m: Machine)
    requires PlaceInv(m) && m.rtc.syncBusy && !m.pc.Stop? && !m.pc.Arm?
    ensures PlaceInv(Moved(m, SyncDone))
  {}

  lemma OtherFlagPlace(m: Machine)
    requires PlaceInv(m)
    ensures PlaceInv(m.(rtc := m.rtc.(otherFlag := true)))
  {
    match m.pc
    case Stop(_, _) => OtherFlagStopping(m);
    case Arm(_) => OtherFlagArming(m);
    case _ => OtherFlagElsewhere(m);
  }

  lemma OtherFlagStopping(m: Machine)
    requires PlaceInv(m) && m.pc.Stop?
    ensures PlaceInv(m.(rtc := m.rtc.(otherFlag := true)))
  {}

  lemma OtherFlagArming(m: Machine)
    requires PlaceInv(m) && m.pc.Arm?
    ensures PlaceInv(m.(rtc := m.rtc.(otherFlag := true)))
  {}

  lemma OtherFlagElsewhere(m: Machine)
    requires PlaceInv(m) && !m.pc.Stop? && !m.pc.Arm?
    ensures PlaceInv(m.(rtc := m.rtc.(otherFlag := true)))
  {}

  lemma OtherPendingPlace(m: Machine, pending: bool)
    requires PlaceInv(m)
    ensures PlaceInv(m.(cpu := m.cpu.(otherPending := pending)))
  {
    match m.pc
    case Stop(_, _) =>
    case Arm(_) =>
    case _ =>
  }

  lemma OtherKeeps(m: Machine, move: Move)
    requires Inv(m) && Enabled(m, move)
    requires move.SyncDone? || move.OtherFlagSet? || move.OtherInterrupt? || move.OtherHandled?
    ensures Inv(Moved(m, move))
  {
    assert PlaceInv(Moved(m, move)) by {
      if move.SyncDone? {
        SyncPlace(m);
      } else {
        OtherFlagPlace(m);
        OtherPendingPlace(m, move.OtherInterrupt?);
      }
    }
    hide PlaceInv;
  }

  lemma CallKeeps(m: Machine, move: Move)
    requires Inv(m) && Enabled(m, move)
    requires move.CallInitialize? || move.CallSleep? || move.Outside?
    ensures Inv(Moved(m, move))
  {}
}
