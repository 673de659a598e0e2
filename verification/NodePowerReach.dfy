/** Every sleep with acceptable arguments has a run that ends in success: the safety results are not empty. */
module NodePowerReach {
  import opened Words
  import opened NodePower
  import opened NodePowerProofs
  import opened NodePowerRuns

  ghost predicate Leads(m: Machine, n: Machine) {
    exists moves: seq<Move> :: Allowed(m, moves) && Run(m, moves) == n
  }

  predicate SameCall(m: Machine, n: Machine) {
    && n.hist.intervalMs == m.hist.intervalMs && n.hist.sleepCall == m.hist.sleepCall
    && n.hist.entryPrimask == m.hist.entryPrimask && n.cpu.irqEnabled == m.cpu.irqEnabled
  }

  lemma LeadsSelf(m: Machine)
    ensures Leads(m, m)
  {
    assert Allowed(m, []) && Run(m, []) == m;
  }

  lemma {:induction false} RunConcat(m: Machine, first: seq<Move>, second: seq<Move>)
    requires Allowed(m, first) && Allowed(Run(m, first), second)
    ensures Allowed(m, first + second) && Run(m, first + second) == Run(Run(m, first), second)
    decreases |first|
  {
    hide Enabled, Moved;
    if first == [] {
      assert first + second == second;
    } else {
      assert (first + second)[1..] == first[1..] + second;
      RunConcat(Moved(m, first[0]), first[1..], second);
    }
  }

  lemma LeadsOn(a: Machine, b: Machine, c: Machine)
    requires Leads(a, b) && Leads(b, c)
    ensures Leads(a, c)
  {
    hide Allowed, Run;
    var first :| Allowed(a, first) && Run(a, first) == b;
    var second :| Allowed(b, second) && Run(b, second) == c;
    RunConcat(a, first, second);
  }

  /** One more move along a run. */
  lemma Go(start: Machine, m: Machine, move: Move) returns (n: Machine)
    requires Leads(start, m) && Inv(m) && Enabled(m, move)
    ensures n == Moved(m, move) && Leads(start, n) && Inv(n)
  {
    hide Inv, Enabled, Moved;
    n := Moved(m, move);
    MoveKeeps(m, move);
    assert [move][1..] == [];
    assert Allowed(n, []) && Run(n, []) == n;
    assert Allowed(m, [move]) && Run(m, [move]) == n;
    LeadsOn(start, m, n);
  }

  /** The thread runs, its peripherals ready. */
  lemma Turn(start: Machine, m: Machine) returns (n: Machine)
    requires Leads(start, m) && Inv(m) && m.cpu.isr == NoIsr && m.pc != Idle && m.pc != Loop(Wfi)
    ensures n == ThreadStep(m, true) && Leads(start, n) && Inv(n)
  {
    hide Inv, Leads;
    n := Go(start, m, Thread(true));
  }

  /** The synchronization completes. */
  lemma Settle(start: Machine, m: Machine) returns (n: Machine)
    requires Leads(start, m) && Inv(m)
    ensures Leads(start, n) && Inv(n) && !n.rtc.syncBusy
    ensures n.pc == m.pc && n.cpu == m.cpu && n.sw == m.sw && n.hist == m.hist
  {
    hide Inv, Leads;
    if m.rtc.syncBusy {
      n := Go(start, m, SyncDone);
    } else {
      n := m;
    }
  }

  lemma StopSucceeds(start: Machine, m: Machine, site: Site) returns (n: Machine)
    requires Leads(start, m) && Inv(m) && m.cpu.isr == NoIsr && m.pc == Stop(site, AwaitBefore)
    ensures Leads(start, n) && Inv(n) && n.cpu.isr == NoIsr && n.pc == Stop(site, Stopped(true))
    ensures SameCall(m, n)
  {
    hide Inv, Leads;
    n := Settle(start, m);
    n := Turn(start, n);
    n := Turn(start, n);
    n := Turn(start, n);
    n := Settle(start, n);
    n := Turn(start, n);
    n := Turn(start, n);
    n := Turn(start, n);
  }

  /** COUNT and COMP. */
  lemma LoadSucceeds(start: Machine, m: Machine) returns (n: Machine)
    requires Leads(start, m) && Inv(m) && m.cpu.isr == NoIsr && m.pc == Arm(WriteCount)
    ensures Leads(start, n) && Inv(n) && n.cpu.isr == NoIsr && n.pc == Arm(EnableInterrupt)
    ensures SameCall(m, n)
  {
    hide Inv, Leads;
    n := Turn(start, m);
    n := Settle(start, n);
    n := Turn(start, n);
    n := Turn(start, n);
    n := Settle(start, n);
    n := Turn(start, n);
  }

  lemma EnableSucceeds(start: Machine, m: Machine) returns (n: Machine)
    requires Leads(start, m) && Inv(m) && m.cpu.isr == NoIsr && m.pc == Arm(EnableInterrupt)
    ensures Leads(start, n) && Inv(n) && n.cpu.isr == NoIsr && n.pc == Loop(SaveDeep)
    ensures SameCall(m, n)
  {
    assert m.sw.powerReady;
    hide Inv, Leads;
    n := Turn(start, m);
    n := Turn(start, n);
    n := Settle(start, n);
    n := Turn(start, n);
    n := Turn(start, n);
  }

  /** To WFI, unless the match has been flagged on the way. */
  lemma ReachesWfi(start: Machine, m: Machine) returns (n: Machine)
    requires Leads(start, m) && Inv(m) && m.cpu.isr == NoIsr && m.pc == Loop(SaveDeep) && !m.hist.matched
    ensures Leads(start, n) && Inv(n) && n.pc == Loop(Wfi) && !n.hist.matched
    ensures SameCall(m, n)
  {
    assert !m.sw.rtcWakePending;
    hide Inv, Leads;
    n := Turn(start, m);
    n := Turn(start, n);
    n := Turn(start, n);
    n := Turn(start, n);
    n := Turn(start, n);
  }

  /** Ticks bring the match. */
  lemma ReachesMatch(start: Machine, m: Machine) returns (n: Machine)
    requires Leads(start, m) && Inv(m) && m.pc.Loop? && m.cpu.isr == NoIsr
    requires m.pc == Loop(SaveDeep) || m.hist.matched
    ensures Leads(start, n) && Inv(n) && n.pc.Loop? && n.hist.matched
    ensures SameCall(m, n)
  {
    hide Inv, Leads;
    if m.hist.matched {
      n := m;
    } else {
      var w := ReachesWfi(start, m);
      TickInWfi(w);
      WakesOnTime(w, Left(w));
      n := Run(w, Ticks(Left(w)));
      assert Leads(w, n) by { Reached(w, Ticks(Left(w))); }
      LeadsOn(start, w, n);
      TicksKeepCall(w, Left(w));
    }
  }

  lemma Reached(m: Machine, moves: seq<Move>)
    requires Allowed(m, moves)
    ensures Leads(m, Run(m, moves))
  {}

  lemma {:induction false} TicksKeepCall(m: Machine, n: nat)
    requires Allowed(m, Ticks(n))
    ensures SameCall(m, Run(m, Ticks(n)))
    decreases n
  {
    if n > 0 {
      assert Ticks(n)[0] == Tick && Ticks(n)[1..] == Ticks(n - 1);
      TicksKeepCall(Moved(m, Tick), n - 1);
    }
  }

  /** The match brings the end of the loop. */
  lemma {:induction false} LeavesLoop(start: Machine, m: Machine) returns (n: Machine)
    requires Leads(start, m) && Inv(m) && m.pc.Loop? && m.hist.matched
    ensures Leads(start, n) && Inv(n) && n.pc == End(MaskEnd) && n.cpu.isr == NoIsr
    ensures SameCall(m, n)
    decreases Rank(m)
  {
    hide Inv, Leads, Moved, Enabled, Rank, Prompt;
    WakeEnabled(m);
    var move :| ByProcessor(move) && Prompt(m, move);
    PromptIsEnabled(m, move);
    WakeProgress(m, move);
    n := Go(start, m, move);
    ProcessorKeepsCall(m, move);
    if n.pc != End(MaskEnd) {
      n := LeavesLoop(start, n);
    }
  }

  lemma ProcessorKeepsCall(m: Machine, move: Move)
    requires ByProcessor(move) && Enabled(m, move) && m.pc.Loop?
    ensures SameCall(m, Moved(m, move))
    ensures Moved(m, move).pc.End? ==> Moved(m, move).cpu.isr == NoIsr
  {}

  lemma EndSucceeds(start: Machine, m: Machine) returns (n: Machine)
    requires Leads(start, m) && Inv(m) && m.pc == End(MaskEnd) && m.cpu.isr == NoIsr
    ensures Leads(start, n) && Inv(n) && n.pc == Return(true)
    ensures SameCall(m, n)
  {
    hide Inv, Leads;
    n := Turn(start, m);
    n := StopSucceeds(start, n, Final);
    n := Turn(start, n);
    n := Turn(start, n);
  }

  /** A sleep whose arguments are acceptable can end in success, after its full interval. */
  lemma SleepCanSucceed(m: Machine, intervalMs: uint32) returns (n: Machine)
    requires Reachable(m) && m.pc == Check(Arguments(intervalMs)) && m.cpu.isr == NoIsr
    requires !Refused(m, intervalMs)
    ensures Leads(m, n) && n.pc == Return(true) && n.hist.sleepCall
    ensures n.hist.matched && n.hist.matchAt == TicksFor(intervalMs)
  {
    ReachableIsGood(m);
    LeadsSelf(m);
    assert m.hist.sleepCall && m.hist.intervalMs == intervalMs;
    hide Inv, Leads, Reachable, Refused;
    n := PrepareSucceeds(m, intervalMs);
    n := LoadSucceeds(m, n);
    n := EnableSucceeds(m, n);
    n := ReachesMatch(m, n);
    n := LeavesLoop(m, n);
    n := EndSucceeds(m, n);
    assert Slept(n) by { SuccessMeansSlept(n); }
  }

  lemma SuccessMeansSlept(n: Machine)
    requires Inv(n) && n.pc == Return(true) && n.hist.sleepCall
    ensures Slept(n)
  {}

  lemma PrepareSucceeds(m: Machine, intervalMs: uint32) returns (n: Machine)
    requires Inv(m) && m.pc == Check(Arguments(intervalMs)) && m.cpu.isr == NoIsr && !Refused(m, intervalMs)
    ensures Leads(m, n) && Inv(n) && n.cpu.isr == NoIsr && n.pc == Arm(WriteCount)
    ensures SameCall(m, n)
  {
    hide Inv, Leads;
    LeadsSelf(m);
    n := Turn(m, m);
    n := Turn(m, n);
    n := Turn(m, n);
    n := StopSucceeds(m, n, Rearm);
    n := Turn(m, n);
  }

  // ----- from power-on -----

  /** Initialization can succeed whatever the RTC was doing. */
  lemma InitializeCanSucceed(m: Machine) returns (n: Machine)
    requires PowerOn(m) && m.cpu.irqEnabled
    ensures Leads(m, n) && Inv(n) && n.pc == Return(true) && n.cpu.isr == NoIsr && n.sw.powerReady
    ensures n.cpu.irqEnabled && n.cpu.primask == m.cpu.primask
  {
    PowerOnInv(m);
    LeadsSelf(m);
    hide Inv, Leads;
    n := Go(m, m, CallInitialize);
    n := Settle(m, n);
    n := Turn(m, n);
    n := Turn(m, n);
    n := Turn(m, n);
    n := StopSucceeds(m, n, Initialize);
    n := Turn(m, n);
    n := Turn(m, n);
    CallersMask(n);
  }

  lemma CallersMask(n: Machine)
    requires Inv(n) && n.pc.Return?
    ensures n.cpu.primask == n.hist.entryPrimask
  {}

  lemma LeadsFromPowerOn(m: Machine, n: Machine)
    requires PowerOn(m) && Leads(m, n)
    ensures Reachable(n)
  {
    hide PowerOn, Allowed, Run;
    var moves :| Allowed(m, moves) && Run(m, moves) == n;
  }

  /** From power-on with the interrupt enabled and unmasked, any acceptable interval can be slept through. */
  lemma FirstSleepCanSucceed(m: Machine, intervalMs: uint32) returns (n: Machine)
    requires PowerOn(m) && m.cpu.irqEnabled && !m.cpu.primask
    requires 0 < TicksFor(intervalMs) <= UINT32_MAX
    ensures Leads(m, n) && Reachable(n) && n.pc == Return(true)
    ensures n.hist.sleepCall && n.hist.matched && n.hist.matchAt == TicksFor(intervalMs)
  {
    var ready := InitializeCanSucceed(m);
    hide Inv, Leads, Reachable, PowerOn;
    var idle := Turn(m, ready);
    var called := Go(m, idle, CallSleep(intervalMs));
    LeadsFromPowerOn(m, called);
    n := SleepCanSucceed(called, intervalMs);
    LeadsOn(m, called, n);
    LeadsFromPowerOn(m, n);
  }
}
