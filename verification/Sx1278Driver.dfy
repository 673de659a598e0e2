/** The driver's operations on the chip, and the radio part of going to sleep. */
module Sx1278Driver {
  import opened Words
  import opened Sx1278

  const WRAP32: nat := 0x1_0000_0000

  /** A countdown of a 32-bit timeout that is decremented before it is tested: zero means a full wrap. */
  function Attempts(timeout: uint32): (n: nat)
    ensures 0 < n <= WRAP32
  {
    if timeout == 0 then WRAP32 else timeout
  }

  /** The decrement, as the source's unsigned arithmetic does it. */
  function Decrement(timeout: uint32): uint32 {
    (timeout - 1) % WRAP32
  }

  /** What goes on the air: short frames are not written, and whatever the FIFO held is sent. */
  function OnAirFrame(fifo: Fifo, frame: seq<uint8>): (sent: seq<uint8>)
    ensures |sent| == |frame|
  {
    if |frame| <= 1 then FifoRead(fifo, TX_BASE, |frame|) else frame
  }

  /** The frame itself goes on the air unless it is a single byte the FIFO did not already hold. */
  lemma OnAirFrameIff(fifo: Fifo, frame: seq<uint8>)
    ensures OnAirFrame(fifo, frame) == frame <==> |frame| != 1 || fifo[TX_BASE] == frame[0]
  {
    if |frame| == 1 {
      assert OnAirFrame(fifo, frame)[0] == fifo[TX_BASE];
    }
  }

  /** A single byte 1 over an empty FIFO: 0 is sent in its place. */
  lemma OneByteNotSent()
    ensures OnAirFrame(seq(FIFO_SIZE, _ => 0), [1]) == [0] != [1]
  {
    OnAirFrameIff(seq(FIFO_SIZE, _ => 0), [1]);
  }

  /** The status agrees with the chip's mode, and the chip is in LoRa mode. */
  predicate Mirrors(opMode: uint8, status: Status) {
    LongRange(opMode) && Mode(opMode) == ModeOf(status)
  }

  lemma ModeOfWithMode(opMode: uint8, mode: uint8)
    requires mode < 8
    ensures Mode(WithMode(opMode, mode)) == mode
    ensures LongRange(WithMode(opMode, mode)) <==> LongRange(opMode)
    ensures Written(opMode, WithMode(opMode, mode)) == WithMode(opMode, mode)
  {
    if LongRange(opMode) {
      assert opMode / 8 >= 0x10;
    } else {
      assert opMode / 8 < 0x10;
    }
  }

  /** Entering reception keeps LoRa mode and cannot establish it. */
  lemma EnterRx(opMode: uint8)
    ensures var entered := Written(WithMode(opMode, MODE_STANDBY), RX_LORA);
      Mode(entered) == MODE_RX && entered % 8 == 5 && (LongRange(entered) <==> LongRange(opMode))
  {
    ModeOfWithMode(opMode, MODE_STANDBY);
  }

  /** Only the mode bits change. */
  function InMode(r: Regs, mode: uint8): Regs
    requires mode < 8
  {
    r.(opMode := WithMode(r.opMode, mode),
       log := r.log.(opModes := r.log.opModes + [WithMode(r.opMode, mode)]))
  }

  /** LoRa Standby, by way of Sleep. */
  function Configured(r: Regs): Regs {
    r.(opMode := 0x89, waitedMs := r.waitedMs + 15,
       log := r.log.(opModes := r.log.opModes + [WithMode(r.opMode, 0), 0x88, 0x89]))
  }

  /** After a reset and a new configuration. */
  function Recovered(last: Regs): Regs {
    Configured(AfterReset(last))
  }

  lemma RecoveredFrom(last: Regs)
    ensures Recovered(last) == AfterReset(last).(
      opMode := 0x89, waitedMs := last.waitedMs + 26,
      log := last.log.(opModes := last.log.opModes + [0x08, 0x88, 0x89]))
  {}

  /** What a timed-out wait leaves on the air: the frame or nothing, as the chip finished before the reset or not. */
  lemma TimedOutMayHaveSent(sending: Regs)
    requires Mode(sending.opMode) == MODE_TX
    ensures exists last :: ByItself(sending, last) && Recovered(last).onAir == sending.onAir
    ensures exists last :: ByItself(sending, last) && Recovered(last).onAir == Sent(sending).onAir
  {
    assert ByItself(sending, sending) && ByItself(sending, Sent(sending));
  }

  /** Ready to send: registers, line and payload length set, after the given lengths of the length. */
  function Entered(r: Regs, length: uint8, lengths: seq<uint8>): Regs {
    var c := Configured(r);
    c.(dio0OnTx := true, txDone := false, rxDone := false, payloadLength := length, fifoPtr := TX_BASE,
       log := c.log.(lengths := c.log.lengths + lengths))
  }

  // ----- the two countdowns -----

  /** The length is read until it comes back right or the attempts are used up. */
  predicate LengthReads(lengths: seq<uint8>, length: uint8, attempts: nat, ok: bool) {
    && 0 < |lengths| <= attempts
    && (forall i :: 0 <= i < |lengths| - 1 ==> lengths[i] != length)
    && (ok <==> lengths[|lengths| - 1] == length)
    && (!ok ==> |lengths| == attempts)
  }

  /** The line is looked at until it is up or the attempts are used up. */
  predicate Looks(looks: seq<bool>, attempts: nat, ok: bool) {
    && 0 < |looks| <= attempts
    && (forall i :: 0 <= i < |looks| - 1 ==> !looks[i])
    && (ok <==> looks[|looks| - 1])
    && (!ok ==> |looks| == attempts)
  }

  /** The course of one transmission, as the log shows it. */
  predicate Attempted(before: Regs, after: Regs, length: uint8, attempts: nat, ok: bool,
                      lengths: seq<uint8>, looks: seq<bool>)
  {
    && lengths != [] && after.log.lengths == before.log.lengths + lengths
    && after.log.looks == before.log.looks + looks
    && after.log.transfers == before.log.transfers
    && var entered := lengths[|lengths| - 1] == length;
       && LengthReads(lengths, length, attempts, entered)
       && (if entered then Looks(looks, attempts, ok) else !ok && looks == [])
       && after.log.opModes ==
            before.log.opModes + [WithMode(before.opMode, 0), 0x88, 0x89]
            + (if entered then [0x8B] else []) + (if ok then [0x89] else [0x08, 0x88, 0x89])
       && after.waitedMs - before.waitedMs ==
            15 + (if entered then |looks| - 1 else 0) + (if ok then 0 else 26)
  }

  class Driver {
    const chip: Chip
    const loraSf: nat
    const rxBuffer: array<uint8>
    var status: Status
    var readBytes: uint8
    var packetLength: uint8

    ghost predicate Valid()
      reads this
    {
      rxBuffer.Length == 256
    }

    ghost predicate Mirror()
      reads this, chip
    {
      Mirrors(chip.regs.opMode, status)
    }

    constructor (chip: Chip, loraSf: nat)
      ensures Valid() && fresh(rxBuffer) && this.chip == chip && this.loraSf == loraSf
      ensures status == SleepStatus && readBytes == 0
    {
      this.chip := chip;
      this.loraSf := loraSf;
      rxBuffer := new uint8[256](_ => 0);
      status := SleepStatus;
      readBytes, packetLength := 0, 0;
    }

    method Standby()
      modifies chip, `status
      ensures chip.regs == InMode(old(chip.regs), 1)
      ensures chip.regs.opMode % 8 == 1 && status == StandbyStatus
    {
      var mode := chip.regs.opMode;
      ModeOfWithMode(mode, MODE_STANDBY);
      chip.WriteOpMode(WithMode(mode, MODE_STANDBY));
      status := StandbyStatus;
    }

    method Sleep()
      modifies chip, `status
      ensures chip.regs == InMode(old(chip.regs), 0)
      ensures chip.regs.opMode % 8 == 0 && status == SleepStatus
    {
      var mode := chip.regs.opMode;
      ModeOfWithMode(mode, MODE_SLEEP);
      chip.WriteOpMode(WithMode(mode, MODE_SLEEP));
      status := SleepStatus;
    }

    /** From any mode, FSK after a reset included, to LoRa Standby. */
    method Config()
      modifies chip, `status, `readBytes
      ensures chip.regs == Configured(old(chip.regs))
      ensures status == StandbyStatus && readBytes == 0
    {
      Sleep();
      ModeOfWithMode(old(chip.regs.opMode), MODE_SLEEP);
      chip.DelayMs(CONFIG_MS);
      chip.WriteOpMode(SLEEP_LORA);
      readBytes := 0;
      Standby();
    }

    /** A reset, whatever the chip was doing, and a configuration. */
    method Initialize(length: uint8)
      modifies chip, this
      ensures exists last :: ByItself(old(chip.regs), last) && chip.regs == Recovered(last)
      ensures Mirror() && status == StandbyStatus && readBytes == 0 && packetLength == length
    {
      packetLength := length;
      Recover();
      RecoveredIsLora(chip.regs);
    }

    lemma RecoveredIsLora(r: Regs)
      requires r.opMode == 0x89
      ensures Mirrors(r.opMode, StandbyStatus)
    {}

    /** Every exit but success is a reset and a new configuration. */
    method Recover()
      modifies chip, `status, `readBytes
      ensures exists last :: ByItself(old(chip.regs), last) && chip.regs == Recovered(last)
      ensures chip.regs.opMode == 0x89 && status == StandbyStatus && readBytes == 0
    {
      hide ByItself;
      chip.Reset();
      ghost var last :| ByItself(old(chip.regs), last) && chip.regs == AfterReset(last);
      Config();
      assert chip.regs == Recovered(last);
    }

    /**
     * Ready to send: the chip is in Standby still, and the status already says TX. `lengths` is what came
     * back of the payload length.
     */
    method EntryTx(length: uint8, timeout: uint32) returns (ok: bool, ghost lengths: seq<uint8>)
      modifies chip, `status, `readBytes, `packetLength
      ensures LengthReads(lengths, length, Attempts(timeout), ok)
      ensures var entered := Entered(old(chip.regs), length, lengths);
        chip.regs == if ok then entered else Recovered(entered)
      ensures status == if ok then TxStatus else StandbyStatus
    {
      packetLength := length;
      Config();
      chip.regs := chip.regs.(dio0OnTx := true);
      chip.ClearIrq();
      chip.regs := chip.regs.(payloadLength := length, fifoPtr := TX_BASE);
      lengths := [];
      assert chip.regs == Entered(old(chip.regs), length, lengths);
      hide Configured, Recovered, ByItself;
      var left := timeout;
      while true
        invariant chip.regs == Entered(old(chip.regs), length, lengths)
        invariant |lengths| == Attempts(timeout) - Attempts(left)
        invariant forall i :: 0 <= i < |lengths| ==> lengths[i] != length
        decreases Attempts(left)
      {
        var seen := chip.ReadBackLength();
        lengths := lengths + [seen];
        assert chip.regs == Entered(old(chip.regs), length, lengths);
        if seen == length {
          status := TxStatus;
          return true, lengths;
        }
        left := Decrement(left);
        if left == 0 {
          label waiting:
          Recover();
          ghost var last :| ByItself(old@waiting(chip.regs), last) && chip.regs == Recovered(last);
          StandbyStays(old@waiting(chip.regs), last);
          return false, lengths;
        }
      }
    }

    lemma StandbyStays(before: Regs, after: Regs)
      requires ByItself(before, after) && before.opMode == 0x89
      ensures after == before
    {}

    /**
     * The wait for the end of the transmission, at most one look a millisecond. `looks` is what the line
     * showed: only the chip's own report ends the wait with success, and it does so at once.
     */
    method AwaitSent(timeout: uint32) returns (ok: bool, ghost looks: seq<bool>)
      requires chip.regs.opMode == TX_LORA && chip.regs.dio0OnTx && !chip.regs.txDone
      modifies chip, `status, `readBytes
      ensures Looks(looks, Attempts(timeout), ok) && chip.regs.log.looks == old(chip.regs.log.looks) + looks
      ensures chip.regs.log.opModes ==
        old(chip.regs.log.opModes) + (if ok then [0x89] else [0x08, 0x88, 0x89])
      ensures chip.regs.log.lengths == old(chip.regs.log.lengths)
      ensures chip.regs.log.transfers == old(chip.regs.log.transfers)
      ensures chip.regs.opMode == 0x89 && status == StandbyStatus
      ensures ok ==> chip.regs.onAir == Sent(old(chip.regs)).onAir
      ensures !ok ==> chip.regs.onAir == old(chip.regs.onAir) || chip.regs.onAir == Sent(old(chip.regs)).onAir
      ensures chip.regs.waitedMs - old(chip.regs.waitedMs) == |looks| - 1 + (if ok then 0 else 26)
    {
      hide FifoRead;
      ghost var sending := chip.regs;
      var left := timeout;
      looks := [];
      while true
        invariant |looks| == Attempts(timeout) - Attempts(left)
        invariant forall i :: 0 <= i < |looks| ==> !looks[i]
        invariant chip.regs == sending.(waitedMs := sending.waitedMs + |looks|,
                                        log := sending.log.(looks := sending.log.looks + looks))
        decreases Attempts(left)
      {
        var done, seen := chip.GetDio0();
        looks := looks + [done];
        if done {
          chip.ClearIrq();
          Standby();
          return true, looks;
        }
        left := Decrement(left);
        if left == 0 {
          label waiting:
          Recover();
          ghost var last :| ByItself(old@waiting(chip.regs), last) && chip.regs == Recovered(last);
          RecoveredFrom(last);
          return false, looks;
        }
        chip.DelayMs(1);
      }
    }

    /** Success is the chip's own report that the frame has been sent. */
    method TxPacket(frame: array<uint8>, length: uint8, timeout: uint32)
      returns (ok: bool, ghost looks: seq<bool>)
      requires length <= frame.Length
      requires chip.regs.opMode == STANDBY_LORA && chip.regs.dio0OnTx && !chip.regs.txDone
      requires chip.regs.payloadLength == length && chip.regs.fifoPtr == TX_BASE
      modifies chip, `status, `readBytes
      ensures Looks(looks, Attempts(timeout), ok) && chip.regs.log.looks == old(chip.regs.log.looks) + looks
      ensures chip.regs.log.opModes ==
        old(chip.regs.log.opModes) + [0x8B] + (if ok then [0x89] else [0x08, 0x88, 0x89])
      ensures chip.regs.log.lengths == old(chip.regs.log.lengths)
      ensures chip.regs.log.transfers == old(chip.regs.log.transfers)
      ensures chip.regs.opMode == 0x89 && status == StandbyStatus
      ensures ok ==> chip.regs.onAir == old(chip.regs.onAir) + [OnAirFrame(old(chip.regs.fifo), frame[..length])]
      ensures !ok ==>
        || chip.regs.onAir == old(chip.regs.onAir)
        || chip.regs.onAir == old(chip.regs.onAir) + [OnAirFrame(old(chip.regs.fifo), frame[..length])]
      ensures chip.regs.waitedMs - old(chip.regs.waitedMs) == |looks| - 1 + (if ok then 0 else 26)
    {
      chip.BurstWriteFifo(frame, length);
      FifoRoundTrip(old(chip.regs.fifo), TX_BASE, frame[..length]);
      chip.WriteOpMode(TX_LORA);
      assert FifoRead(chip.regs.fifo, TX_BASE, length) == OnAirFrame(old(chip.regs.fifo), frame[..length]);
      hide FifoRead, FifoWrite, OnAirFrame, Looks;
      ok, looks := AwaitSent(timeout);
    }

    /**
     * One transmission. The chip is configured and the length read back; then it is put into TX and the
     * line is looked at. On success the caller's frame is on the air, once; on failure at most once.
     */
    method Transmit(frame: array<uint8>, length: uint8, timeout: uint32)
      returns (ok: bool, ghost lengths: seq<uint8>, ghost looks: seq<bool>)
      requires length <= frame.Length
      modifies chip, `status, `readBytes, `packetLength
      ensures Attempted(old(chip.regs), chip.regs, length, Attempts(timeout), ok, lengths, looks)
      ensures chip.regs.opMode == 0x89 && status == StandbyStatus
      ensures ok ==> chip.regs.onAir == old(chip.regs.onAir) + [OnAirFrame(old(chip.regs.fifo), frame[..length])]
      ensures !ok ==>
        || chip.regs.onAir == old(chip.regs.onAir)
        || chip.regs.onAir == old(chip.regs.onAir) + [OnAirFrame(old(chip.regs.fifo), frame[..length])]
    {
      hide LengthReads, Looks, OnAirFrame, FifoRead;
      ok, lengths := EntryTx(length, timeout);
      LengthsEnd(lengths, length, Attempts(timeout), ok);
      looks := [];
      if ok {
        ok, looks := TxPacket(frame, length, timeout);
        LooksEnd(looks, Attempts(timeout), ok);
        return;
      }
      RecoveredFrom(Entered(old(chip.regs), length, lengths));
      return false, lengths, looks;
    }

    lemma LengthsEnd(lengths: seq<uint8>, length: uint8, attempts: nat, ok: bool)
      requires LengthReads(lengths, length, attempts, ok)
      ensures lengths != [] && (ok <==> lengths[|lengths| - 1] == length)
    {}

    lemma LooksEnd(looks: seq<bool>, attempts: nat, ok: bool)
      requires Looks(looks, attempts, ok)
      ensures 0 < |looks| <= attempts
    {}

    /** Continuous reception; LoRa mode cannot be entered here, only kept. */
    method Receive(length: uint8) returns (ok: bool)
      modifies chip, `status, `readBytes, `packetLength
      ensures ok && status == RxStatus && readBytes == 0 && packetLength == length
      ensures chip.regs.opMode % 8 == 5
      ensures Mirror() <==> LongRange(old(chip.regs.opMode))
      ensures !Dio0(chip.regs) && !chip.regs.dio0OnTx
      ensures chip.regs.onAir == old(chip.regs.onAir) && chip.regs.waitedMs == old(chip.regs.waitedMs)
      ensures chip.regs.log ==
        old(chip.regs.log).(opModes := old(chip.regs.log.opModes) + [WithMode(old(chip.regs.opMode), 1), 0x8D])
    {
      hide Mode, LongRange, Written, WithMode;
      EnterRx(chip.regs.opMode);
      packetLength := length;
      Standby();
      chip.regs := chip.regs.(dio0OnTx := false);
      chip.ClearIrq();
      chip.regs := chip.regs.(payloadLength := length, fifoPtr := 0);
      chip.WriteOpMode(RX_LORA);
      readBytes := 0;
      status := RxStatus;
      return true;
    }

    /** The size of the packet in the chip, from its header or, at spreading factor 6, by agreement. */
    function PacketSize(regs: Regs): uint8
      reads this
    {
      if loraSf == SPREAD_FACTOR_6 then packetLength else regs.rxBytes
    }

    /** Bytes ready to be read, fetched from the chip, as it was when its line said so. */
    method Available() returns (ready: uint8, ghost seen: Regs)
      requires Valid()
      modifies chip, rxBuffer, `readBytes
      ensures ByItself(old(chip.regs), seen) && ready == readBytes
      ensures Dio0(seen) ==>
        && readBytes == PacketSize(seen)
        && rxBuffer[..readBytes] == Fetched(seen, readBytes)
        && chip.regs == Looked(seen).(txDone := false, rxDone := false, fifoPtr := chip.regs.fifoPtr)
      ensures !Dio0(seen) ==>
        readBytes == old(readBytes) && rxBuffer[..] == old(rxBuffer[..]) && chip.regs == Looked(seen)
    {
      var level;
      level, seen := chip.GetDio0();
      if level {
        forall i | 0 <= i < rxBuffer.Length {
          rxBuffer[i] := 0;
        }
        chip.regs := chip.regs.(fifoPtr := chip.regs.rxCurrent);
        var size := PacketSize(chip.regs);
        chip.BurstReadFifo(rxBuffer, size);
        readBytes := size;
        chip.ClearIrq();
        assert rxBuffer[..readBytes] == Fetched(seen, readBytes);
      }
      ready := readBytes;
    }

    method Read(output: array<uint8>, length: uint8) returns (taken: uint8)
      requires Valid() && output.Length == 256 && output != rxBuffer
      modifies output, `readBytes
      ensures taken == old(readBytes) && readBytes == 0
      ensures output[..taken] == rxBuffer[..taken] && output[taken] == 0
    {
      taken := length;
      if taken != readBytes {
        taken := readBytes;
      }
      forall i | 0 <= i < taken {
        output[i] := rxBuffer[i];
      }
      output[taken] := 0;
      readBytes := 0;
    }
  }

  /** What a burst leaves in a cleared buffer: a packet of one byte is not fetched. */
  function Fetched(regs: Regs, size: uint8): (bytes: seq<uint8>) {
    if size <= 1 then seq(size, _ => 0) else FifoRead(regs.fifo, regs.rxCurrent, size)
  }

  /** The packet itself is fetched unless it is a single byte other than zero. */
  lemma FetchedIff(regs: Regs, size: uint8)
    ensures Fetched(regs, size) == FifoRead(regs.fifo, regs.rxCurrent, size) <==>
      size != 1 || regs.fifo[regs.rxCurrent] == 0
  {
    if size == 1 {
      assert FifoRead(regs.fifo, regs.rxCurrent, size)[0] == regs.fifo[regs.rxCurrent];
      assert Fetched(regs, size)[0] == 0;
    }
  }

  /** A packet of the single byte 1 is read as 0. */
  lemma OneByteNotFetched(regs: Regs)
    requires regs.fifo[regs.rxCurrent] == 1
    ensures Fetched(regs, 1) == [0] != [1] == FifoRead(regs.fifo, regs.rxCurrent, 1)
  {
    FetchedIff(regs, 1);
  }

  // ----- the radio on the way to sleep -----

  /**
   * An SPI transfer that may never be completed. A read that is completed is right; a write may or may
   * not have been taken by the chip, completed or not.
   */
  method RadioRegister(chip: Chip, write: bool, value: uint8) returns (transferred: bool, seen: uint8)
    modifies chip
    ensures transferred && !write ==> seen == old(chip.regs.opMode)
    ensures
      || chip.regs == Transferred(old(chip.regs), transferred)
      || (write && chip.regs == Transferred(Wrote(old(chip.regs), value), transferred))
  {
    var started: bool, reached: bool, completed: bool := *, *, *;
    seen := *;
    transferred := started && completed;
    if transferred {
      seen := chip.regs.opMode;
    }
    if started && reached && write {
      chip.WriteOpMode(value);
    }
    chip.EndTransfer(transferred);
  }

  /**
   * Success is exactly a LoRa chip found in Sleep mode after three completed transfers; a failure
   * leaves the status behind, whatever the chip does.
   */
  method SleepRadio(radio: Driver) returns (ok: bool)
    modifies radio.chip, radio`status, radio`readBytes
    ensures var sleep := WithMode(old(radio.chip.regs.opMode), 0);
      && (radio.chip.regs.opMode == old(radio.chip.regs.opMode) || radio.chip.regs.opMode == sleep)
      && (ok <==>
            && LongRange(old(radio.chip.regs.opMode))
            && radio.chip.regs.log.transfers == old(radio.chip.regs.log.transfers) + [true, true, true]
            && radio.chip.regs.opMode == sleep)
    ensures radio.chip.regs ==
      old(radio.chip.regs).(opMode := radio.chip.regs.opMode, log := radio.chip.regs.log)
    ensures ok ==> radio.Mirror() && radio.status == SleepStatus && radio.readBytes == 0
    ensures !ok ==> radio.status == old(radio.status) && radio.readBytes == old(radio.readBytes)
    ensures !ok && old(radio.Mirror()) ==>
      (radio.Mirror() <==> radio.chip.regs.opMode == old(radio.chip.regs.opMode))
  {
    ModeOfWithMode(radio.chip.regs.opMode, MODE_SLEEP);
    hide Written, WithMode, LongRange, Mode;
    var done, seen := RadioRegister(radio.chip, false, 0);
    if !done {
      return false;
    }
    if !LongRange(seen) {
      return false;
    }
    var sleepMode := WithMode(seen, MODE_SLEEP);
    done, seen := RadioRegister(radio.chip, true, sleepMode);
    if !done {
      return false;
    }
    ghost var before := radio.chip.regs.log.transfers;
    done, seen := RadioRegister(radio.chip, false, 0);
    assert radio.chip.regs.log.transfers == before + [done];
    assert before == old(radio.chip.regs.log.transfers) + [true, true];
    assert radio.chip.regs.log.transfers[|before|] == done;
    if !done || seen != sleepMode {
      return false;
    }
    radio.status := SleepStatus;
    radio.readBytes := 0;
    return true;
  }

  // ----- any use of the radio -----

  type Packet = p: seq<uint8> | |p| < 256 witness []

  datatype Operation = Transmission(frame: Packet, timeout: uint32) | Reception(length: uint8) | Poll | GoToSleep

  /** From initialization, through any operations as long as no sleep fails, the status mirrors the chip. */
  method Perform(radio: Driver, operations: seq<Operation>) returns (ok: bool)
    requires radio.Valid()
    modifies radio, radio.chip, radio.rxBuffer
    ensures ok ==> radio.Mirror() && radio.status != TxStatus
    ensures !ok ==> GoToSleep in operations
  {
    hide WithMode, Written;
    radio.Initialize(64);
    for i := 0 to |operations|
      invariant radio.Mirror() && radio.status != TxStatus
    {
      match operations[i] {
        case Transmission(frame, timeout) =>
          var buffer := new uint8[|frame|](k requires 0 <= k < |frame| => frame[k]);
          var sent, lengths, looks := radio.Transmit(buffer, |frame|, timeout);
        case Reception(length) =>
          var started := radio.Receive(length);
        case Poll =>
          var ready, seen := radio.Available();
        case GoToSleep =>
          var asleep := SleepRadio(radio);
          if !asleep {
            return false;
          }
      }
    }
    return true;
  }
}
