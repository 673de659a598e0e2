/** The SX1278 driver against a small model of the chip: operating mode, FIFO, interrupt line, time. */
module Sx1278 {
  import opened Words

  const FIFO_SIZE: nat := 256
  const TX_BASE: uint8 := 0x80
  const MODE_SLEEP: uint8 := 0
  const MODE_STANDBY: uint8 := 1
  const MODE_TX: uint8 := 3
  const MODE_RX: uint8 := 5

  const SLEEP_LORA: uint8 := 0x88
  const STANDBY_LORA: uint8 := 0x89
  const TX_LORA: uint8 := 0x8B
  const RX_LORA: uint8 := 0x8D
  const RESET_OP_MODE: uint8 := 0x09

  const RESET_MS: nat := 11
  const CONFIG_MS: nat := 15
  const SPREAD_FACTOR_6: nat := 0

  type Fifo = f: seq<uint8> | |f| == FIFO_SIZE witness seq(FIFO_SIZE, _ => 0)

  datatype Status = SleepStatus | StandbyStatus | TxStatus | RxStatus

  // ----- the operating mode register -----

  /** Bits 2 to 0. */
  function Mode(opMode: uint8): uint8 {
    opMode % 8
  }

  /** Bit 7. */
  predicate LongRange(opMode: uint8) {
    opMode >= 0x80
  }

  /** The register with its mode bits cleared and set to the given ones. */
  function WithMode(opMode: uint8, mode: uint8): uint8
    requires mode < 8
  {
    opMode / 8 * 8 + mode
  }

  /** The chip takes a new LongRangeMode bit in Sleep mode only. */
  function Written(opMode: uint8, value: uint8): uint8 {
    if Mode(opMode) == MODE_SLEEP || (LongRange(opMode) <==> LongRange(value)) then value
    else if LongRange(opMode) then value + 0x80
    else value - 0x80
  }

  function ModeOf(status: Status): uint8 {
    match status
    case SleepStatus => MODE_SLEEP
    case StandbyStatus => MODE_STANDBY
    case TxStatus => MODE_TX
    case RxStatus => MODE_RX
  }

  // ----- the FIFO, addressed modulo its size -----

  function Slot(at: uint8, k: nat): uint8 {
    (at + k) % FIFO_SIZE
  }

  function FifoWrite(fifo: Fifo, at: uint8, bytes: seq<uint8>): Fifo {
    if bytes == [] then fifo
    else
      var last := |bytes| - 1;
      FifoWrite(fifo, at, bytes[..last])[Slot(at, last) := bytes[last]]
  }

  function FifoRead(fifo: Fifo, at: uint8, length: nat): (bytes: seq<uint8>)
    ensures |bytes| == length
  {
    seq(length, k requires k >= 0 => fifo[Slot(at, k)])
  }

  lemma FifoWriteNone(fifo: Fifo, at: uint8, bytes: seq<uint8>)
    ensures FifoWrite(fifo, at, bytes[..0]) == fifo
  {}

  lemma FifoWriteOne(fifo: Fifo, at: uint8, bytes: seq<uint8>, i: nat)
    requires i < |bytes|
    ensures FifoWrite(fifo, at, bytes[..i + 1]) == FifoWrite(fifo, at, bytes[..i])[Slot(at, i) := bytes[i]]
  {
    hide Slot;
    assert bytes[..i + 1][..i] == bytes[..i];
  }

  lemma SlotZero(at: uint8)
    ensures Slot(at, 0) == at
  {}

  lemma SlotNext(at: uint8, i: nat)
    ensures Slot(Slot(at, i), 1) == Slot(at, i + 1)
  {}

  lemma FifoReadNone(fifo: Fifo, at: uint8)
    ensures FifoRead(fifo, at, 0) == []
  {}

  lemma FifoReadOne(fifo: Fifo, at: uint8, i: nat)
    ensures FifoRead(fifo, at, i + 1) == FifoRead(fifo, at, i) + [fifo[Slot(at, i)]]
  {}

  lemma DistinctSlots(at: uint8, j: nat, k: nat)
    requires j < k < j + FIFO_SIZE
    ensures Slot(at, j) != Slot(at, k)
  {}

  /** What was written can be read back from the same address, wherever it wraps. */
  lemma {:induction false} FifoRoundTrip(fifo: Fifo, at: uint8, bytes: seq<uint8>)
    requires |bytes| <= FIFO_SIZE
    ensures FifoRead(FifoWrite(fifo, at, bytes), at, |bytes|) == bytes
  {
    if bytes != [] {
      var last := |bytes| - 1;
      FifoRoundTrip(fifo, at, bytes[..last]);
      var before, after := FifoWrite(fifo, at, bytes[..last]), FifoWrite(fifo, at, bytes);
      forall k | 0 <= k < |bytes| ensures FifoRead(after, at, |bytes|)[k] == bytes[k] {
        if k < last {
          DistinctSlots(at, k, last);
          assert FifoRead(before, at, last)[k] == bytes[..last][k];
        }
      }
    }
  }

  // ----- the chip -----

  /**
   * What the driver has done to the chip, in order: the values written to RegOpMode, what it saw on the
   * line and in the payload length, and which transfers of the sleep code were completed.
   */
  datatype Log = Log(opModes: seq<uint8>, looks: seq<bool>, lengths: seq<uint8>, transfers: seq<bool>)

  datatype Regs = Regs(
    opMode: uint8,
    txDone: bool, rxDone: bool, dio0OnTx: bool,
    fifo: Fifo, fifoPtr: uint8, payloadLength: uint8,
    rxBytes: uint8, rxCurrent: uint8,
    onAir: seq<seq<uint8>>,     // every frame the antenna has sent
    waitedMs: nat,              // time spent in the driver's delays
    log: Log)

  predicate Dio0(r: Regs) {
    if r.dio0OnTx then r.txDone else r.rxDone
  }

  /** The end of a transmission: the frame is on the air and the chip is in Standby. */
  function Sent(r: Regs): Regs {
    r.(opMode := WithMode(r.opMode, MODE_STANDBY), txDone := true,
       onAir := r.onAir + [FifoRead(r.fifo, TX_BASE, r.payloadLength)])
  }

  function Wrote(r: Regs, value: uint8): Regs {
    r.(opMode := Written(r.opMode, value), log := r.log.(opModes := r.log.opModes + [value]))
  }

  function Looked(r: Regs): Regs {
    r.(log := r.log.(looks := r.log.looks + [Dio0(r)]))
  }

  function LengthRead(r: Regs, length: uint8): Regs {
    r.(log := r.log.(lengths := r.log.lengths + [length]))
  }

  function Transferred(r: Regs, completed: bool): Regs {
    r.(log := r.log.(transfers := r.log.transfers + [completed]))
  }

  function AfterReset(r: Regs): Regs {
    r.(opMode := RESET_OP_MODE, txDone := false, rxDone := false, dio0OnTx := false,
       fifoPtr := 0, payloadLength := 1, waitedMs := r.waitedMs + RESET_MS)
  }

  /** A received packet leaves the mode and everything about sending alone. */
  predicate Received(before: Regs, after: Regs) {
    after == before.(rxDone := true, fifo := after.fifo, rxBytes := after.rxBytes, rxCurrent := after.rxCurrent)
  }

  /** What the chip may do by itself. */
  predicate ByItself(before: Regs, after: Regs) {
    || after == before
    || (Mode(before.opMode) == MODE_TX && after == Sent(before))
    || (Mode(before.opMode) == MODE_RX && Received(before, after))
  }

  class Chip {
    var regs: Regs

    constructor (opMode: uint8)
      ensures regs.opMode == opMode
    {
      regs := Regs(opMode, false, false, false, seq(FIFO_SIZE, _ => 0), 0, 1, 0, 0, [], 0,
                   Log([], [], [], []));
    }

    /** Time passes: a transmission may end, a packet may arrive. */
    method Advance()
      modifies this
      ensures ByItself(old(regs), regs)
    {
      var happens: bool := *;
      if happens {
        if Mode(regs.opMode) == MODE_TX {
          regs := Sent(regs);
        } else if Mode(regs.opMode) == MODE_RX {
          var packet: Fifo, length: uint8, current: uint8 := *, *, *;
          regs := regs.(rxDone := true, fifo := packet, rxBytes := length, rxCurrent := current);
        }
      }
    }

    /** `seen` is the chip at the moment of the look. */
    method GetDio0() returns (level: bool, ghost seen: Regs)
      modifies this
      ensures ByItself(old(regs), seen) && level == Dio0(seen) && regs == Looked(seen)
    {
      Advance();
      seen := regs;
      level := Dio0(regs);
      regs := Looked(regs);
    }

    method WriteOpMode(value: uint8)
      modifies this
      ensures regs == Wrote(old(regs), value)
    {
      regs := Wrote(regs, value);
    }

    method DelayMs(ms: nat)
      modifies this
      ensures regs == old(regs).(waitedMs := old(regs.waitedMs) + ms)
    {
      regs := regs.(waitedMs := regs.waitedMs + ms);
    }

    /** The chip may finish what it is doing up to the moment of the reset. */
    method Reset()
      modifies this
      ensures exists last :: ByItself(old(regs), last) && regs == AfterReset(last)
    {
      Advance();
      regs := AfterReset(regs);
    }

    /** A read of the payload length may be disturbed on the bus. */
    method ReadBackLength() returns (length: uint8)
      modifies this
      ensures regs == LengthRead(old(regs), length)
    {
      length := *;
      regs := LengthRead(regs, length);
    }

    /** A transfer of the sleep code is over, one way or the other. */
    method EndTransfer(completed: bool)
      modifies this
      ensures regs == Transferred(old(regs), completed)
    {
      regs := Transferred(regs, completed);
    }

    method ClearIrq()
      modifies this
      ensures regs == old(regs).(txDone := false, rxDone := false)
    {
      regs := regs.(txDone := false, rxDone := false);
    }

    /** Bursts of one byte or none do nothing. */
    method BurstWriteFifo(bytes: array<uint8>, length: uint8)
      requires length <= bytes.Length
      modifies this
      ensures regs == old(regs).(fifo := regs.fifo, fifoPtr := regs.fifoPtr)
      ensures regs.fifo == if length <= 1 then old(regs.fifo)
                           else FifoWrite(old(regs.fifo), old(regs.fifoPtr), bytes[..length])
    {
      if length <= 1 {
        return;
      }
      hide FifoWrite, Slot;
      ghost var before, all := regs, bytes[..];
      FifoWriteNone(before.fifo, before.fifoPtr, all);
      SlotZero(before.fifoPtr);
      var i := 0;
      while i < length
        invariant 0 <= i <= length
        invariant regs == before.(fifo := FifoWrite(before.fifo, before.fifoPtr, all[..i]),
                                  fifoPtr := Slot(before.fifoPtr, i))
      {
        FifoWriteOne(before.fifo, before.fifoPtr, all, i);
        SlotNext(before.fifoPtr, i);
        WriteFifo(bytes[i]);
        i := i + 1;
      }
      assert all[..length] == bytes[..length];
    }

    /** FIFO accesses move the pointer on. */
    method WriteFifo(value: uint8)
      modifies this
      ensures regs == old(regs).(fifo := old(regs.fifo)[old(regs.fifoPtr) := value],
                                 fifoPtr := Slot(old(regs.fifoPtr), 1))
    {
      regs := regs.(fifo := regs.fifo[regs.fifoPtr := value], fifoPtr := Slot(regs.fifoPtr, 1));
    }

    method ReadFifo() returns (value: uint8)
      modifies this
      ensures regs == old(regs).(fifoPtr := Slot(old(regs.fifoPtr), 1))
      ensures value == old(regs.fifo[regs.fifoPtr])
    {
      value := regs.fifo[regs.fifoPtr];
      regs := regs.(fifoPtr := Slot(regs.fifoPtr, 1));
    }

    method BurstReadFifo(buffer: array<uint8>, length: uint8)
      requires length <= buffer.Length
      modifies this, buffer
      ensures regs == old(regs).(fifoPtr := regs.fifoPtr)
      ensures buffer[..] == if length <= 1 then old(buffer[..])
                            else FifoRead(old(regs.fifo), old(regs.fifoPtr), length) + old(buffer[length..])
    {
      if length <= 1 {
        return;
      }
      hide FifoRead, Slot;
      ghost var before := regs;
      FifoReadNone(before.fifo, before.fifoPtr);
      SlotZero(before.fifoPtr);
      var i := 0;
      while i < length
        invariant 0 <= i <= length
        invariant regs == before.(fifoPtr := Slot(before.fifoPtr, i))
        invariant buffer[..i] == FifoRead(before.fifo, before.fifoPtr, i)
        invariant forall k :: i <= k < buffer.Length ==> buffer[k] == old(buffer[k])
      {
        FifoReadOne(before.fifo, before.fifoPtr, i);
        SlotNext(before.fifoPtr, i);
        ghost var done := buffer[..i];
        buffer[i] := ReadFifo();
        assert buffer[..i + 1] == done + [buffer[i]];
        i := i + 1;
      }
    }
  }
}
