/** The ACIA as the emulator runs it: one object whose registers its operations update in place. */
module AciaEngine {
  import opened AciaChip
  import Link = AciaLink

  /** What a counter divide of the control register divides the clock by. */
  function Divider(cr: nat): nat {
    match CounterDivide(cr) case 0 => 1 case 1 => 16 case _ => 64
  }

  class Chip6850 {
    var cr: nat
    var sr: Status
    var tdr: Byte
    var rdr: Byte
    var firstMasterReset: bool
    var srRead: bool
    var tx: Transmitter
    var rx: Receiver
    var irqLineHigh: bool
    var clockDivider: nat
    // The pins other than the IRQ line; the chip drives the first two.
    var txLineHigh: bool
    var rtsLineHigh: bool
    var ctsPin: bool
    var dcdPin: bool

    ghost function State(): Acia
      reads this
    {
      Acia(cr, sr, tdr, rdr, firstMasterReset, srRead, tx, rx, irqLineHigh)
    }

    constructor ()
      ensures State() == Init() && clockDivider == 0 && !ctsPin && !dcdPin
    {
      cr := 0;
      sr := Status(false, false, false, false, false, false, false, false);
      tdr := ZERO;
      rdr := ZERO;
      firstMasterReset := true;
      srRead := false;
      tx := Transmitter(Idle, ZERO, 0, false, 0, false, false);
      rx := Receiver(Idle, ZERO, 0, false, 0, false);
      irqLineHigh := false;
      clockDivider := 0;
      txLineHigh := false;
      rtsLineHigh := false;
      ctsPin := false;
      dcdPin := false;
    }

    method UpdateIrqLine()
      modifies this`sr, this`irqLineHigh
      ensures State() == UpdateIrq(old(State()))
    {
      var irq := false;
      if ReceiveInterruptEnable(cr) && (sr.rdrf || sr.dcd || rx.overrun) {
        irq := true;
      }
      if tx.enableInt && sr.tdre && !sr.cts {
        irq := true;
      }
      if sr.irq != irq {
        if irq {
          sr := sr.(irq := true);
          irqLineHigh := false;
        } else {
          sr := sr.(irq := false);
          irqLineHigh := true;
        }
      }
    }

    method ResetChip(newCr: nat) returns (rts: bool)
      modifies this`sr, this`tx, this`rx, this`irqLineHigh, this`firstMasterReset
      ensures State() == MasterReset(old(State()), dcdPin, ctsPin)
      ensures rts == (old(firstMasterReset) || TransmitterControl(newCr) == 2)
    {
      sr := Status(false, true, dcdPin, ctsPin, false, false, false, false);
      tx := tx.(state := Idle, shift := ZERO, size := 0, sendBrk := false);
      rx := rx.(state := Idle, shift := ZERO, size := 0, overrun := false);
      irqLineHigh := true;
      if firstMasterReset {
        firstMasterReset := false;
        rts := true;
      } else {
        rts := TransmitterControl(newCr) == 2;
      }
    }

    /** Writes CR; `restart` says that the bit clock changes and its timer must be set again. */
    method WriteControl(newCr: nat) returns (restart: bool)
      modifies this`cr, this`sr, this`tx, this`rx, this`irqLineHigh, this`firstMasterReset, this`clockDivider,
          this`rtsLineHigh
      ensures State() == WriteCr(old(State()), newCr, dcdPin, ctsPin)
      ensures restart == (CounterDivide(newCr) != 3 && CounterDivide(newCr) != CounterDivide(old(cr)))
      ensures restart ==> clockDivider == if newCr % 4 == 0 then 1 else if newCr % 4 == 1 then 16 else 64
      ensures !restart ==> clockDivider == old(clockDivider)
      ensures rtsLineHigh == ((CounterDivide(newCr) == 3 && old(firstMasterReset)) || TransmitterControl(newCr) == 2)
    {
      hide UpdateIrq, WordSelect;
      var forced := false;
      var rts := false;
      restart := false;
      if CounterDivide(newCr) == 3 {
        rts := ResetChip(newCr);
        forced := true;
      } else if CounterDivide(newCr) != CounterDivide(cr) {
        clockDivider := Divider(newCr);
        restart := true;
      }
      tx := tx.(enableInt := false, sendBrk := false);
      if !forced {
        rts := TransmitterControl(newCr) == 2;
      }
      match TransmitterControl(newCr) {
        case 1 => tx := tx.(enableInt := true);
        case 3 => tx := tx.(sendBrk := true);
        case _ =>
      }
      rtsLineHigh := rts;
      cr := newCr;
      UpdateIrqLine();
    }

    method ReadStatus() returns (flags: Status)
      modifies this`sr, this`srRead
      ensures (State(), flags) == ReadSr(old(State()), ctsPin)
    {
      sr := sr.(cts := ctsPin);
      flags := sr;
      srRead := true;
      if flags.cts {
        flags := flags.(tdre := false);
      }
    }

    /** Acknowledges what a read of SR has shown. */
    method ClearSeenFlags()
      modifies this`sr, this`srRead
      ensures State() == var a := old(State());
        if a.srRead then a.(srRead := false, sr := a.sr.(ovrn := false, dcd := dcdPin)) else a
    {
      if srRead {
        srRead := false;
        sr := sr.(dcd := false, ovrn := false);
        if dcdPin {
          sr := sr.(dcd := true);
        }
      }
    }

    method ReadData() returns (value: Byte)
      modifies this`sr, this`srRead, this`rx, this`irqLineHigh
      ensures (State(), value) == ReadRdr(old(State()), dcdPin)
    {
      hide UpdateIrq, IrqCause;
      sr := sr.(rdrf := false, pe := false);
      ClearSeenFlags();
      if rx.overrun {
        sr := sr.(ovrn := true);
        rx := rx.(overrun := false);
      }
      UpdateIrqLine();
      value := rdr;
    }

    method WriteData(value: Byte)
      modifies this`tdr, this`sr, this`irqLineHigh
      ensures State() == WriteTdr(old(State()), value)
    {
      hide UpdateIrq, IrqCause;
      tdr := value;
      sr := sr.(tdre := false);
      UpdateIrqLine();
    }

    method PrepareTransmission()
      modifies this`tx, this`sr
      ensures State() == PrepareTx(old(State()))
    {
      tx := tx.(shift := tdr, parity := false);
      tx := tx.(size := FormatOf(cr).dataBits, stopBits := FormatOf(cr).stopBits);
      sr := sr.(tdre := true);
    }

    method PrepareReception()
      modifies this`rx
      ensures State() == PrepareRx(old(State()))
    {
      rx := rx.(shift := ZERO, parity := false);
      rx := rx.(size := FormatOf(cr).dataBits, stopBits := FormatOf(cr).stopBits);
    }

    method TransmitIdleBit()
      requires tx.state == Idle
      modifies this`tx, this`sr, this`txLineHigh
      ensures State() == TxStep(old(State())) && txLineHigh == TxLine(old(State()))
    {
      hide FormatOf;
      if tx.sendBrk {
        txLineHigh := false;
      } else {
        if !sr.tdre {
          PrepareTransmission();
        }
        if tx.size == 0 {
          txLineHigh := true;
        } else {
          txLineHigh := false;
          tx := tx.(state := DataBit);
        }
      }
    }

    method TransmitFrameBit()
      requires tx.state != Idle
      modifies this`tx, this`txLineHigh
      ensures State() == TxStep(old(State())) && txLineHigh == TxLine(old(State()))
    {
      hide FormatOf, ShiftRight;
      var next := tx.state;
      match tx.state {
        case DataBit =>
          var bit := tx.shift.b0;
          txLineHigh := bit;
          tx := tx.(parity := tx.parity != bit);
          tx := tx.(shift := ShiftRight(tx.shift));
          tx := tx.(size := Decrement(tx.size));
          if tx.size == 0 {
            next := if FormatOf(cr).parity != NoParity then ParityBit else StopBit;
          }
        case ParityBit =>
          txLineHigh := if FormatOf(cr).parity == EvenParity then tx.parity else !tx.parity;
          next := StopBit;
        case StopBit =>
          txLineHigh := true;
          tx := tx.(stopBits := Decrement(tx.stopBits));
          if tx.stopBits == 0 {
            next := Idle;
          }
      }
      tx := tx.(state := next);
    }

    /** Puts the next bit on the TX line. */
    method ClockTransmitter()
      modifies this`tx, this`sr, this`irqLineHigh, this`txLineHigh
      ensures State() == ClockTx(old(State())) && txLineHigh == TxLine(old(State()))
    {
      hide UpdateIrq, TxStep, TxLine;
      if tx.state == Idle {
        TransmitIdleBit();
      } else {
        TransmitFrameBit();
      }
      UpdateIrqLine();
    }

    method ReceiveStartBit(bit: bool)
      modifies this`rx
      ensures State() == RxStartStep(old(State()), bit)
    {
      hide FormatOf;
      if !bit {
        PrepareReception();
        rx := rx.(state := DataBit);
      }
    }

    method ReceiveDataBit(bit: bool)
      modifies this`rx
      ensures State() == RxDataStep(old(State()), bit)
    {
      hide FormatOf, ShiftRight, WithTopBit;
      var next := DataBit;
      rx := rx.(shift := WithTopBit(rx.shift, bit), parity := rx.parity != bit);
      rx := rx.(size := Decrement(rx.size));
      if rx.size > 0 {
        rx := rx.(shift := ShiftRight(rx.shift));
      } else {
        next := if FormatOf(cr).parity != NoParity then ParityBit else StopBit;
      }
      rx := rx.(state := next);
    }

    method ReceiveParityBit(bit: bool)
      modifies this`rx, this`sr
      ensures State() == RxParityStep(old(State()), bit)
    {
      hide FormatOf;
      if FormatOf(cr).parity == EvenParity && rx.parity != bit {
        sr := sr.(pe := true);
      } else if rx.parity == bit {
        sr := sr.(pe := true);
      }
      rx := rx.(state := StopBit);
    }

    method ReceiveStopBit(bit: bool)
      modifies this`rx, this`sr, this`rdr
      ensures State() == RxStopStep(old(State()), bit)
    {
      if bit {
        rx := rx.(stopBits := Decrement(rx.stopBits));
        if rx.stopBits == 0 {
          sr := sr.(fe := false);
          if !sr.rdrf {
            rdr := rx.shift;
            sr := sr.(rdrf := true);
          } else {
            rx := rx.(overrun := true);
          }
          rx := rx.(state := Idle);
        }
      } else {
        sr := sr.(fe := true);
        rdr := rx.shift;
        rx := rx.(state := Idle);
      }
    }

    /** Takes the next bit from the RX line. */
    method ClockReceiver(bit: bool)
      modifies this`rx, this`sr, this`rdr, this`irqLineHigh
      ensures State() == ClockRx(old(State()), bit)
    {
      hide UpdateIrq, RxStartStep, RxDataStep, RxParityStep, RxStopStep;
      match rx.state {
        case Idle => ReceiveStartBit(bit);
        case DataBit => ReceiveDataBit(bit);
        case ParityBit => ReceiveParityBit(bit);
        case StopBit => ReceiveStopBit(bit);
      }
      UpdateIrqLine();
    }

    /** The bit clock of a chip whose transmitter is wired to its receiver. */
    method BitClock()
      modifies this`tx, this`rx, this`sr, this`rdr, this`irqLineHigh, this`txLineHigh
      ensures State() == Link.Clock(old(State()))
    {
      hide ClockTx, ClockRx, TxLine;
      ClockTransmitter();
      ClockReceiver(txLineHigh);
    }
  }
}
