/** The transmitter of an ACIA wired to its own receiver: what happens to every byte over
    whole runs of writes, reads and bit clocks. */
module AciaLink {
  import opened AciaChip

  datatype Action = Write(value: Byte) | Tick | ReadData | ReadStatus

  /** The chip with the history of the line: bytes written, frames that arrived, the positions
      among them of those that reached RDR, bytes read, and the drops since the last read. */
  datatype Link = Link(chip: Acia, sent: seq<Byte>, arrived: seq<Byte>, kept: seq<nat>, read: seq<Byte>, newDrops: nat)

  /** The chip after a master reset and the choice of a line format. */
  function Start(a: Acia, cr: nat): Link {
    Link(WriteCr(WriteCr(a, 3, false, false), cr, false, false), [], [], [], [], 0)
  }

  /** A control value that sends no break. */
  predicate Running(cr: nat) {
    cr / 32 % 4 != 3
  }

  predicate Completes(a: Acia, bit: bool) {
    a.rx.state == StopBit && bit && Decrement(a.rx.stopBits) == 0
  }

  /** A program writes only when TDRE says that TDR is empty. */
  predicate Allowed(l: Link, action: Action) {
    action.Write? ==> l.chip.sr.tdre
  }

  function Act(l: Link, action: Action): Link {
    match action
    case Write(value) => l.(chip := WriteTdr(l.chip, value), sent := l.sent + [value])
    case ReadData =>
      var (a, value) := ReadRdr(l.chip, false);
      l.(chip := a, read := if l.chip.sr.rdrf then l.read + [value] else l.read, newDrops := 0)
    case ReadStatus => l.(chip := ReadSr(l.chip, false).0)
    case Tick =>
      var bit, a := TxLine(l.chip), ClockTx(l.chip);
      var l1 := l.(chip := ClockRx(a, bit));
      if !Completes(a, bit) then l1
      else if a.sr.rdrf then l1.(arrived := l.arrived + [a.rx.shift], newDrops := l.newDrops + 1)
      else l1.(arrived := l.arrived + [a.rx.shift], kept := l.kept + [|l.arrived|])
  }

  function RunLink(l: Link, actions: seq<Action>): Link {
    if actions == [] then l else Act(RunLink(l, actions[..|actions| - 1]), actions[|actions| - 1])
  }

  predicate AllAllowed(l: Link, actions: seq<Action>) {
    forall k :: 0 <= k < |actions| ==> Allowed(RunLink(l, actions[..k]), actions[k])
  }

  /** A byte as the receiver delivers it: a seven-bit word arrives left-aligned. */
  function Deliver(cr: nat, b: Byte): Byte {
    if EightBits(cr) then b else Byte(false, b.b0, b.b1, b.b2, b.b3, b.b4, b.b5, b.b6)
  }

  // The two shift registers after `j` bits of byte `b`.
  function Shifted(b: Byte, j: nat): Byte {
    if j == 0 then b else ShiftRight(Shifted(b, j - 1))
  }

  function Gathered(b: Byte, j: nat): Byte {
    if j == 0 then ZERO else ShiftRight(WithTopBit(Gathered(b, j - 1), Shifted(b, j - 1).b0))
  }

  /** One data bit moves from one register to the other. */
  lemma BitMoves(b: Byte, j: nat)
    ensures Shifted(b, j + 1) == ShiftRight(Shifted(b, j))
    ensures Gathered(b, j + 1) == ShiftRight(WithTopBit(Gathered(b, j), Shifted(b, j).b0))
  {
  }

  lemma NoBits(b: Byte)
    ensures Shifted(b, 0) == b && Gathered(b, 0) == ZERO
  {
  }

  lemma FirstBits(b: Byte)
    ensures Shifted(b, 3) == Byte(b.b3, b.b4, b.b5, b.b6, b.b7, false, false, false)
    ensures Gathered(b, 3) == Byte(false, false, false, false, b.b0, b.b1, b.b2, false)
  {
    hide Shifted, Gathered;
    NoBits(b);
    BitMoves(b, 0);
    BitMoves(b, 1);
    BitMoves(b, 2);
  }

  lemma LaterBits(b: Byte)
    ensures Shifted(b, 6) == Byte(b.b6, b.b7, false, false, false, false, false, false)
    ensures Gathered(b, 6) == Byte(false, b.b0, b.b1, b.b2, b.b3, b.b4, b.b5, false)
  {
    hide Shifted, Gathered;
    FirstBits(b);
    BitMoves(b, 3);
    BitMoves(b, 4);
    BitMoves(b, 5);
  }

  lemma LastOfSeven(b: Byte)
    ensures WithTopBit(Gathered(b, 6), Shifted(b, 6).b0) == Byte(false, b.b0, b.b1, b.b2, b.b3, b.b4, b.b5, b.b6)
  {
    hide Shifted, Gathered;
    LaterBits(b);
  }

  lemma LastOfEight(b: Byte)
    ensures WithTopBit(Gathered(b, 7), Shifted(b, 7).b0) == b
  {
    hide Shifted, Gathered;
    LaterBits(b);
    BitMoves(b, 6);
  }

  /** After the last data bit, which is not shifted, the byte is complete. */
  lemma LastBit(cr: nat, b: Byte)
    ensures var j := FormatOf(cr).dataBits - 1;
      WithTopBit(Gathered(b, j), Shifted(b, j).b0) == Deliver(cr, b)
  {
    hide Shifted, Gathered, FormatOf, WithTopBit, EightBits;
    FormatInBits(cr);
    LastOfSeven(b);
    LastOfEight(b);
  }

  /** Transmitter and receiver in step: both are in the same state of the same frame, and
      between them they hold the bits of byte `b`. */
  predicate InStep(a: Acia, b: Byte) {
    var f := FormatOf(a.cr);
    && a.tx.state == a.rx.state
    && (a.tx.state == Idle ==> a.tx.size == 0)
    && (a.tx.state == DataBit ==>
          && a.tx.size == a.rx.size && 1 <= a.tx.size <= f.dataBits
          && a.tx.shift == Shifted(b, f.dataBits - a.tx.size)
          && a.rx.shift == Gathered(b, f.dataBits - a.tx.size))
    && (a.tx.state in {DataBit, ParityBit} ==> a.tx.parity == a.rx.parity)
    && (a.tx.state in {ParityBit, StopBit} ==> a.tx.size == 0 && a.rx.shift == Deliver(a.cr, b))
    && (a.tx.state != Idle ==> a.tx.stopBits == a.rx.stopBits && 1 <= a.tx.stopBits <= f.stopBits)
    && (a.tx.state in {DataBit, ParityBit} ==> a.tx.stopBits == f.stopBits)
    && (a.tx.state == ParityBit ==> f.parity != NoParity)
  }

  /** A bit clock of both halves. */
  function Clock(a: Acia): Acia {
    ClockRx(ClockTx(a), TxLine(a))
  }

  /** What one bit clock does to a chip in step; `b` is the byte on the line, if there is one. */
  lemma ClockIdle(a: Acia, b: Byte)
    requires InStep(a, b) && a.tx.state == Idle && !a.tx.sendBrk && a.sr.tdre
    ensures !Completes(ClockTx(a), TxLine(a))
    ensures var c := Clock(a); InStep(c, b) && c == a.(sr := a.sr.(irq := c.sr.irq), irqLineHigh := c.irqLineHigh)
  {
    hide UpdateIrq, IrqCause, FormatOf, Shifted, Gathered, Deliver;
  }

  lemma ClockStartBit(a: Acia, b: Byte)
    requires InStep(a, b) && a.tx.state == Idle && !a.tx.sendBrk && !a.sr.tdre
    ensures !Completes(ClockTx(a), TxLine(a))
    ensures var c := Clock(a);
      && InStep(c, a.tdr) && c.tx.state == DataBit && c.tx.size == FormatOf(a.cr).dataBits
      && c.sr == a.sr.(tdre := true, irq := c.sr.irq)
      && c.tx.sendBrk == a.tx.sendBrk && c.rx.overrun == a.rx.overrun && c.rdr == a.rdr && c.cr == a.cr &&
           c.tdr == a.tdr
  {
    hide UpdateIrq, IrqCause, FormatOf, Deliver;
    assert Shifted(a.tdr, 0) == a.tdr && Gathered(a.tdr, 0) == ZERO;
  }

  // The halves of a bit clock, up to the interrupt that they update.
  lemma TxHalf(a: Acia)
    ensures var t := ClockTx(a);
      t == TxStep(a).(sr := TxStep(a).sr.(irq := t.sr.irq), irqLineHigh := t.irqLineHigh)
  {
    hide TxStep, UpdateIrq, IrqCause;
  }

  lemma RxHalf(a: Acia, bit: bool)
    ensures var r := ClockRx(a, bit);
      r == RxStep(a, bit).(sr := RxStep(a, bit).sr.(irq := r.sr.irq), irqLineHigh := r.irqLineHigh)
  {
    hide RxStep, UpdateIrq, IrqCause;
  }

  lemma TxStopBit(a: Acia)
    requires a.tx.state == StopBit && 1 <= a.tx.stopBits
    ensures var t := ClockTx(a);
      && TxLine(a)
      && t == a.(tx := a.tx.(stopBits := a.tx.stopBits - 1, state := if a.tx.stopBits == 1 then Idle else StopBit),
                 sr := a.sr.(irq := t.sr.irq), irqLineHigh := t.irqLineHigh)
  {
    hide ClockTx, FormatOf;
    TxHalf(a);
  }

  lemma RxStopState(a: Acia)
    requires a.rx.state == StopBit
    ensures RxStep(a, true) == RxStopStep(a, true)
  {
    hide RxStartStep, RxDataStep, RxParityStep, RxStopStep;
  }

  /** The state after a valid stop bit, up to the interrupt. */
  function Stopped(a: Acia): Acia {
    if a.rx.stopBits > 1 then a.(rx := a.rx.(stopBits := a.rx.stopBits - 1))
    else a.(rx := a.rx.(stopBits := 0, state := Idle, overrun := a.rx.overrun || a.sr.rdrf),
            rdr := if a.sr.rdrf then a.rdr else a.rx.shift,
            sr := a.sr.(fe := false, rdrf := true))
  }

  lemma RxStopShape(a: Acia)
    requires 1 <= a.rx.stopBits
    ensures RxStopStep(a, true) == Stopped(a)
  {
  }

  lemma RxStopBit(a: Acia)
    requires a.rx.state == StopBit && 1 <= a.rx.stopBits
    ensures Completes(a, true) <==> a.rx.stopBits == 1
    ensures var r := ClockRx(a, true);
      r == Stopped(a).(sr := Stopped(a).sr.(irq := r.sr.irq), irqLineHigh := r.irqLineHigh)
  {
    hide ClockRx, FormatOf, RxStep, RxStopStep, Stopped;
    RxHalf(a, true);
    RxStopState(a);
    RxStopShape(a);
  }

  lemma TxDataBit(a: Acia)
    requires a.tx.state == DataBit && 1 <= a.tx.size
    ensures var t := ClockTx(a);
      && t == a.(tx := a.tx.(parity := a.tx.parity != a.tx.shift.b0, shift := ShiftRight(a.tx.shift),
           size := a.tx.size - 1,
                             state := if a.tx.size == 1 then AfterData(a.cr) else DataBit),
                 sr := a.sr.(irq := t.sr.irq), irqLineHigh := t.irqLineHigh)
  {
    hide ClockTx, FormatOf, ShiftRight;
    TxHalf(a);
  }

  lemma RxDataBit(a: Acia, bit: bool)
    requires a.rx.state == DataBit && 1 <= a.rx.size
    ensures var shift := WithTopBit(a.rx.shift, bit);
      var r := ClockRx(a, bit);
      && r == a.(rx := a.rx.(parity := a.rx.parity != bit, size := a.rx.size - 1,
                             shift := if a.rx.size > 1 then ShiftRight(shift) else shift,
                             state := if a.rx.size > 1 then DataBit else AfterData(a.cr)),
                 sr := a.sr.(irq := r.sr.irq), irqLineHigh := r.irqLineHigh)
  {
    hide ClockRx, FormatOf, ShiftRight, RxStartStep, RxStopStep, RxParityStep;
    RxHalf(a, bit);
  }

  lemma ClockDataBit(a: Acia, b: Byte)
    requires InStep(a, b) && a.tx.state == DataBit
    ensures !Completes(ClockTx(a), TxLine(a))
    ensures var c := Clock(a);
      && InStep(c, b)
      && c.tx.state == (if a.tx.size > 1 then DataBit else AfterData(a.cr))
      && c.tx.size == a.tx.size - 1 && c.tx.stopBits == a.tx.stopBits
      && c.sr == a.sr.(irq := c.sr.irq)
      && c.tx.sendBrk == a.tx.sendBrk && c.rx.overrun == a.rx.overrun && c.rdr == a.rdr && c.cr == a.cr &&
           c.tdr == a.tdr
  {
    hide ClockTx, ClockRx, FormatOf, Shifted, Gathered, Deliver, ShiftRight;
    TxDataBit(a);
    RxDataBit(ClockTx(a), TxLine(a));
    var j := FormatOf(a.cr).dataBits - a.tx.size;
    BitMoves(b, j);
    LastBit(a.cr, b);
  }

  lemma ClockParityBit(a: Acia, b: Byte)
    requires InStep(a, b) && a.tx.state == ParityBit
    ensures !Completes(ClockTx(a), TxLine(a))
    ensures var c := Clock(a);
      && InStep(c, b) && c.tx.state == StopBit && c.tx.stopBits == FormatOf(a.cr).stopBits
      && c.sr == a.sr.(pe := a.sr.pe || FormatOf(a.cr).parity == EvenParity, irq := c.sr.irq)
      && c.tx.sendBrk == a.tx.sendBrk && c.rx.overrun == a.rx.overrun && c.rdr == a.rdr && c.cr == a.cr &&
           c.tdr == a.tdr
  {
    hide UpdateIrq, IrqCause, FormatOf, Shifted, Gathered, Deliver, ShiftRight;
  }

  lemma ClockStopBit(a: Acia, b: Byte)
    requires InStep(a, b) && a.tx.state == StopBit
    ensures var last := a.tx.stopBits == 1;
      var c := Clock(a);
      && (Completes(ClockTx(a), TxLine(a)) <==> last)
      && ClockTx(a).rx.shift == Deliver(a.cr, b) && ClockTx(a).sr.rdrf == a.sr.rdrf
      && InStep(c, b) && c.tx.state == (if last then Idle else StopBit)
      && (!last ==> c.tx.stopBits == a.tx.stopBits - 1)
      && c.sr == a.sr.(fe := if last then false else a.sr.fe, rdrf := a.sr.rdrf || last, irq := c.sr.irq)
      && c.rdr == (if last && !a.sr.rdrf then Deliver(a.cr, b) else a.rdr)
      && c.rx.overrun == (a.rx.overrun || (last && a.sr.rdrf))
      && c.tx.sendBrk == a.tx.sendBrk && c.cr == a.cr && c.tdr == a.tdr
  {
    hide ClockTx, ClockRx, Completes, TxLine, FormatOf, Deliver, InStep;
    StopFacts(a, b);
    TxStopBit(a);
    RxStopBit(ClockTx(a));
    StopInStep(a, Clock(a), b);
  }

  lemma StopFacts(a: Acia, b: Byte)
    requires InStep(a, b) && a.tx.state == StopBit
    ensures a.rx.state == StopBit && 1 <= a.tx.stopBits == a.rx.stopBits && a.rx.shift == Deliver(a.cr, b)
  {
    hide FormatOf, Shifted, Gathered, Deliver;
  }

  lemma StopInStep(a: Acia, c: Acia, b: Byte)
    requires InStep(a, b) && a.tx.state == StopBit && c.cr == a.cr
    requires var next := if a.tx.stopBits == 1 then Idle else StopBit;
      && c.tx == a.tx.(stopBits := a.tx.stopBits - 1, state := next)
      && c.rx == a.rx.(stopBits := a.rx.stopBits - 1, state := next, overrun := c.rx.overrun)
    ensures InStep(c, b)
  {
    hide FormatOf, Shifted, Gathered, Deliver;
  }

  /** The byte on the line: the one after those that have arrived. */
  function Current(l: Link): Byte {
    if |l.arrived| < |l.sent| then l.sent[|l.arrived|] else ZERO
  }

  /** Every byte written is accounted for: arrived, on the line, or waiting in TDR. */
  ghost predicate Accounted(l: Link) {
    && |l.sent| == |l.arrived| + (if l.chip.tx.state == Idle then 0 else 1) + (if l.chip.sr.tdre then 0 else 1)
    && (!l.chip.sr.tdre ==> l.chip.tdr == l.sent[|l.sent| - 1])
    && (forall k :: 0 <= k < |l.arrived| ==> l.arrived[k] == Deliver(l.chip.cr, l.sent[k]))
  }

  /** What the program has read or can read are arrived bytes, in order; the others were
      dropped, and the receiver remembers a drop until the next read of RDR. */
  ghost predicate Received(l: Link) {
    && (forall i :: 0 <= i < |l.kept| ==> l.kept[i] < |l.arrived|)
    && (forall i, j :: 0 <= i < j < |l.kept| ==> l.kept[i] < l.kept[j])
    && |l.kept| == |l.read| + (if l.chip.sr.rdrf then 1 else 0)
    && (forall i :: 0 <= i < |l.read| ==> l.read[i] == l.arrived[l.kept[i]])
    && (l.chip.sr.rdrf ==> l.chip.rdr == l.arrived[l.kept[|l.read|]])
    && (l.chip.rx.overrun <==> l.newDrops > 0)
  }

  ghost predicate Good(l: Link, cr: nat) {
    && l.chip.cr == cr && !l.chip.tx.sendBrk
    && InStep(l.chip, Current(l))
    && Accounted(l) && Received(l)
    && !l.chip.sr.fe
    && (FormatOf(cr).parity != EvenParity ==> !l.chip.sr.pe)
  }

  lemma StartIsGood(a: Acia, cr: nat)
    requires Running(cr)
    ensures Good(Start(a, cr), cr)
  {
    hide UpdateIrq, IrqCause, FormatOf, Deliver, Shifted, Gathered;
  }

  lemma WriteIsGood(l: Link, cr: nat, value: Byte)
    requires Good(l, cr) && l.chip.sr.tdre
    ensures Good(Act(l, Write(value)), cr)
  {
    hide UpdateIrq, IrqCause, FormatOf, Deliver, Shifted, Gathered;
  }

  /** Reading RDR returns the byte and clears RDRF and PE.  OVRN shows after the read exactly
      if a frame was dropped since the last read, or if it showed before and SR has not been
      read in between. */
  lemma ReadReportsOverrun(a: Acia)
    ensures var (r, value) := ReadRdr(a, false);
      && value == a.rdr
      && r.sr == a.sr.(rdrf := false, pe := false, ovrn := a.rx.overrun || (a.sr.ovrn && !a.srRead),
                       dcd := a.sr.dcd && !a.srRead, irq := r.sr.irq)
      && r == a.(sr := r.sr, srRead := false, rx := a.rx.(overrun := false), irqLineHigh := r.irqLineHigh)
  {
    hide UpdateIrq, IrqCause;
  }

  lemma InStepFrame(a: Acia, a': Acia, b: Byte)
    requires InStep(a, b)
    requires a'.cr == a.cr && a'.tx == a.tx && a'.rx == a.rx.(overrun := a'.rx.overrun)
    ensures InStep(a', b)
  {
    hide FormatOf, Shifted, Gathered, Deliver;
  }

  lemma ReadIsGood(l: Link, cr: nat)
    requires Good(l, cr)
    ensures Good(Act(l, ReadData), cr)
  {
    hide InStep, ReadRdr, FormatOf, Deliver;
    ReadReportsOverrun(l.chip);
    InStepFrame(l.chip, Act(l, ReadData).chip, Current(l));
  }

  lemma StatusIsGood(l: Link, cr: nat)
    requires Good(l, cr)
    ensures Good(Act(l, ReadStatus), cr)
  {
    hide InStep, FormatOf, Deliver;
    InStepFrame(l.chip, Act(l, ReadStatus).chip, Current(l));
  }

  // One bit clock of a good link, by the state of the line.
  lemma TickIdle(l: Link, cr: nat)
    requires Good(l, cr) && l.chip.tx.state == Idle
    ensures Good(Act(l, Tick), cr)
  {
    hide InStep, Clock, ClockRx, ClockTx, TxLine, Completes, FormatOf, Deliver;
    ActTick(l);
    if l.chip.sr.tdre {
      ClockIdle(l.chip, Current(l));
    } else {
      ClockStartBit(l.chip, Current(l));
    }
  }

  lemma ActTick(l: Link)
    ensures var a, l' := ClockTx(l.chip), Act(l, Tick);
      && l'.chip == Clock(l.chip) && l'.sent == l.sent && l'.read == l.read
      && (!Completes(a, TxLine(l.chip)) ==> l'.arrived == l.arrived && l'.kept == l.kept && l'.newDrops == l.newDrops)
      && (Completes(a, TxLine(l.chip)) ==>
            && l'.arrived == l.arrived + [a.rx.shift]
            && l'.kept == (if a.sr.rdrf then l.kept else l.kept + [|l.arrived|])
            && l'.newDrops == l.newDrops + (if a.sr.rdrf then 1 else 0))
  {
    hide ClockTx, ClockRx, TxLine, Completes;
  }

  lemma TickBit(l: Link, cr: nat)
    requires Good(l, cr) && l.chip.tx.state in {DataBit, ParityBit}
    ensures Good(Act(l, Tick), cr)
  {
    hide InStep, Clock, ClockRx, ClockTx, TxLine, Completes, FormatOf, Deliver;
    ActTick(l);
    if l.chip.tx.state == DataBit {
      ClockDataBit(l.chip, Current(l));
    } else {
      ClockParityBit(l.chip, Current(l));
    }
  }

  lemma TickStop(l: Link, cr: nat)
    requires Good(l, cr) && l.chip.tx.state == StopBit
    ensures Good(Act(l, Tick), cr)
  {
    hide Good, Act;
    if l.chip.sr.rdrf {
      TickStopFull(l, cr);
    } else {
      TickStopFree(l, cr);
    }
  }

  lemma TickStopFull(l: Link, cr: nat)
    requires Good(l, cr) && l.chip.tx.state == StopBit && l.chip.sr.rdrf
    ensures Good(Act(l, Tick), cr)
  {
    hide InStep, Clock, ClockRx, ClockTx, TxLine, Completes, FormatOf, Deliver, Act;
    ActTick(l);
    ClockStopBit(l.chip, Current(l));
    if l.chip.tx.stopBits == 1 {
      IdleInStep(Clock(l.chip), Current(l), Current(Act(l, Tick)));
    }
  }

  lemma TickStopFree(l: Link, cr: nat)
    requires Good(l, cr) && l.chip.tx.state == StopBit && !l.chip.sr.rdrf
    ensures Good(Act(l, Tick), cr)
  {
    hide InStep, Clock, ClockRx, ClockTx, TxLine, Completes, FormatOf, Deliver, Act;
    ActTick(l);
    ClockStopBit(l.chip, Current(l));
    if l.chip.tx.stopBits == 1 {
      IdleInStep(Clock(l.chip), Current(l), Current(Act(l, Tick)));
    }
  }

  /** Between frames no byte is on the line. */
  lemma IdleInStep(a: Acia, b: Byte, b': Byte)
    requires InStep(a, b) && a.tx.state == Idle
    ensures InStep(a, b')
  {
    hide FormatOf, Shifted, Gathered, Deliver;
  }

  lemma ActIsGood(l: Link, cr: nat, action: Action)
    requires Good(l, cr) && Allowed(l, action)
    ensures Good(Act(l, action), cr)
  {
    hide Act, Good;
    match action
    case Write(value) => CanWrite(l, value); WriteIsGood(l, cr, value);
    case ReadData => ReadIsGood(l, cr);
    case ReadStatus => StatusIsGood(l, cr);
    case Tick =>
      match l.chip.tx.state
      case Idle => TickIdle(l, cr);
      case StopBit => TickStop(l, cr);
      case _ => TickBit(l, cr);
  }

  lemma CanWrite(l: Link, value: Byte)
    requires Allowed(l, Write(value))
    ensures l.chip.sr.tdre
  {
  }

  lemma {:induction false} RunIsGood(l: Link, cr: nat, actions: seq<Action>)
    requires Good(l, cr) && AllAllowed(l, actions)
    ensures Good(RunLink(l, actions), cr)
  {
    hide Good, Act, Allowed;
    if actions != [] {
      var n := |actions| - 1;
      AllowedPrefix(l, actions);
      RunIsGood(l, cr, actions[..n]);
      assert Allowed(RunLink(l, actions[..n]), actions[n]);
      ActIsGood(RunLink(l, actions[..n]), cr, actions[n]);
    }
  }

  lemma AllowedPrefix(l: Link, actions: seq<Action>)
    requires actions != [] && AllAllowed(l, actions)
    ensures AllAllowed(l, actions[..|actions| - 1]) &&
        Allowed(RunLink(l, actions[..|actions| - 1]), actions[|actions| - 1])
  {
    hide Allowed, RunLink;
    var n := |actions| - 1;
    forall k | 0 <= k < n ensures Allowed(RunLink(l, actions[..n][..k]), actions[..n][k]) {
      assert actions[..n][..k] == actions[..k];
      assert Allowed(RunLink(l, actions[..k]), actions[k]);
    }
  }

  /** No frame ends while an unread byte is in RDR. */
  predicate Timely(l: Link, actions: seq<Action>) {
    forall k :: 0 <= k < |actions| && actions[k].Tick? ==> !Drops(RunLink(l, actions[..k]))
  }

  /** The next bit clock ends a frame that finds RDR full. */
  predicate Drops(l: Link) {
    Completes(ClockTx(l.chip), TxLine(l.chip)) && ClockTx(l.chip).sr.rdrf
  }

  lemma ActDrops(l: Link, action: Action)
    ensures var l' := Act(l, action);
      |l'.arrived| - |l'.kept| == |l.arrived| - |l.kept| + (if action.Tick? && Drops(l) then 1 else 0)
  {
    hide ClockTx, ClockRx, TxLine, Completes, ReadRdr, WriteTdr;
  }

  lemma {:induction false} TimelyMeansNoDrop(l: Link, actions: seq<Action>)
    ensures var l' := RunLink(l, actions);
      && |l.arrived| - |l.kept| <= |l'.arrived| - |l'.kept|
      && (Timely(l, actions) <==> |l'.arrived| - |l'.kept| == |l.arrived| - |l.kept|)
  {
    hide Act, Drops;
    if actions != [] {
      var n := |actions| - 1;
      TimelyMeansNoDrop(l, actions[..n]);
      ActDrops(RunLink(l, actions[..n]), actions[n]);
      TimelyPrefix(l, actions);
    }
  }

  lemma TimelyPrefix(l: Link, actions: seq<Action>)
    requires actions != []
    ensures var n := |actions| - 1;
      Timely(l, actions) <==> Timely(l, actions[..n]) && !(actions[n].Tick? && Drops(RunLink(l, actions[..n])))
  {
    hide Drops, RunLink;
    var n := |actions| - 1;
    assert forall k :: 0 <= k < n ==> actions[..n][..k] == actions[..k] && actions[..n][k] == actions[k];
    if Timely(l, actions[..n]) && !(actions[n].Tick? && Drops(RunLink(l, actions[..n]))) {
      forall k | 0 <= k < |actions| && actions[k].Tick? ensures !Drops(RunLink(l, actions[..k])) {
        if k < n {
          assert actions[..n][k].Tick?;
        }
      }
    }
  }

  /** A strictly increasing choice of positions below `n`. */
  ghost predicate Positions(at: seq<nat>, n: nat) {
    && (forall i :: 0 <= i < |at| ==> at[i] < n)
    && (forall i, j :: 0 <= i < j < |at| ==> at[i] < at[j])
  }

  lemma {:induction false} AllPositions(at: seq<nat>, n: nat)
    requires Positions(at, n) && |at| >= n
    ensures |at| == n && forall i :: 0 <= i < n ==> at[i] == i
  {
    if at != [] {
      var m := |at| - 1;
      assert at[m] < n;
      assert forall i :: 0 <= i < m ==> at[i] < at[m];
      AllPositions(at[..m], n - 1);
      assert n >= 2 ==> at[..m][n - 2] == n - 2;
    }
  }

  /** The serial round trip.  Whatever the program writes when TDRE is set arrives bit for bit
      and in order, except that seven-bit words arrive left-aligned; at most the byte on the
      line and the one in TDR are still under way.  No frame is in error.  The program reads a
      subsequence of what arrived, and exactly that if it is never late. */
  lemma SerialRoundTrip(a: Acia, cr: nat, actions: seq<Action>)
    requires Running(cr) && AllAllowed(Start(a, cr), actions)
    ensures var l := RunLink(Start(a, cr), actions);
      && |l.arrived| <= |l.sent| <= |l.arrived| + 2
      && (forall k :: 0 <= k < |l.arrived| ==>
            var b := l.sent[k];
            l.arrived[k] == if cr / 16 % 2 == 1 then b else Byte(false, b.b0, b.b1, b.b2, b.b3, b.b4, b.b5, b.b6))
      && !l.chip.sr.fe && (!HasParity(cr) || OddSelected(cr) ==> !l.chip.sr.pe)
      && Positions(l.kept, |l.arrived|)
      && |l.kept| == |l.read| + (if l.chip.sr.rdrf then 1 else 0)
      && (forall i :: 0 <= i < |l.read| ==> l.read[i] == l.arrived[l.kept[i]])
      && (l.chip.sr.rdrf ==> l.chip.rdr == l.arrived[l.kept[|l.read|]])
      && (Timely(Start(a, cr), actions) <==> |l.arrived| == |l.kept|)
      && (Timely(Start(a, cr), actions) ==> l.arrived == l.read + (if l.chip.sr.rdrf then [l.chip.rdr] else []))
  {
    hide Start, Timely, InStep, FormatOf, RunLink, HasParity, OddSelected;
    var start := Start(a, cr);
    var l := RunLink(start, actions);
    FormatInBits(cr);
    StartIsGood(a, cr);
    RunIsGood(start, cr, actions);
    StartIsEmpty(a, cr);
    TimelyMeansNoDrop(start, actions);
    if Timely(start, actions) {
      AllPositions(l.kept, |l.arrived|);
    }
  }

  lemma StartIsEmpty(a: Acia, cr: nat)
    ensures var l := Start(a, cr); l.sent == [] && l.arrived == [] && l.kept == [] && l.read == []
  {
    hide WriteCr;
  }

  /** OVRN never changes but in a read of RDR. */
  lemma OnlyReadsChangeOvrn(l: Link, action: Action)
    requires !action.ReadData?
    ensures Act(l, action).chip.sr.ovrn == l.chip.sr.ovrn
  {
    hide UpdateIrq, IrqCause, FormatOf, Completes, TxLine, RxStep, TxStep;
    if action.Tick? {
      TxHalf(l.chip);
      RxHalf(ClockTx(l.chip), TxLine(l.chip));
      TxKeepsOvrn(l.chip);
      RxKeepsOvrn(ClockTx(l.chip), TxLine(l.chip));
    }
  }

  lemma TxKeepsOvrn(a: Acia)
    ensures TxStep(a).sr.ovrn == a.sr.ovrn
  {
    hide FormatOf, ShiftRight, AfterData, Decrement;
  }

  lemma StopStepKeepsOvrn(a: Acia, bit: bool)
    ensures RxStopStep(a, bit).sr.ovrn == a.sr.ovrn
  {
    if bit && a.sr.rdrf {
    } else if bit {
    } else {
    }
  }

  lemma BitStepsKeepOvrn(a: Acia, bit: bool)
    ensures RxStartStep(a, bit).sr.ovrn == a.sr.ovrn
    ensures RxDataStep(a, bit).sr.ovrn == a.sr.ovrn
    ensures RxParityStep(a, bit).sr.ovrn == a.sr.ovrn
  {
    hide FormatOf, ShiftRight, WithTopBit, AfterData, Decrement;
  }

  lemma RxKeepsOvrn(a: Acia, bit: bool)
    ensures RxStep(a, bit).sr.ovrn == a.sr.ovrn
  {
    hide RxStartStep, RxDataStep, RxParityStep, RxStopStep;
    BitStepsKeepOvrn(a, bit);
    StopStepKeepsOvrn(a, bit);
  }

  /** Loss is reported at the first read after it: in every reachable state a read of RDR shows
      OVRN exactly if a frame was dropped since the read before, or if an earlier report has not
      been seen through SR yet. */
  lemma LossIsReported(a: Acia, cr: nat, actions: seq<Action>)
    requires Running(cr) && AllAllowed(Start(a, cr), actions)
    ensures var l := RunLink(Start(a, cr), actions);
      Act(l, ReadData).chip.sr.ovrn <==> l.newDrops > 0 || (l.chip.sr.ovrn && !l.chip.srRead)
  {
    hide Start, InStep, FormatOf, Deliver, RunLink, ReadRdr;
    var l := RunLink(Start(a, cr), actions);
    StartIsGood(a, cr);
    RunIsGood(Start(a, cr), cr, actions);
    ReadReportsOverrun(l.chip);
  }
}
