/** The MC6850 ACIA: its registers and its bit-level transmitter and receiver. */
module AciaChip {

  /** A data byte as its eight bits. */
  datatype Byte = Byte(b0: bool, b1: bool, b2: bool, b3: bool, b4: bool, b5: bool, b6: bool, b7: bool)

  const ZERO := Byte(false, false, false, false, false, false, false, false)

  function ShiftRight(b: Byte): Byte {
    Byte(b.b1, b.b2, b.b3, b.b4, b.b5, b.b6, b.b7, false)
  }

  function WithTopBit(b: Byte, bit: bool): Byte {
    b.(b7 := b.b7 || bit)
  }

  datatype Parity = NoParity | EvenParity | OddParity
  datatype Format = Format(dataBits: nat, parity: Parity, stopBits: nat)
  datatype LineState = Idle | DataBit | ParityBit | StopBit

  /** The flags of the status register, bit 0 first. */
  datatype Status = Status(rdrf: bool, tdre: bool, dcd: bool, cts: bool, fe: bool, ovrn: bool, pe: bool, irq: bool)

  datatype Transmitter = Transmitter(
    state: LineState, shift: Byte, size: nat, parity: bool, stopBits: nat, enableInt: bool, sendBrk: bool)

  datatype Receiver = Receiver(
    state: LineState, shift: Byte, size: nat, parity: bool, stopBits: nat, overrun: bool)

  /** The chip.  The IRQ line is active low. */
  datatype Acia = Acia(
    cr: nat, sr: Status, tdr: Byte, rdr: Byte, firstMasterReset: bool, srRead: bool,
    tx: Transmitter, rx: Receiver, irqLineHigh: bool)

  // The fields of the control register.
  function CounterDivide(cr: nat): nat { cr % 4 }
  function WordSelect(cr: nat): nat { cr / 4 % 8 }
  function TransmitterControl(cr: nat): nat { cr / 32 % 4 }
  predicate ReceiveInterruptEnable(cr: nat) { cr / 128 % 2 == 1 }

  /** Data bits, parity and stop bits that a word select stands for. */
  function FormatOf(cr: nat): (f: Format)
    ensures f.dataBits in {7, 8} && f.stopBits in {1, 2}
  {
    match WordSelect(cr)
    case 0 => Format(7, EvenParity, 2)
    case 1 => Format(7, OddParity, 2)
    case 2 => Format(7, EvenParity, 1)
    case 3 => Format(7, OddParity, 1)
    case 4 => Format(8, NoParity, 2)
    case 5 => Format(8, NoParity, 1)
    case 6 => Format(8, EvenParity, 1)
    case _ => Format(8, OddParity, 1)
  }

  /** The word select in bits 2 to 4 of CR: eight data bits, parity, odd parity, two stop bits. */
  predicate EightBits(cr: nat) { cr / 16 % 2 == 1 }
  predicate HasParity(cr: nat) { cr / 4 % 8 != 4 && cr / 4 % 8 != 5 }
  predicate OddSelected(cr: nat) { cr / 4 % 2 == 1 }
  predicate TwoStopBits(cr: nat) { cr / 4 % 8 < 2 || cr / 4 % 8 == 4 }

  /** The format in the bits of CR. */
  lemma FormatInBits(cr: nat)
    ensures FormatOf(cr) == Format(
      if EightBits(cr) then 8 else 7,
      if !HasParity(cr) then NoParity else if OddSelected(cr) then OddParity else EvenParity,
      if TwoStopBits(cr) then 2 else 1)
  {
    SelectBits(cr / 4);
    Quarter(cr);
    match WordSelect(cr)
    case 0 => case 1 => case 2 => case 3 => case 4 => case 5 => case 6 =>
    case _ => assert WordSelect(cr) == 7;
  }

  lemma Quarter(cr: nat)
    ensures cr / 16 == cr / 4 / 4
  {
  }

  lemma SelectBits(n: nat)
    ensures n / 4 % 2 == n % 8 / 4 && n % 2 == n % 8 % 2
  {
    LowBit(n / 8, n % 8);
    HighBit(n / 8, n % 8);
    assert n == 8 * (n / 8) + n % 8;
  }

  lemma LowBit(q: nat, r: nat)
    requires r < 8
    ensures (8 * q + r) % 2 == r % 2
  {
    ByTwo(8 * q + r, 4 * q + r / 2, r % 2);
  }

  lemma ByTwo(x: nat, q: nat, r: nat)
    requires x == 2 * q + r && r < 2
    ensures x / 2 == q && x % 2 == r
  {
  }

  lemma ByFour(x: nat, q: nat, r: nat)
    requires x == 4 * q + r && r < 4
    ensures x / 4 == q && x % 4 == r
  {
  }

  lemma HighBit(q: nat, r: nat)
    requires r < 8
    ensures (8 * q + r) / 4 % 2 == r / 4
  {
    ByFour(8 * q + r, 2 * q + r / 4, r % 4);
    ByTwo(2 * q + r / 4, q, r / 4);
  }

  /** The power-on state: everything zero, the IRQ line included. */
  function Init(): Acia {
    Acia(0, Status(false, false, false, false, false, false, false, false), ZERO, ZERO, true, false,
         Transmitter(Idle, ZERO, 0, false, 0, false, false), Receiver(Idle, ZERO, 0, false, 0, false), false)
  }

  /** The causes of an interrupt. */
  predicate IrqCause(a: Acia) {
    || (ReceiveInterruptEnable(a.cr) && (a.sr.rdrf || a.sr.dcd || a.rx.overrun))
    || (a.tx.enableInt && a.sr.tdre && !a.sr.cts)
  }

  function UpdateIrq(a: Acia): (r: Acia)
    ensures r == a.(sr := a.sr.(irq := IrqCause(a)), irqLineHigh := r.irqLineHigh)
    ensures r.irqLineHigh == if a.sr.irq == IrqCause(a) then a.irqLineHigh else !IrqCause(a)
  {
    if a.sr.irq == IrqCause(a) then a
    else if IrqCause(a) then a.(sr := a.sr.(irq := true), irqLineHigh := false)
    else a.(sr := a.sr.(irq := false), irqLineHigh := true)
  }

  /** The four causes, each on its own: a byte in RDR, a high DCD, a dropped frame, an empty TDR. */
  lemma IrqCauses(a: Acia)
    ensures UpdateIrq(a).sr.irq <==>
      || (a.cr / 128 % 2 == 1 && a.sr.rdrf)
      || (a.cr / 128 % 2 == 1 && a.sr.dcd)
      || (a.cr / 128 % 2 == 1 && a.rx.overrun)
      || (a.tx.enableInt && a.sr.tdre && !a.sr.cts)
  {
    hide UpdateIrq;
  }

  function MasterReset(a: Acia, dcd: bool, cts: bool): Acia {
    a.(sr := Status(false, true, dcd, cts, false, false, false, false),
       tx := a.tx.(state := Idle, shift := ZERO, size := 0, sendBrk := false),
       rx := a.rx.(state := Idle, shift := ZERO, size := 0, overrun := false),
       irqLineHigh := true,
       firstMasterReset := false)
  }

  function WriteCr(a: Acia, cr: nat, dcd: bool, cts: bool): Acia {
    var a1 := if CounterDivide(cr) == 3 then MasterReset(a, dcd, cts) else a;
    var control := TransmitterControl(cr);
    UpdateIrq(a1.(tx := a1.tx.(enableInt := control == 1, sendBrk := control == 3), cr := cr))
  }

  /** The state after reading SR; the flags read hide TDRE while CTS is high. */
  function ReadSr(a: Acia, cts: bool): (Acia, Status) {
    var a1 := a.(sr := a.sr.(cts := cts), srRead := true);
    (a1, if cts then a1.sr.(tdre := false) else a1.sr)
  }

  /** A read of SR samples CTS, which hides TDRE while it is high, and is remembered until RDR is read. */
  lemma StatusShown(a: Acia, cts: bool)
    ensures var (r, flags) := ReadSr(a, cts);
      && r.srRead && r.sr.cts == cts && r == a.(srRead := true, sr := r.sr)
      && (flags.tdre <==> a.sr.tdre && !cts) && flags.cts == cts
      && flags.rdrf == a.sr.rdrf && flags.ovrn == a.sr.ovrn && flags.pe == a.sr.pe && flags.fe == a.sr.fe
      && flags.dcd == a.sr.dcd && flags.irq == a.sr.irq
  {
  }

  function ReadRdr(a: Acia, dcd: bool): (Acia, Byte) {
    var a1 := a.(sr := a.sr.(rdrf := false, pe := false));
    var a2 := if a1.srRead then a1.(srRead := false, sr := a1.sr.(ovrn := false, dcd := dcd)) else a1;
    var a3 := if a2.rx.overrun then a2.(sr := a2.sr.(ovrn := true), rx := a2.rx.(overrun := false)) else a2;
    (UpdateIrq(a3), a.rdr)
  }

  function WriteTdr(a: Acia, value: Byte): Acia {
    UpdateIrq(a.(tdr := value, sr := a.sr.(tdre := false)))
  }

  function PrepareTx(a: Acia): Acia {
    var f := FormatOf(a.cr);
    a.(tx := a.tx.(shift := a.tdr, parity := false, size := f.dataBits, stopBits := f.stopBits),
       sr := a.sr.(tdre := true))
  }

  function PrepareRx(a: Acia): Acia {
    var f := FormatOf(a.cr);
    a.(rx := a.rx.(shift := ZERO, parity := false, size := f.dataBits, stopBits := f.stopBits))
  }

  /** Subtracts one from an 8-bit counter. */
  function Decrement(n: nat): nat { if n == 0 then 255 else n - 1 }

  function AfterData(cr: nat): LineState {
    if FormatOf(cr).parity == NoParity then StopBit else ParityBit
  }

  /** What a transmit clock does before the interrupt is updated. */
  function TxStep(a: Acia): Acia {
    match a.tx.state
    case Idle =>
      if a.tx.sendBrk then a
      else
        var a1 := if !a.sr.tdre then PrepareTx(a) else a;
        if a1.tx.size == 0 then a1 else a1.(tx := a1.tx.(state := DataBit))
    case DataBit =>
      var size := Decrement(a.tx.size);
      a.(tx := a.tx.(parity := a.tx.parity != a.tx.shift.b0, shift := ShiftRight(a.tx.shift), size := size,
                     state := if size == 0 then AfterData(a.cr) else DataBit))
    case ParityBit =>
      a.(tx := a.tx.(state := StopBit))
    case StopBit =>
      var left := Decrement(a.tx.stopBits);
      a.(tx := a.tx.(stopBits := left, state := if left == 0 then Idle else StopBit))
  }

  /** The bit that a transmit clock puts on the line; a break or a start bit is low. */
  predicate TxLine(a: Acia) {
    match a.tx.state
    case Idle => !a.tx.sendBrk && a.sr.tdre && a.tx.size == 0
    case DataBit => a.tx.shift.b0
    case ParityBit => if FormatOf(a.cr).parity == EvenParity then a.tx.parity else !a.tx.parity
    case StopBit => true
  }

  function ClockTx(a: Acia): Acia {
    UpdateIrq(TxStep(a))
  }

  function RxStartStep(a: Acia, bit: bool): Acia {
    if bit then a else var a1 := PrepareRx(a); a1.(rx := a1.rx.(state := DataBit))
  }

  function RxDataStep(a: Acia, bit: bool): Acia {
    var shift := WithTopBit(a.rx.shift, bit);
    var size := Decrement(a.rx.size);
    a.(rx := a.rx.(parity := a.rx.parity != bit, size := size,
                   shift := if size > 0 then ShiftRight(shift) else shift,
                   state := if size > 0 then DataBit else AfterData(a.cr)))
  }

  /** The second test is meant for odd parity, but even parity falls into it as well. */
  function RxParityStep(a: Acia, bit: bool): Acia {
    var bad := (FormatOf(a.cr).parity == EvenParity && a.rx.parity != bit) || a.rx.parity == bit;
    a.(sr := a.sr.(pe := a.sr.pe || bad), rx := a.rx.(state := StopBit))
  }

  function RxStopStep(a: Acia, bit: bool): Acia {
    if !bit then
      a.(sr := a.sr.(fe := true), rdr := a.rx.shift, rx := a.rx.(state := Idle))
    else
      var left := Decrement(a.rx.stopBits);
      if left > 0 then a.(rx := a.rx.(stopBits := left))
      else if !a.sr.rdrf then
        a.(sr := a.sr.(fe := false, rdrf := true), rdr := a.rx.shift, rx := a.rx.(stopBits := left, state := Idle))
      else
        a.(sr := a.sr.(fe := false), rx := a.rx.(stopBits := left, overrun := true, state := Idle))
  }

  /** What a receive clock does before the interrupt is updated. */
  function RxStep(a: Acia, bit: bool): Acia {
    match a.rx.state
    case Idle => RxStartStep(a, bit)
    case DataBit => RxDataStep(a, bit)
    case ParityBit => RxParityStep(a, bit)
    case StopBit => RxStopStep(a, bit)
  }

  function ClockRx(a: Acia, bit: bool): Acia {
    UpdateIrq(RxStep(a, bit))
  }

  /** Sizes and stop bits that each state allows. */
  predicate Bounded(a: Acia) {
    && (a.tx.state == Idle ==> a.tx.size == 0)
    && (a.tx.state == DataBit ==> 1 <= a.tx.size <= 8)
    && (a.tx.state in {ParityBit, StopBit} ==> a.tx.size == 0)
    && (a.tx.state != Idle ==> 1 <= a.tx.stopBits <= 2)
    && (a.rx.state == DataBit ==> 1 <= a.rx.size <= 8)
    && (a.rx.state != Idle ==> 1 <= a.rx.stopBits <= 2)
  }

  /** With CTS and DCD low: SR bit 7 is set exactly when CR bit 7 enables the receive interrupt and
      there is a byte in RDR or a frame was dropped, or bits 5 and 6 of CR enable the transmit
      interrupt and TDR is empty; they also decide on a break.  Once the chip has been reset the IRQ
      line is low exactly when SR bit 7 is set. */
  predicate IrqConsistent(a: Acia) {
    && !a.sr.cts && !a.sr.dcd
    && (a.sr.irq <==>
         (a.cr / 128 % 2 == 1 && (a.sr.rdrf || a.rx.overrun)) || (a.cr / 32 % 4 == 1 && a.sr.tdre))
    && (a.tx.enableInt <==> a.cr / 32 % 4 == 1) && (a.tx.sendBrk <==> a.cr / 32 % 4 == 3)
    && (!a.firstMasterReset ==> a.irqLineHigh == !a.sr.irq)
  }

  /** What the processor and the two clocks can do to the chip. */
  datatype Op = OpWriteCr(value: nat) | OpReadSr | OpReadRdr | OpWriteTdr(data: Byte) | OpClockTx | OpClockRx(bit: bool)

  function Apply(a: Acia, op: Op): Acia {
    match op
    case OpWriteCr(value) => WriteCr(a, value, false, false)
    case OpReadSr => ReadSr(a, false).0
    case OpReadRdr => ReadRdr(a, false).0
    case OpWriteTdr(data) => WriteTdr(a, data)
    case OpClockTx => ClockTx(a)
    case OpClockRx(bit) => ClockRx(a, bit)
  }

  function Run(a: Acia, ops: seq<Op>): Acia {
    if ops == [] then a else Apply(Run(a, ops[..|ops| - 1]), ops[|ops| - 1])
  }

  lemma TxKeepsBounds(a: Acia)
    requires Bounded(a)
    ensures Bounded(TxStep(a))
  {
    hide WordSelect;
  }

  lemma RxKeepsBounds(a: Acia, bit: bool)
    requires Bounded(a)
    ensures Bounded(RxStep(a, bit))
  {
    hide WordSelect;
  }

  lemma OpKeepsBounds(a: Acia, op: Op)
    requires Bounded(a)
    ensures Bounded(Apply(a, op))
  {
    hide UpdateIrq, TxStep, RxStep, IrqCause;
    match op
    case OpClockTx => TxKeepsBounds(a);
    case OpClockRx(bit) => RxKeepsBounds(a, bit);
    case _ =>
  }

  /** A step that does not touch the interrupt is made consistent by the update after it. */
  lemma UpdateMakesConsistent(a: Acia, b: Acia)
    requires IrqConsistent(a) && LeavesIrq(a, b)
    ensures IrqConsistent(UpdateIrq(b))
  {
    hide UpdateIrq;
  }

  lemma WriteCrKeepsIrq(a: Acia, cr: nat)
    requires IrqConsistent(a)
    ensures IrqConsistent(WriteCr(a, cr, false, false))
  {
    hide UpdateIrq, WordSelect;
  }

  lemma ReadRdrKeepsIrq(a: Acia)
    requires IrqConsistent(a)
    ensures IrqConsistent(ReadRdr(a, false).0)
  {
    hide UpdateIrq;
  }

  lemma WriteTdrKeepsIrq(a: Acia, data: Byte)
    requires IrqConsistent(a)
    ensures IrqConsistent(WriteTdr(a, data))
  {
    hide UpdateIrq;
  }

  lemma ClocksKeepIrq(a: Acia, bit: bool)
    requires IrqConsistent(a)
    ensures IrqConsistent(ClockTx(a)) && IrqConsistent(ClockRx(a, bit))
  {
    hide UpdateIrq, IrqConsistent, IrqCause, LeavesIrq, TxStep, RxStep;
    TxLeavesIrq(a);
    RxLeavesIrq(a, bit);
    UpdateMakesConsistent(a, TxStep(a));
    UpdateMakesConsistent(a, RxStep(a, bit));
  }

  /** Nothing that the interrupt line hangs on changed, CTS and DCD included. */
  predicate LeavesIrq(a: Acia, b: Acia) {
    && b.sr.cts == a.sr.cts && b.sr.dcd == a.sr.dcd && b.sr.irq == a.sr.irq
    && b.irqLineHigh == a.irqLineHigh && b.firstMasterReset == a.firstMasterReset
    && b.cr == a.cr && b.tx.enableInt == a.tx.enableInt && b.tx.sendBrk == a.tx.sendBrk
  }

  lemma TxLeavesIrq(a: Acia)
    ensures LeavesIrq(a, TxStep(a))
  {
    hide FormatOf, ShiftRight, AfterData, Decrement;
    if a.tx.state == Idle {
      TxStartLeavesIrq(a);
    } else if a.tx.state == DataBit {
    } else if a.tx.state == ParityBit {
    } else {
    }
  }

  lemma TxStartLeavesIrq(a: Acia)
    requires a.tx.state == Idle
    ensures LeavesIrq(a, TxStep(a))
  {
    hide FormatOf;
  }

  lemma RxBitsLeaveIrq(a: Acia, bit: bool)
    ensures LeavesIrq(a, RxStartStep(a, bit)) && LeavesIrq(a, RxDataStep(a, bit)) && LeavesIrq(a, RxParityStep(a, bit))
  {
    hide FormatOf, ShiftRight, WithTopBit, AfterData, Decrement;
  }

  lemma RxStopLeavesIrq(a: Acia, bit: bool)
    ensures LeavesIrq(a, RxStopStep(a, bit))
  {
    if !bit {
    } else if Decrement(a.rx.stopBits) > 0 {
    } else if a.sr.rdrf {
    } else {
    }
  }

  lemma RxLeavesIrq(a: Acia, bit: bool)
    ensures LeavesIrq(a, RxStep(a, bit))
  {
    hide RxStartStep, RxDataStep, RxParityStep, RxStopStep, LeavesIrq;
    RxBitsLeaveIrq(a, bit);
    RxStopLeavesIrq(a, bit);
  }

  lemma OpKeepsIrq(a: Acia, op: Op)
    requires IrqConsistent(a)
    ensures IrqConsistent(Apply(a, op))
  {
    hide UpdateIrq, WriteCr, ReadRdr, ClockTx, ClockRx, ReceiveInterruptEnable;
    match op
    case OpWriteCr(value) => WriteCrKeepsIrq(a, value);
    case OpReadSr =>
    case OpReadRdr => ReadRdrKeepsIrq(a);
    case OpWriteTdr(data) => WriteTdrKeepsIrq(a, data);
    case OpClockTx => ClocksKeepIrq(a, false);
    case OpClockRx(bit) => ClocksKeepIrq(a, bit);
  }

  /** Every state that power-on and any operations lead to keeps the bounds and the IRQ rule. */
  lemma {:induction false} ReachableStates(ops: seq<Op>)
    ensures Bounded(Run(Init(), ops)) && IrqConsistent(Run(Init(), ops))
    ensures (exists k :: 0 <= k < |ops| && ops[k].OpWriteCr? && ops[k].value % 4 == 3)
            <==> !Run(Init(), ops).firstMasterReset
  {
    hide Bounded, IrqConsistent, Apply;
    if ops == [] {
      InitIsGood();
    } else {
      var n := |ops| - 1;
      ReachableStates(ops[..n]);
      OpKeepsBounds(Run(Init(), ops[..n]), ops[n]);
      OpKeepsIrq(Run(Init(), ops[..n]), ops[n]);
      OpResets(Run(Init(), ops[..n]), ops[n]);
      assert forall k :: 0 <= k < n ==> ops[..n][k] == ops[k];
    }
  }

  lemma InitIsGood()
    ensures Bounded(Init()) && IrqConsistent(Init())
  {
  }

  lemma OpResets(a: Acia, op: Op)
    ensures Apply(a, op).firstMasterReset <==> a.firstMasterReset && !(op.OpWriteCr? && CounterDivide(op.value) == 3)
  {
    hide UpdateIrq, WordSelect, IrqCause;
  }
}
