/** How long a frame takes on the line, and what its parity bit does to the receiver. */
module AciaFrame {
  import opened AciaChip
  import opened AciaLink

  function ParityBits(cr: nat): nat {
    if FormatOf(cr).parity == NoParity then 0 else 1
  }

  /** Start bit, data bits, parity bit and stop bits. */
  function FrameLength(cr: nat): nat {
    1 + FormatOf(cr).dataBits + ParityBits(cr) + FormatOf(cr).stopBits
  }

  /** The length in the bits of CR. */
  lemma LengthInBits(cr: nat)
    ensures FrameLength(cr) ==
      1 + (if EightBits(cr) then 8 else 7) + (if HasParity(cr) then 1 else 0) + (if TwoStopBits(cr) then 2 else 1)
  {
    hide FormatOf, EightBits, HasParity, TwoStopBits, OddSelected;
    FormatInBits(cr);
  }

  /** The bits of the frame on the line that have not been sent. */
  function BitsLeft(a: Acia): nat {
    match a.tx.state
    case Idle => 0
    case DataBit => a.tx.size + ParityBits(a.cr) + a.tx.stopBits
    case ParityBit => 1 + a.tx.stopBits
    case StopBit => a.tx.stopBits
  }

  function Ticks(actions: seq<Action>): nat {
    if actions == [] then 0
    else Ticks(actions[..|actions| - 1]) + (if actions[|actions| - 1].Tick? then 1 else 0)
  }

  /** A bit clock in the middle of a frame. */
  lemma TickInFrame(l: Link, cr: nat)
    requires Good(l, cr) && l.chip.tx.state != Idle
    ensures var l' := Act(l, Tick);
      && BitsLeft(l'.chip) == BitsLeft(l.chip) - 1
      && (l'.chip.tx.state == Idle <==> BitsLeft(l.chip) == 1)
      && l'.arrived == l.arrived + (if BitsLeft(l.chip) == 1 then [Deliver(cr, Current(l))] else [])
      && (BitsLeft(l.chip) == 1 ==> l'.chip.sr.rdrf && (!l.chip.sr.rdrf ==> l'.chip.rdr == Deliver(cr, Current(l))))
      && l'.sent == l.sent
      && l'.chip.sr.pe == (l.chip.sr.pe || (l.chip.tx.state == ParityBit && FormatOf(cr).parity == EvenParity))
  {
    hide Clock, ClockRx, ClockTx, TxLine, Completes, FormatOf, Deliver, Accounted, Received;
    ActTick(l);
    match l.chip.tx.state
    case DataBit => ClockDataBit(l.chip, Current(l));
    case ParityBit => ClockParityBit(l.chip, Current(l));
    case StopBit => ClockStopBit(l.chip, Current(l));
  }

  lemma TickStarts(l: Link, cr: nat)
    requires Good(l, cr) && l.chip.tx.state == Idle && !l.chip.sr.tdre
    ensures var l' := Act(l, Tick);
      && l'.chip.tx.state == DataBit && BitsLeft(l'.chip) == FrameLength(cr) - 1
      && l'.arrived == l.arrived && l'.sent == l.sent && l'.chip.sr.pe == l.chip.sr.pe
  {
    hide Clock, ClockRx, ClockTx, TxLine, Completes, FormatOf, Deliver, Accounted, Received;
    ActTick(l);
    ClockStartBit(l.chip, Current(l));
  }

  /** The other actions leave the line alone. */
  lemma NoTick(l: Link, action: Action)
    requires !action.Tick?
    ensures var l' := Act(l, action);
      && l'.chip.tx == l.chip.tx && l'.chip.cr == l.chip.cr && l'.arrived == l.arrived
      && (l'.sent == l.sent || (action.Write? && l'.sent == l.sent + [action.value]))
      && (!action.ReadData? ==> l'.chip.sr.pe == l.chip.sr.pe)
      && (!action.Write? ==> l'.sent == l.sent && l'.chip.tdr == l.chip.tdr && l'.chip.sr.tdre == l.chip.sr.tdre)
  {
    hide UpdateIrq, IrqCause;
  }

  /** The link `t` bit clocks after byte `b` was in TDR of the idle chip of link `l`. */
  ghost predicate Sending(l: Link, l': Link, cr: nat, t: nat) {
    && l.sent != [] && |l.sent| <= |l'.sent| && l'.sent[..|l.sent|] == l.sent
    && (t == 0 ==> l'.chip.tx.state == Idle && !l'.chip.sr.tdre && l'.sent == l.sent)
    && (0 < t < FrameLength(cr) ==> l'.chip.tx.state != Idle && BitsLeft(l'.chip) == FrameLength(cr) - t)
    && (t < FrameLength(cr) ==> l'.arrived == l.arrived)
    && (t == FrameLength(cr) ==>
          l'.chip.tx.state == Idle && l'.arrived == l.arrived + [Deliver(cr, l.sent[|l.sent| - 1])])
  }

  lemma ActSends(l: Link, l': Link, cr: nat, t: nat, action: Action)
    requires Good(l, cr) && l.chip.tx.state == Idle && !l.chip.sr.tdre
    requires Good(l', cr) && Sending(l, l', cr, t) && Allowed(l', action)
    requires action.Tick? ==> t < FrameLength(cr)
    ensures Sending(l, Act(l', action), cr, t + (if action.Tick? then 1 else 0))
  {
    hide Act, InStep, FormatOf, Deliver, Received, BitsLeft;
    LengthIsPositive(cr);
    if action.Tick? {
      if t == 0 {
        TickStarts(l', cr);
      } else {
        TickInFrame(l', cr);
      }
    } else {
      NoTick(l', action);
      SameBitsLeft(l'.chip, Act(l', action).chip);
    }
  }

  lemma SameBitsLeft(a: Acia, a': Acia)
    requires a'.tx == a.tx && a'.cr == a.cr
    ensures BitsLeft(a') == BitsLeft(a)
  {
  }

  lemma LengthIsPositive(cr: nat)
    ensures 9 <= FrameLength(cr) <= 12
  {
  }

  lemma {:induction false} RunSends(l: Link, cr: nat, actions: seq<Action>)
    requires Good(l, cr) && l.chip.tx.state == Idle && !l.chip.sr.tdre
    requires AllAllowed(l, actions) && Ticks(actions) <= FrameLength(cr)
    ensures Sending(l, RunLink(l, actions), cr, Ticks(actions))
  {
    hide Act, Allowed, Good, Sending, FormatOf, FrameLength;
    if actions == [] {
      StartsSending(l, cr);
    } else {
      var n := |actions| - 1;
      AllowedPrefix(l, actions);
      RunSends(l, cr, actions[..n]);
      RunIsGood(l, cr, actions[..n]);
      ActSends(l, RunLink(l, actions[..n]), cr, Ticks(actions[..n]), actions[n]);
    }
  }

  lemma StartsSending(l: Link, cr: nat)
    requires Good(l, cr) && l.chip.tx.state == Idle && !l.chip.sr.tdre
    ensures Sending(l, l, cr, 0)
  {
    hide InStep, FormatOf, Deliver, Received;
    LengthIsPositive(cr);
  }

  /** A byte in TDR of an idle transmitter arrives after exactly one frame of bit clocks,
      whatever else the program does in the meantime. */
  lemma FrameTakesItsBits(l: Link, cr: nat, actions: seq<Action>)
    requires Good(l, cr) && l.chip.tx.state == Idle && !l.chip.sr.tdre
    requires AllAllowed(l, actions) && Ticks(actions) <= FrameLength(cr)
    ensures RunLink(l, actions).arrived ==
      l.arrived + (if Ticks(actions) == FrameLength(cr) then [Deliver(cr, l.chip.tdr)] else [])
  {
    hide Act, Allowed, RunLink, InStep, FormatOf, FrameLength, Received, BitsLeft;
    RunSends(l, cr, actions);
  }

  /** The clock that ends the frame fills RDR, with the new byte unless an unread one is there. */
  lemma FrameFillsRdr(l: Link, cr: nat, actions: seq<Action>)
    requires Good(l, cr) && l.chip.tx.state == Idle && !l.chip.sr.tdre
    requires AllAllowed(l, actions + [Tick]) && Ticks(actions) == FrameLength(cr) - 1
    ensures var before, after := RunLink(l, actions), RunLink(l, actions + [Tick]);
      && after.chip.sr.rdrf
      && (!before.chip.sr.rdrf ==> after.chip.rdr == Deliver(cr, l.chip.tdr))
  {
    hide Act, Allowed, InStep, FormatOf, FrameLength, Deliver, Received, BitsLeft;
    assert (actions + [Tick])[..|actions|] == actions;
    AllowedPrefix(l, actions + [Tick]);
    LengthIsPositive(cr);
    RunSends(l, cr, actions);
    RunIsGood(l, cr, actions);
    TickInFrame(RunLink(l, actions), cr);
  }

  function OnlyTicks(n: nat): (actions: seq<Action>)
    ensures |actions| == n && forall k :: 0 <= k < n ==> actions[k] == Tick
  {
    if n == 0 then [] else OnlyTicks(n - 1) + [Tick]
  }

  lemma {:induction false} TicksOf(n: nat)
    ensures Ticks(OnlyTicks(n)) == n
  {
    if n > 0 {
      TicksOf(n - 1);
      assert OnlyTicks(n)[..n - 1] == OnlyTicks(n - 1);
    }
  }

  lemma EvenParityStep(l: Link, cr: nat)
    requires Good(l, cr) && FormatOf(cr).parity == EvenParity && BitsLeft(l.chip) > 1
    requires l.chip.tx.state == StopBit ==> l.chip.sr.pe
    ensures var l' := Act(l, Tick);
      BitsLeft(l'.chip) <= FormatOf(cr).stopBits ==> l'.chip.sr.pe
  {
    hide Act, InStep, Deliver, Accounted, Received, FormatOf;
    SizeIsPositive(l.chip, Current(l));
    TickInFrame(l, cr);
  }

  lemma StopBitIsLate(l: Link, cr: nat)
    requires Good(l, cr)
    ensures l.chip.tx.state == StopBit ==> BitsLeft(l.chip) <= FormatOf(cr).stopBits
    ensures BitsLeft(l.chip) == 1 ==> l.chip.tx.state == StopBit
  {
    hide InStep, Deliver, Accounted, Received, FormatOf;
    SizeIsPositive(l.chip, Current(l));
  }

  /** With even parity the receiver finds fault with a byte by the time of its stop bits. */
  lemma {:induction false} EvenParityFails(l: Link, cr: nat, n: nat)
    requires Good(l, cr) && l.chip.tx.state == Idle && !l.chip.sr.tdre
    requires FormatOf(cr).parity == EvenParity && 0 < n < FrameLength(cr)
    ensures var l' := RunLink(l, OnlyTicks(n));
      Good(l', cr) && BitsLeft(l'.chip) == FrameLength(cr) - n && (l'.chip.tx.state == StopBit ==> l'.chip.sr.pe)
  {
    hide Act, Good, FormatOf, FrameLength, Allowed, BitsLeft;
    var actions, before := OnlyTicks(n), OnlyTicks(n - 1);
    assert actions[..n - 1] == before;
    TicksOf(n);
    TicksAllowed(l, n);
    RunIsGood(l, cr, actions);
    RunSends(l, cr, actions);
    StopBitIsLate(RunLink(l, actions), cr);
    if n == 1 {
      TickStarts(l, cr);
      assert before == [] && actions[0] == Tick;
    } else {
      EvenParityFails(l, cr, n - 1);
      EvenParityStep(RunLink(l, before), cr);
    }
  }

  lemma TicksAllowed(l: Link, n: nat)
    ensures AllAllowed(l, OnlyTicks(n))
  {
    hide RunLink;
  }

  lemma SizeIsPositive(a: Acia, b: Byte)
    requires InStep(a, b)
    ensures a.tx.state == StopBit ==> 1 <= BitsLeft(a) <= FormatOf(a.cr).stopBits
    ensures a.tx.state == DataBit ==> BitsLeft(a) > ParityBits(a.cr) + FormatOf(a.cr).stopBits
    ensures a.tx.state == ParityBit ==> BitsLeft(a) == 1 + FormatOf(a.cr).stopBits && FormatOf(a.cr).parity != NoParity
    ensures a.tx.state != Idle ==> BitsLeft(a) >= 1
  {
    hide FormatOf, Deliver, Shifted, Gathered;
  }

  /** No run of the link sees a parity error exactly if the format is not an even one: the
      receiver's test for odd parity also catches correct even parity. */
  lemma ParityErrorsIffEven(a: Acia, cr: nat)
    requires Running(cr)
    ensures (forall actions :: AllAllowed(Start(a, cr), actions) ==> !RunLink(Start(a, cr), actions).chip.sr.pe)
            <==> FormatOf(cr).parity != EvenParity
  {
    hide Start, RunLink, InStep, Act, Accounted, Received, FormatOf, Allowed;
    var start := Start(a, cr);
    StartIsGood(a, cr);
    StartIsIdle(a, cr);
    if FormatOf(cr).parity == EvenParity {
      EvenParityWitness(start, cr);
    } else {
      forall actions | AllAllowed(start, actions) ensures !RunLink(start, actions).chip.sr.pe {
        RunIsGood(start, cr, actions);
      }
    }
  }

  lemma StartIsIdle(a: Acia, cr: nat)
    requires Running(cr)
    ensures var c := Start(a, cr).chip; c.tx.state == Idle && c.sr.tdre
  {
    hide UpdateIrq, IrqCause, WordSelect;
  }

  lemma EvenParityWitness(l: Link, cr: nat)
    requires Good(l, cr) && l.chip.tx.state == Idle && l.chip.sr.tdre && FormatOf(cr).parity == EvenParity
    ensures exists actions :: AllAllowed(l, actions) && RunLink(l, actions).chip.sr.pe
  {
    hide InStep, Act, Accounted, Received, FormatOf;
    var first := Act(l, Write(ZERO));
    WriteIsGood(l, cr, ZERO);
    WriteFills(l, ZERO);
    LengthIsPositive(cr);
    var n := FrameLength(cr) - 1;
    EvenParityFails(first, cr, n);
    var m := RunLink(first, OnlyTicks(n));
    SizeIsPositive(m.chip, Current(m));
    var actions := [Write(ZERO)] + OnlyTicks(n);
    RunAppend(l, ZERO, n);
    assert forall k :: 0 < k < |actions| ==> actions[k] == Tick;
    assert AllAllowed(l, actions);
  }

  lemma WriteFills(l: Link, value: Byte)
    ensures var l' := Act(l, Write(value)); l'.chip.tx == l.chip.tx && !l'.chip.sr.tdre && l'.chip.tdr == value
  {
    hide UpdateIrq, IrqCause;
  }

  lemma {:induction false} RunAppend(l: Link, value: Byte, n: nat)
    ensures RunLink(l, [Write(value)] + OnlyTicks(n)) == RunLink(Act(l, Write(value)), OnlyTicks(n))
  {
    hide Act;
    var actions := [Write(value)] + OnlyTicks(n);
    if n == 0 {
      assert actions == [Write(value)] && actions[..0] == [];
    } else {
      assert actions[..n] == [Write(value)] + OnlyTicks(n - 1);
      assert OnlyTicks(n)[..n - 1] == OnlyTicks(n - 1);
      RunAppend(l, value, n - 1);
    }
  }

  // The levels on the line.

  function DataBits(cr: nat, b: Byte): seq<bool> {
    SevenBits(b) + (if EightBits(cr) then [b.b7] else [])
  }

  /** An odd number of bits is set. */
  function Odd(bits: seq<bool>): bool {
    if bits == [] then false else Odd(bits[..|bits| - 1]) != bits[|bits| - 1]
  }

  /** A frame on the line: a low start bit, the data bits from the lowest up, the parity bit that
      makes the number of set bits odd or even, and high stop bits. */
  function Frame(cr: nat, b: Byte): seq<bool> {
    var bits := DataBits(cr, b);
    [false] + bits
    + (if HasParity(cr) then [if OddSelected(cr) then !Odd(bits) else Odd(bits)] else [])
    + (if TwoStopBits(cr) then [true, true] else [true])
  }

  lemma FrameIsLong(cr: nat, b: Byte)
    ensures |Frame(cr, b)| == FrameLength(cr) && |DataBits(cr, b)| == FormatOf(cr).dataBits
  {
    hide FormatOf, EightBits, HasParity, TwoStopBits, OddSelected, Odd, FrameLength;
    FormatInBits(cr);
    LengthInBits(cr);
  }

  lemma LowestOfFirst(b: Byte)
    ensures Shifted(b, 0).b0 == b.b0 && Shifted(b, 1).b0 == b.b1 && Shifted(b, 2).b0 == b.b2 && Shifted(b, 3).b0 == b.b3
  {
    hide Shifted, Gathered;
    NoBits(b);
    BitMoves(b, 0);
    BitMoves(b, 1);
    FirstBits(b);
  }

  lemma LowestOfLater(b: Byte)
    ensures Shifted(b, 4).b0 == b.b4 && Shifted(b, 5).b0 == b.b5 && Shifted(b, 6).b0 == b.b6 && Shifted(b, 7).b0 == b.b7
  {
    hide Shifted, Gathered;
    FirstBits(b);
    BitMoves(b, 3);
    BitMoves(b, 4);
    LaterBits(b);
    BitMoves(b, 6);
  }

  function SevenBits(b: Byte): (bits: seq<bool>)
    ensures |bits| == 7
  {
    [b.b0, b.b1, b.b2, b.b3, b.b4, b.b5, b.b6]
  }

  lemma SevenBitsAre(b: Byte)
    ensures var s := SevenBits(b);
      s[0] == b.b0 && s[1] == b.b1 && s[2] == b.b2 && s[3] == b.b3 && s[4] == b.b4 && s[5] == b.b5 && s[6] == b.b6
  {
  }

  lemma LowestOfSeven(b: Byte, j: nat)
    requires j < 7
    ensures Shifted(b, j).b0 == SevenBits(b)[j]
  {
    hide Shifted, SevenBits;
    SevenBitsAre(b);
    if j < 4 {
      LowestOfFirst(b);
    } else {
      LowestOfLater(b);
    }
  }

  /** The lowest bit of the shift register is the next data bit. */
  lemma NextDataBit(cr: nat, b: Byte, j: nat)
    requires j < |DataBits(cr, b)|
    ensures Shifted(b, j).b0 == DataBits(cr, b)[j]
  {
    hide Shifted, EightBits, SevenBits;
    if j < 7 {
      LowestOfSeven(b, j);
    } else {
      LowestOfLater(b);
    }
  }

  /** The transmitter's parity is that of the data bits sent so far. */
  ghost predicate ParityIsRight(a: Acia, b: Byte) {
    var bits, n := DataBits(a.cr, b), FormatOf(a.cr).dataBits;
    && (a.tx.state == DataBit ==> 1 <= a.tx.size <= n == |bits| && a.tx.parity == Odd(bits[..n - a.tx.size]))
    && (a.tx.state == ParityBit ==> a.tx.parity == Odd(bits))
  }

  lemma DataStepKeepsParity(a: Acia, b: Byte)
    requires InStep(a, b) && a.tx.state == DataBit && ParityIsRight(a, b)
    ensures ParityIsRight(Clock(a), b)
  {
    hide ClockTx, ClockRx, FormatOf, Shifted, Gathered, Deliver, ShiftRight, TxLine, EightBits, DataBits, AfterData;
    ClockDataBit(a, b);
    TxDataBit(a);
    RxHalf(ClockTx(a), TxLine(a));
    RxLeavesTx(ClockTx(a), TxLine(a));
    FrameIsLong(a.cr, b);
    var bits, j := DataBits(a.cr, b), FormatOf(a.cr).dataBits - a.tx.size;
    NextDataBit(a.cr, b, j);
    assert bits[..j + 1][..j] == bits[..j] && bits[..|bits|] == bits;
  }

  lemma RxLeavesTx(a: Acia, bit: bool)
    ensures RxStep(a, bit).tx == a.tx && RxStep(a, bit).cr == a.cr
  {
    hide FormatOf, ShiftRight, WithTopBit, AfterData, Decrement;
  }

  lemma StartKeepsParity(l: Link, cr: nat, b: Byte)
    requires Good(l, cr) && l.chip.tx.state == Idle && !l.chip.sr.tdre
    ensures ParityIsRight(Act(l, Tick).chip, b)
  {
    hide Act, Clock, ClockRx, ClockTx, TxLine, Completes, FormatOf, Deliver, Accounted, Received, DataBits, InStep;
    ActTick(l);
    ClockStartBit(l.chip, Current(l));
    TxHalf(l.chip);
    RxHalf(ClockTx(l.chip), TxLine(l.chip));
    RxLeavesTx(ClockTx(l.chip), TxLine(l.chip));
    StartsEven(l.chip);
    ClockTwice(l.chip);
    FrameIsLong(cr, b);
    assert DataBits(cr, b)[..0] == [] && !Odd([]);
  }

  lemma ClockTwice(a: Acia)
    ensures Clock(a) == ClockRx(ClockTx(a), TxLine(a))
  {
  }

  lemma StartsEven(a: Acia)
    requires a.tx.state == Idle && !a.tx.sendBrk && !a.sr.tdre
    ensures !TxStep(a).tx.parity || TxStep(a).tx.state == Idle
  {
    hide FormatOf;
  }

  /** A bit clock keeps the parity right; between frames there is nothing to keep. */
  lemma TickKeepsParity(l: Link, cr: nat)
    requires Good(l, cr) && ParityIsRight(l.chip, Current(l)) && l.chip.tx.state != Idle
    ensures ParityIsRight(Act(l, Tick).chip, Current(l))
  {
    hide Clock, ClockRx, ClockTx, TxLine, Completes, FormatOf, Deliver, Accounted, Received, DataBits, InStep;
    ActTick(l);
    match l.chip.tx.state
    case DataBit => DataStepKeepsParity(l.chip, Current(l));
    case ParityBit => ClockParityBit(l.chip, Current(l));
    case StopBit => ClockStopBit(l.chip, Current(l));
  }

  lemma OthersKeepParity(a: Acia, a': Acia, b: Byte)
    requires ParityIsRight(a, b) && a'.tx == a.tx && a'.cr == a.cr
    ensures ParityIsRight(a', b)
  {
    hide FormatOf, DataBits;
  }

  /** The byte on the line during the frame. */
  lemma CurrentIsSent(l: Link, l': Link, cr: nat, t: nat)
    requires Good(l, cr) && l.chip.tx.state == Idle && !l.chip.sr.tdre && Sending(l, l', cr, t) && t < FrameLength(cr)
    ensures Current(l') == l.chip.tdr == Current(l)
  {
    hide InStep, Received, Deliver, FormatOf, FrameLength, BitsLeft;
  }

  lemma {:induction false} RunKeepsParity(l: Link, cr: nat, actions: seq<Action>)
    requires Good(l, cr) && l.chip.tx.state == Idle && !l.chip.sr.tdre
    requires AllAllowed(l, actions) && Ticks(actions) < FrameLength(cr)
    ensures ParityIsRight(RunLink(l, actions).chip, l.chip.tdr)
  {
    hide Act, Allowed, Good, FormatOf, FrameLength, DataBits, BitsLeft;
    if actions != [] {
      var n := |actions| - 1;
      var before := actions[..n];
      AllowedPrefix(l, actions);
      RunKeepsParity(l, cr, before);
      RunIsGood(l, cr, before);
      RunSends(l, cr, before);
      CurrentIsSent(l, RunLink(l, before), cr, Ticks(before));
      if !actions[n].Tick? {
        NoTick(RunLink(l, before), actions[n]);
        OthersKeepParity(RunLink(l, before).chip, RunLink(l, actions).chip, l.chip.tdr);
      } else if Ticks(before) == 0 {
        StartKeepsParity(RunLink(l, before), cr, l.chip.tdr);
      } else {
        TickKeepsParity(RunLink(l, before), cr);
      }
    }
  }

  /** The level of the next bit in each state of the line. */
  lemma LevelIsFrame(l: Link, cr: nat, t: nat)
    requires Good(l, cr) && l.chip.tx.state != Idle && ParityIsRight(l.chip, Current(l))
    requires 0 < t < FrameLength(cr) && BitsLeft(l.chip) == FrameLength(cr) - t
    ensures t < |Frame(cr, Current(l))| && TxLine(l.chip) == Frame(cr, Current(l))[t]
  {
    hide Accounted, Received, Deliver, FormatOf, Odd, DataBits, EightBits, HasParity, OddSelected, TwoStopBits,
         Shifted, Gathered;
    var b := Current(l);
    FrameIsLong(cr, b);
    FormatInBits(cr);
    SizeIsPositive(l.chip, b);
    if l.chip.tx.state == DataBit {
      NextDataBit(cr, b, FormatOf(cr).dataBits - l.chip.tx.size);
    }
  }

  /** During the frame of a byte the line has the levels of that frame, bit clock by bit clock,
      whatever else the program does. */
  lemma LineCarriesFrame(l: Link, cr: nat, actions: seq<Action>)
    requires Good(l, cr) && l.chip.tx.state == Idle && !l.chip.sr.tdre
    requires AllAllowed(l, actions) && Ticks(actions) < FrameLength(cr)
    ensures |Frame(cr, l.chip.tdr)| == FrameLength(cr)
    ensures TxLine(RunLink(l, actions).chip) == Frame(cr, l.chip.tdr)[Ticks(actions)]
  {
    hide Act, Allowed, RunLink, FormatOf, DataBits, BitsLeft, FrameLength, Deliver, Received, Frame, TxLine,
         ParityIsRight;
    var l', t := RunLink(l, actions), Ticks(actions);
    FrameIsLong(cr, l.chip.tdr);
    RunIsGood(l, cr, actions);
    RunSends(l, cr, actions);
    RunKeepsParity(l, cr, actions);
    CurrentIsSent(l, l', cr, t);
    if t > 0 {
      LevelIsFrame(l', cr, t);
    } else {
      LevelAtStart(l', cr, l.chip.tdr);
    }
  }

  lemma LevelAtStart(l: Link, cr: nat, b: Byte)
    requires Good(l, cr) && l.chip.tx.state == Idle && !l.chip.sr.tdre
    ensures Frame(cr, b) != [] && TxLine(l.chip) == Frame(cr, b)[0]
  {
    hide FormatOf, InStep, Accounted, Received, Deliver, Odd;
  }
}
