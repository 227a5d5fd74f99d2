/** The blitter as a machine that makes one bus access at a time.

    `MicroStep` is the unit in which the chip gives the bus away: one read or one write,
    with the register updates that go with it.  Both bus-sharing modes are runs of it. */
module BlitterCore {
  import opened BlitterOps

  const ADDRESS_SPACE: nat := 0x1_0000_0000

  function Wrap(a: int): (r: nat)
    ensures r < ADDRESS_SPACE
  {
    a % ADDRESS_SPACE
  }

  /** Subtracts one from a 32-bit counter. */
  function Decrement(n: nat): nat {
    if n == 0 then ADDRESS_SPACE - 1 else n - 1
  }

  /** Word-addressed memory.  An address outside the map is a bus error region, where DMA
      reads give 0 and DMA writes are dropped. */
  type Memory = map<nat, Word>

  function ReadWord(m: Memory, a: nat): Word {
    if a in m then m[a] else ZERO
  }

  function WriteWord(m: Memory, a: nat, v: Word): Memory {
    if a in m then m[a := v] else m
  }

  datatype Access = BusRead(addr: nat, value: Word) | BusWrite(addr: nat, value: Word)

  /** The registers that a running blit does not change. */
  datatype Config = Config(
    srcXIncr: int, srcYIncr: int, dstXIncr: int, dstYIncr: int,
    endMask1: Word, endMask2: Word, endMask3: Word,
    hop: nat, lop: nat, smudge: bool, fxsr: bool, nfsr: bool, skew: nat,
    xCountReset: nat, halftone: seq<Word>)
  {
    predicate Valid() {
      && hop < 4 && lop < 16 && skew < 16 && |halftone| == 16
      && xCountReset < ADDRESS_SPACE
    }

    predicate Backwards() {
      srcXIncr < 0
    }

    predicate NeedSrc() {
      NeedsSrc(lop, hop, smudge)
    }

    predicate NeedDst(mask: Word) {
      LopNeedsDst(lop) || !IsFull(mask)
    }

    /** The end mask of the word at which the X counter reads `xCount` (order matters). */
    function Mask(xCount: nat): Word {
      if xCount == xCountReset || xCountReset == 1 then endMask1
      else if xCount == 1 then endMask3
      else endMask2
    }

    /** The one-word shift that NFSR makes around the last write of a line. */
    predicate ExtraShift(xCount: nat) {
      nfsr && xCount == 1
    }
  }

  /** The registers and latches that a running blit changes, the memory, and the history of
      bus accesses. */
  datatype Core = Core(
    srcAddr: nat, dstAddr: nat, xCount: nat, yCount: nat,
    buffer: Long, halftoneLine: nat,
    fxsr: bool, nfsr: bool, haveFxsr: bool, needSrc: bool, haveSrc: bool, fetchSrc: bool,
    needDst: bool, haveDst: bool,
    dstWord: Word, busWord: Word, endMask: Word,
    mem: Memory, bus: seq<Access>)
  {
    predicate Valid() {
      && srcAddr < ADDRESS_SPACE && dstAddr < ADDRESS_SPACE
      && xCount < ADDRESS_SPACE && yCount < ADDRESS_SPACE
      && halftoneLine < 16
    }

    /** How many words the current line still has: a zero counter wraps around. */
    function LineLeft(): nat {
      if xCount == 0 then ADDRESS_SPACE else xCount
    }
  }

  /** What the engine decides about a word before its first access; repeating it when a
      suspended word is resumed changes nothing. */
  function Prepare(c: Config, s: Core): (s': Core)
    ensures s.Valid() ==> s'.Valid()
  {
    var s1 := s.(endMask := c.Mask(s.xCount));
    var s2 := if s.xCount == c.xCountReset then s1.(nfsr := false, fxsr := c.fxsr) else s1;
    s2.(needSrc := c.NeedSrc(), needDst := c.NeedDst(s2.endMask))
  }

  predicate FxsrPending(s: Core) { s.fxsr && !s.haveFxsr && s.needSrc }
  predicate SrcPending(s: Core) { s.needSrc && !s.haveSrc && !s.nfsr }
  predicate DstPending(s: Core) { s.needDst && !s.haveDst }

  function FetchSource(c: Config, s: Core): (s': Core)
    requires s.Valid()
    ensures s'.Valid()
  {
    var w := ReadWord(s.mem, s.srcAddr);
    s.(buffer := InsertWord(c.Backwards(), ShiftBuffer(c.Backwards(), s.buffer), w),
       busWord := w,
       bus := s.bus + [BusRead(s.srcAddr, w)])
  }

  /** Shifts the word last seen on the bus into the source buffer. */
  function ShiftInBusWord(c: Config, s: Core): (s': Core)
    requires s.Valid()
    ensures s'.Valid() && s'.bus == s.bus
  {
    s.(buffer := InsertWord(c.Backwards(), ShiftBuffer(c.Backwards(), s.buffer), s.busWord))
  }

  function FxsrRead(c: Config, s: Core): (s': Core)
    requires s.Valid()
    ensures s'.Valid()
  {
    FetchSource(c, s).(srcAddr := Wrap(s.srcAddr + c.srcXIncr), haveFxsr := true)
  }

  function SrcRead(c: Config, s: Core): (s': Core)
    requires s.Valid()
    ensures s'.Valid()
  {
    FetchSource(c, s).(haveSrc := true, fetchSrc := true)
  }

  function DstRead(s: Core): (s': Core)
    requires s.Valid()
    ensures s'.Valid()
  {
    var w := ReadWord(s.mem, s.dstAddr);
    s.(dstWord := w, haveDst := true, busWord := w, bus := s.bus + [BusRead(s.dstAddr, w)])
  }

  function HopWord(c: Config, s: Core): Word
    requires c.Valid() && s.Valid()
  {
    Hop(c.hop, c.smudge, c.halftone, s.halftoneLine, SourceRead(s.buffer, c.skew))
  }

  /** The word that the engine writes from its present latches. */
  function OutputWord(c: Config, s: Core): Word
    requires c.Valid() && s.Valid()
  {
    var lop := Lop(c.lop, HopWord(c, s), s.dstWord);
    if !IsFull(s.endMask) then Merged(lop, s.dstWord, s.endMask) else lop
  }

  /** The destination write, with the extra shifts that NFSR makes before and after it. */
  function DstWrite(c: Config, s: Core): (s': Core)
    requires c.Valid() && s.Valid()
    ensures s'.Valid()
  {
    var s1 := if c.ExtraShift(s.xCount) then ShiftInBusWord(c, s) else s;
    var w := OutputWord(c, s1);
    var s2 := s1.(busWord := w, mem := WriteWord(s1.mem, s1.dstAddr, w), bus := s1.bus + [BusWrite(s1.dstAddr, w)]);
    if c.ExtraShift(s.xCount) then ShiftInBusWord(c, s2) else s2
  }

  /** The source address after a word: a line ends with the last word that is fetched. */
  function AdvanceSource(c: Config, s: Core): (s': Core)
    requires s.Valid()
    ensures s'.Valid()
    ensures s'.bus == s.bus && s'.mem == s.mem && s'.buffer == s.buffer && s'.busWord == s.busWord
  {
    var nfsr := s.nfsr || (s.xCount == 2 && c.nfsr);
    var srcAddr :=
      if !s.fetchSrc then s.srcAddr
      else if s.xCount == 1 || nfsr then Wrap(s.srcAddr + c.srcYIncr)
      else Wrap(s.srcAddr + c.srcXIncr);
    s.(nfsr := nfsr, srcAddr := srcAddr)
  }

  /** The halftone pattern is walked in the direction of the destination. */
  function NextLine(dstYIncr: int, line: nat): (r: nat)
    ensures r < 16
  {
    if dstYIncr >= 0 then (line + 1) % 16 else (line - 1) % 16
  }

  /** Counters, destination address and halftone line after a word. */
  function AdvanceDest(c: Config, s: Core): (s': Core)
    requires c.Valid() && s.Valid()
    ensures s'.Valid()
    ensures s'.bus == s.bus && s'.mem == s.mem && s'.buffer == s.buffer && s'.busWord == s.busWord
  {
    if s.xCount == 1 then
      s.(haveFxsr := false,
         yCount := Decrement(s.yCount),
         xCount := c.xCountReset,
         dstAddr := Wrap(s.dstAddr + c.dstYIncr),
         halftoneLine := NextLine(c.dstYIncr, s.halftoneLine))
    else
      s.(xCount := Decrement(s.xCount), dstAddr := Wrap(s.dstAddr + c.dstXIncr))
  }

  /** Counters, addresses and flags after a word was written. */
  function NextWord(c: Config, s: Core): (s': Core)
    requires c.Valid() && s.Valid()
    ensures s'.Valid()
  {
    AdvanceDest(c, AdvanceSource(c, s)).(haveSrc := false, fetchSrc := false, haveDst := false)
  }

  /** Is the next access, after `Prepare`, the write that completes the word? */
  predicate WriteIsNext(s: Core) {
    !FxsrPending(s) && !SrcPending(s) && !DstPending(s)
  }

  /** The next access of a word that has been prepared. */
  function NextAccess(c: Config, s: Core): (s': Core)
    requires c.Valid() && s.Valid()
    ensures s'.Valid()
  {
    if FxsrPending(s) then FxsrRead(c, s)
    else if SrcPending(s) then SrcRead(c, s)
    else if DstPending(s) then DstRead(s)
    else NextWord(c, DstWrite(c, s))
  }

  function MicroStep(c: Config, s: Core): (s': Core)
    requires c.Valid() && s.Valid()
    ensures s'.Valid()
  {
    NextAccess(c, Prepare(c, s))
  }

  /** The reads that a prepared word still needs before its write. */
  function PendingReads(p: Core): nat {
    (if FxsrPending(p) then 1 else 0) + (if SrcPending(p) then 1 else 0) + (if DstPending(p) then 1 else 0)
  }

  function ReadsLeft(c: Config, s: Core): nat {
    PendingReads(Prepare(c, s))
  }

  /** Preparing a word sets only its mask and its needs. */
  lemma PrepareFrame(c: Config, s: Core)
    ensures var p := Prepare(c, s);
      p == s.(endMask := p.endMask, nfsr := p.nfsr, fxsr := p.fxsr, needSrc := p.needSrc, needDst := p.needDst)
  {
    hide LopNeedsDst, NeedsSrc, IsFull;
  }

  /** Preparing a word again after one of its reads changes nothing. */
  lemma PrepareAgain(c: Config, s: Core, t: Core)
    requires var p := Prepare(c, s);
      t == p.(srcAddr := t.srcAddr, buffer := t.buffer, haveFxsr := t.haveFxsr, haveSrc := t.haveSrc,
              fetchSrc := t.fetchSrc, haveDst := t.haveDst, dstWord := t.dstWord, busWord := t.busWord, bus := t.bus)
    ensures Prepare(c, t) == t
  {
    hide LopNeedsDst, NeedsSrc, IsFull;
    assert t.endMask == c.Mask(t.xCount);
    assert t.needSrc == c.NeedSrc() && t.needDst == c.NeedDst(t.endMask);
    assert t.xCount == c.xCountReset ==> !t.nfsr && t.fxsr == c.fxsr;
  }

  /** A read changes addresses and latches, and is not pending any more. */
  lemma ReadFrame(c: Config, p: Core)
    requires c.Valid() && p.Valid() && !WriteIsNext(p)
    ensures var t := NextAccess(c, p);
      && t == p.(srcAddr := t.srcAddr, buffer := t.buffer, haveFxsr := t.haveFxsr, haveSrc := t.haveSrc,
                 fetchSrc := t.fetchSrc, haveDst := t.haveDst, dstWord := t.dstWord, busWord := t.busWord, bus := t.bus)
      && PendingReads(t) < PendingReads(p)
  {
    hide InsertWord, ShiftBuffer, ReadWord, Wrap;
  }

  lemma ReadProgress(c: Config, s: Core)
    requires c.Valid() && s.Valid() && !WriteIsNext(Prepare(c, s))
    ensures var s' := MicroStep(c, s);
      && Prepare(c, s') == s'
      && s'.yCount == s.yCount && s'.xCount == s.xCount && ReadsLeft(c, s') < ReadsLeft(c, s)
  {
    hide Prepare, NextAccess, PendingReads;
    PrepareFrame(c, s);
    ReadFrame(c, Prepare(c, s));
    PrepareAgain(c, s, MicroStep(c, s));
  }

  /** The write leaves counters, addresses and flags alone. */
  lemma DstWriteFrame(c: Config, s: Core)
    requires c.Valid() && s.Valid()
    ensures var t := DstWrite(c, s);
      t == s.(buffer := t.buffer, busWord := t.busWord, mem := t.mem, bus := t.bus)
  {
    hide OutputWord, InsertWord, ShiftBuffer, WriteWord;
    if c.ExtraShift(s.xCount) {
      var s1 := ShiftInBusWord(c, s);
      assert s1 == s.(buffer := s1.buffer);
    }
  }

  lemma NextWordCounters(c: Config, s: Core)
    requires c.Valid() && s.Valid()
    ensures var t := NextWord(c, s);
      if s.xCount == 1 then t.yCount == Decrement(s.yCount) && t.xCount == c.xCountReset
      else t.yCount == s.yCount && t.xCount == Decrement(s.xCount)
  {
    hide Wrap;
  }

  lemma WriteProgress(c: Config, s: Core)
    requires c.Valid() && s.Valid() && s.yCount > 0 && WriteIsNext(Prepare(c, s))
    ensures var s' := MicroStep(c, s);
      s'.yCount < s.yCount || (s'.yCount == s.yCount && s'.LineLeft() < s.LineLeft())
  {
    hide Prepare, DstWrite, NextWord;
    var p := Prepare(c, s);
    PrepareFrame(c, s);
    DstWriteFrame(c, p);
    NextWordCounters(c, DstWrite(c, p));
  }

  /** Every access brings the end of the blit nearer. */
  lemma Progress(c: Config, s: Core)
    requires c.Valid() && s.Valid() && s.yCount > 0
    ensures var s' := MicroStep(c, s);
      if WriteIsNext(Prepare(c, s)) then
        s'.yCount < s.yCount || (s'.yCount == s.yCount && s'.LineLeft() < s.LineLeft())
      else
        s'.yCount == s.yCount && s'.xCount == s.xCount && ReadsLeft(c, s') < ReadsLeft(c, s)
  {
    if WriteIsNext(Prepare(c, s)) { WriteProgress(c, s); } else { ReadProgress(c, s); }
  }

  /** A pass of the engine: in hog mode until the blit is complete, otherwise until the
      blit is complete or `left` accesses have been made. */
  function RunPass(c: Config, s: Core, hog: bool, left: nat): (s': Core)
    requires c.Valid() && s.Valid() && s.yCount > 0
    requires hog || left > 0
    ensures s'.Valid()
    decreases s.yCount, s.LineLeft(), ReadsLeft(c, s)
  {
    Progress(c, s);
    var s1 := MicroStep(c, s);
    if s1.yCount == 0 || (!hog && left == 1) then s1
    else RunPass(c, s1, hog, if hog then left else left - 1)
  }

  datatype WordResult = WordResult(core: Core, suspended: bool)

  /** The part of a pass that belongs to the current word: it ends when the word has been
      written, or is suspended after a read that used up the last access. */
  function RunWord(c: Config, s: Core, hog: bool, left: nat): (r: WordResult)
    requires c.Valid() && s.Valid() && s.yCount > 0
    requires hog || left > 0
    decreases ReadsLeft(c, s)
  {
    Progress(c, s);
    var s1 := MicroStep(c, s);
    if WriteIsNext(Prepare(c, s)) then WordResult(s1, false)
    else if !hog && left == 1 then WordResult(s1, true)
    else RunWord(c, s1, hog, if hog then left else left - 1)
  }
}
