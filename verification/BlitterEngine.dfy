/** The blitter as the emulator runs it: global registers updated in place, a word routine
    that can return after any read, and a do-while loop over words.  `Start` is proved to be
    a pass of the one-access-at-a-time machine of `BlitterCore`. */
module BlitterEngine {
  import opened BlitterOps
  import opened BlitterCore
  import opened BlitterSharing
  import opened BlitterWord
  import opened BlitterSpec

  const NONHOG_BUS_BLITTER: nat := 64

  datatype Phase = Stop | PreStart | RunTransfer | CountCpuBus | Pause

  /** A value written to the control register; bit 4 does not exist. */
  function WithoutBit4(value: nat): (r: nat)
    requires value < 256
    ensures r < 256 && r % 16 == value % 16 && r / 16 % 2 == 0 && r / 32 == value / 32
  {
    if (value / 16) % 2 == 1 then value - 16 else value
  }

  lemma CtrlDigits(value: nat, c: nat)
    requires value < 256 && c < 256 && c % 16 == value % 16 && c / 16 % 2 == 0 && c / 32 == value / 32
    ensures c % 64 < 64 && c % 64 % 16 == value % 16 && c % 64 / 16 % 2 == 0 && c % 64 / 32 == value / 32 % 2
    ensures c / 64 == value / 64 && c / 32 % 2 == value / 32 % 2 && c % 64 / 64 == 0
  {
    Halves(c);
    Halves(value);
    Nibble(c / 64, c % 64);
    Quarters(c / 64, c % 64);
  }

  lemma Halves(x: nat)
    ensures x / 64 == x / 32 / 2 && x % 64 / 32 == x / 32 % 2
  {
  }

  lemma Nibble(h: nat, m: nat)
    requires m < 64
    ensures (64 * h + m) % 16 == m % 16 && (64 * h + m) / 16 == 4 * h + m / 16
  {
    BySixteen(64 * h + m, 4 * h + m / 16, m % 16);
  }

  lemma BySixteen(x: nat, q: nat, r: nat)
    requires x == 16 * q + r && r < 16
    ensures x / 16 == q && x % 16 == r
  {
  }

  lemma ByTwo(x: nat, q: nat, r: nat)
    requires x == 2 * q + r && r < 2
    ensures x / 2 == q && x % 2 == r
  {
  }

  lemma Quarters(h: nat, m: nat)
    requires m < 64
    ensures (64 * h + m) / 16 % 2 == m / 16 % 2
  {
    Nibble(h, m);
    ByTwo(4 * h + m / 16, 2 * h + m / 16 / 2, m / 16 % 2);
  }

  /** The control register after a write: bit 4 is zero, and a blit that is already complete
      clears the busy bit 7 and the hog bit 6. */
  function CtrlAfterWrite(value: nat, complete: bool): (r: nat)
    requires value < 256
    ensures r < 256 && r % 16 == value % 16 && r / 16 % 2 == 0 && r / 32 % 2 == value / 32 % 2
    ensures r / 64 == if complete then 0 else value / 64
  {
    var c := WithoutBit4(value);
    CtrlDigits(value, c);
    if complete then c % 64 else c
  }

  /** The control register after a pass: the low four bits show the halftone line, and a
      complete blit clears the busy bit 7 and the hog bit 6. */
  function CtrlAfterPass(ctrl: nat, line: nat, complete: bool): (r: nat)
    requires ctrl < 256 && line < 16
    ensures r < 256 && r % 16 == line && r / 16 == if complete then ctrl / 16 % 4 else ctrl / 16
  {
    (if complete then ctrl / 16 % 4 else ctrl / 16) * 16 + line
  }

  /** The global structures of the emulator.  `cfg` holds the registers that a running blit
      leaves alone and `st` those that it changes, with its latches, memory and bus history. */
  class Blitter {
    var cfg: Config
    var st: Core
    var hog: bool
    var ctrl: nat  // bit 7 busy, bit 6 hog, bit 5 smudge, bits 3-0 halftone line
    var countBusBlitter: nat
    var continueLater: bool
    var busCountError: bool
    var phase: Phase
    var gpuDoneLine: bool

    ghost predicate Valid()
      reads this
    {
      cfg.Valid() && st.Valid() && countBusBlitter < 0x1_0000 && ctrl < 256
    }

    /** How many accesses this pass may still make; hog mode does not look. */
    ghost function Left(): nat
      reads this
    {
      if hog || countBusBlitter > NONHOG_BUS_BLITTER then 0 else NONHOG_BUS_BLITTER - countBusBlitter
    }

    predicate ContinueNonHog()
      reads this
    {
      countBusBlitter < NONHOG_BUS_BLITTER
    }

    method BusReadWord(addr: nat) returns (value: Word)
      requires Valid()
      modifies `st, `countBusBlitter
      ensures value == ReadWord(old(st.mem), addr) == if addr in old(st.mem) then old(st.mem)[addr] else Word(0)
      ensures st == old(st).(busWord := value, bus := old(st.bus) + [BusRead(addr, value)])
      ensures countBusBlitter == (old(countBusBlitter) + 1) % 0x1_0000
    {
      value := ReadWord(st.mem, addr);
      countBusBlitter := (countBusBlitter + 1) % 0x1_0000;
      st := st.(busWord := value, bus := st.bus + [BusRead(addr, value)]);
    }

    method BusWriteWord(addr: nat, value: Word)
      requires Valid()
      modifies `st, `countBusBlitter
      ensures st == old(st).(busWord := value, mem := WriteWord(old(st.mem), addr, value),
                             bus := old(st.bus) + [BusWrite(addr, value)])
      ensures st.mem == if addr in old(st.mem) then old(st.mem)[addr := value] else old(st.mem)
      ensures countBusBlitter == (old(countBusBlitter) + 1) % 0x1_0000
    {
      st := st.(busWord := value);
      st := st.(mem := WriteWord(st.mem, addr, value), bus := st.bus + [BusWrite(addr, value)]);
      countBusBlitter := (countBusBlitter + 1) % 0x1_0000;
    }

    method SourceShift()
      modifies `st
      ensures st == old(st).(buffer := ShiftBuffer(cfg.srcXIncr < 0, old(st.buffer)))
    {
      st := st.(buffer := ShiftBuffer(cfg.srcXIncr < 0, st.buffer));
    }

    method SourceFetch(nfsrOn: bool)
      requires Valid()
      modifies `st, `countBusBlitter
      ensures nfsrOn ==>
        && st == old(st).(buffer := InsertWord(cfg.srcXIncr < 0, old(st.buffer), old(st.busWord)))
        && countBusBlitter == old(countBusBlitter)
      ensures !nfsrOn ==>
        var w := ReadWord(old(st.mem), old(st.srcAddr));
        && st == old(st).(buffer := InsertWord(cfg.srcXIncr < 0, old(st.buffer), w), busWord := w,
                          bus := old(st.bus) + [BusRead(old(st.srcAddr), w)])
        && countBusBlitter == (old(countBusBlitter) + 1) % 0x1_0000
    {
      var srcWord;
      if !nfsrOn {
        srcWord := BusReadWord(st.srcAddr);
      } else {
        srcWord := st.busWord;
      }
      st := st.(buffer := InsertWord(cfg.srcXIncr < 0, st.buffer, srcWord));
    }

    /** Reads the next source word into the shift register. */
    method ReadSource()
      requires Valid()
      modifies `st, `countBusBlitter
      ensures st == FetchSource(cfg, old(st)) && |st.bus| == |old(st.bus)| + 1
      ensures countBusBlitter == (old(countBusBlitter) + 1) % 0x1_0000
    {
      hide InsertWord, ShiftBuffer, ReadWord;
      SourceShift();
      SourceFetch(false);
    }

    /** The extra read at the start of a line. */
    method FxsrPhase()
      requires Valid() && (hog || ContinueNonHog()) && !continueLater
      modifies `st, `countBusBlitter, `continueLater
      ensures PhaseEnds(old(st), old(Left()), old(countBusBlitter))
      ensures !continueLater ==> !FxsrPending(st)
    {
      hide Process, InsertWord, ShiftBuffer, ReadWord, Wrap;
      if st.fxsr && !st.haveFxsr && st.needSrc {
        ProcessFxsr(cfg, st, hog, Left());
        ReadSource();
        st := st.(srcAddr := Wrap(st.srcAddr + cfg.srcXIncr));
        st := st.(haveFxsr := true);
        if !hog && !ContinueNonHog() {
          continueLater := true;
        }
      }
    }

    /** The source read of the word. */
    method SrcPhase()
      requires Valid() && (hog || ContinueNonHog()) && !continueLater && !FxsrPending(st)
      modifies `st, `countBusBlitter, `continueLater
      ensures PhaseEnds(old(st), old(Left()), old(countBusBlitter))
      ensures !continueLater ==> !FxsrPending(st) && !SrcPending(st)
    {
      hide Process, InsertWord, ShiftBuffer, ReadWord, Wrap;
      if st.needSrc && !st.haveSrc {
        if !st.nfsr {
          ProcessSrc(cfg, st, hog, Left());
          ReadSource();
          st := st.(haveSrc := true);
          st := st.(fetchSrc := true);
          if !hog && !ContinueNonHog() {
            continueLater := true;
          }
        }
      }
    }

    /** The destination read of the word. */
    method DstPhase()
      requires Valid() && (hog || ContinueNonHog()) && !continueLater
      requires !FxsrPending(st) && !SrcPending(st)
      modifies `st, `countBusBlitter, `continueLater
      ensures PhaseEnds(old(st), old(Left()), old(countBusBlitter))
      ensures !continueLater ==> WriteIsNext(st)
    {
      hide Process, ReadWord;
      if st.needDst && !st.haveDst {
        ProcessDst(cfg, st, hog, Left());
        var w := BusReadWord(st.dstAddr);
        st := st.(dstWord := w);
        st := st.(haveDst := true);
        if !hog && !ContinueNonHog() {
          continueLater := true;
        }
      }
    }

    /** What a phase of the word routine that started in `s` leaves to be done. */
    ghost predicate PhaseEnds(s: Core, left: nat, count: nat)
      requires cfg.Valid() && s.Valid() && (hog || left > 0)
      reads this
    {
      && Valid()
      && (!hog ==> countBusBlitter == count + |st.bus| - |s.bus|)
      && (continueLater || hog || ContinueNonHog())
      && Process(cfg, s, hog, left) ==
         if continueLater then WordResult(st, true) else Process(cfg, st, hog, Left())
    }

    method ShiftInLastBusWord()
      requires Valid()
      modifies `st, `countBusBlitter
      ensures st == ShiftInBusWord(cfg, old(st)) && countBusBlitter == old(countBusBlitter)
    {
      hide InsertWord, ShiftBuffer;
      SourceShift();
      SourceFetch(true);
    }

    method ComputeDstData() returns (dstData: Word)
      requires Valid()
      ensures dstData == OutputWord(cfg, st)
    {
      hide Merged, Lop, Hop, SourceRead;
      var hopWord := Hop(cfg.hop, cfg.smudge, cfg.halftone, st.halftoneLine, SourceRead(st.buffer, cfg.skew));
      dstData := Lop(cfg.lop, hopWord, st.dstWord);
      if !IsFull(st.endMask) {
        dstData := Merged(dstData, st.dstWord, st.endMask);
      }
    }

    method WriteDst()
      requires Valid()
      modifies `st, `countBusBlitter
      ensures Valid() && st == DstWrite(cfg, old(st))
      ensures |st.bus| == |old(st.bus)| + 1
      ensures countBusBlitter == (old(countBusBlitter) + 1) % 0x1_0000
    {
      hide OutputWord, InsertWord, ShiftBuffer, WriteWord;
      if cfg.nfsr && st.xCount == 1 {
        ShiftInLastBusWord();
      }
      var dstData := ComputeDstData();
      BusWriteWord(st.dstAddr, dstData);
      if cfg.nfsr && st.xCount == 1 {
        ShiftInLastBusWord();
      }
    }

    /** Reads that are needed, then the write; returns early when a read uses up the pass. */
    method ProcessWord()
      requires Valid() && (hog || ContinueNonHog()) && !continueLater
      modifies `st, `countBusBlitter, `continueLater
      ensures Valid()
      ensures WordResult(st, continueLater) == Process(cfg, old(st), hog, old(Left()))
      ensures !hog ==> countBusBlitter == old(countBusBlitter) + |st.bus| - |old(st.bus)|
    {
      hide Process, DstWrite;
      FxsrPhase();
      if continueLater {
        return;
      }
      SrcPhase();
      if continueLater {
        return;
      }
      DstPhase();
      if continueLater {
        return;
      }
      ProcessWrite(cfg, st, hog, Left());
      WriteDst();
    }

    method SelectMask()
      modifies `st
      ensures st == old(st).(endMask := cfg.Mask(old(st.xCount)))
    {
      var firstWord := st.xCount == cfg.xCountReset;
      if firstWord || cfg.xCountReset == 1 {
        st := st.(endMask := cfg.endMask1);
      } else if st.xCount == 1 {
        st := st.(endMask := cfg.endMask3);
      } else {
        st := st.(endMask := cfg.endMask2);
      }
    }

    method SelectReads()
      modifies `st
      ensures st == old(st).(needSrc := cfg.NeedSrc(), needDst := cfg.NeedDst(old(st.endMask)))
    {
      var needSrc := LopNeedsSrc(cfg.lop);
      needSrc := needSrc && (cfg.hop >= 2 || (cfg.hop == 1 && cfg.smudge));
      var needDst := LopNeedsDst(cfg.lop) || !IsFull(st.endMask);
      st := st.(needSrc := needSrc, needDst := needDst);
    }

    /** The end mask and the needs of the word about to be processed. */
    method PrepareWord()
      modifies `st
      ensures st == Prepare(cfg, old(st))
    {
      hide LopNeedsSrc, LopNeedsDst, IsFull;
      SelectMask();
      if st.xCount == cfg.xCountReset {
        st := st.(nfsr := false);
        st := st.(fxsr := cfg.fxsr);
      }
      SelectReads();
    }

    method UpdateSource()
      modifies `st
      requires st.Valid()
      ensures st == AdvanceSource(cfg, old(st))
    {
      if st.xCount == 2 && cfg.nfsr {
        st := st.(nfsr := true);
      }
      if st.fetchSrc {
        if st.xCount == 1 || st.nfsr {
          st := st.(srcAddr := Wrap(st.srcAddr + cfg.srcYIncr));
        } else {
          st := st.(srcAddr := Wrap(st.srcAddr + cfg.srcXIncr));
        }
      }
    }

    method UpdateCounters()
      requires Valid()
      modifies `st
      ensures st == AdvanceDest(cfg, old(st))
    {
      hide Wrap, Decrement, NextLine;
      if st.xCount == 1 {
        st := st.(haveFxsr := false);
        st := st.(yCount := Decrement(st.yCount));
        st := st.(xCount := cfg.xCountReset);
        st := st.(dstAddr := Wrap(st.dstAddr + cfg.dstYIncr));
        st := st.(halftoneLine := NextLine(cfg.dstYIncr, st.halftoneLine));
      } else {
        st := st.(xCount := Decrement(st.xCount));
        st := st.(dstAddr := Wrap(st.dstAddr + cfg.dstXIncr));
      }
    }

    /** Forgets the words read so far, and with `flushFxsr` also the extra one. */
    method FlushWordState(flushFxsr: bool)
      modifies `st
      ensures st == old(st).(haveFxsr := old(st.haveFxsr) && !flushFxsr,
                             haveSrc := false, fetchSrc := false, haveDst := false)
    {
      if flushFxsr {
        st := st.(haveFxsr := false);
      }
      st := st.(haveSrc := false);
      st := st.(fetchSrc := false);
      st := st.(haveDst := false);
    }

    /** One word of the blit, or the part of it that this pass still has accesses for. */
    method Step()
      requires Valid() && st.yCount > 0 && (hog || ContinueNonHog())
      modifies `st, `countBusBlitter, `continueLater
      ensures Valid()
      ensures WordResult(st, continueLater) == RunWord(cfg, old(st), hog, old(Left()))
      ensures !hog ==> countBusBlitter == old(countBusBlitter) + |st.bus| - |old(st.bus)|
    {
      hide Process, RunWord, Prepare, AdvanceSource, AdvanceDest;
      ProcessIsRunWord(cfg, st, hog, Left());
      PrepareFrame(cfg, st);
      if continueLater {
        continueLater := false;
      }
      PrepareWord();
      ProcessWord();
      if continueLater {
        return;
      }
      NextWordKeepsBus(cfg, st);
      UpdateSource();
      UpdateCounters();
      FlushWordState(false);
    }

    ghost function PassQuota(): nat
      reads this
    {
      if hog then 0 else if busCountError then 63 else 64
    }

    /** Starts or resumes the blit: one pass with the bus.  Outside hog mode it makes 64
        accesses, or 63 when an access of the CPU was counted for the blitter. */
    method Start()
      requires Valid() && st.yCount > 0
      modifies `st, `countBusBlitter, `continueLater, `ctrl, `gpuDoneLine, `phase
      ensures Valid()
      ensures st == RunPass(cfg, old(st), hog, PassQuota())
      ensures ctrl == CtrlAfterPass(old(ctrl), st.halftoneLine, st.yCount == 0)
      ensures gpuDoneLine == (st.yCount > 0)
      ensures phase == if st.yCount == 0 then Stop else CountCpuBus
    {
      hide RunPass, CtrlAfterPass;
      countBusBlitter := 0;
      if busCountError {
        countBusBlitter := countBusBlitter + 1;
      }
      phase := RunTransfer;
      gpuDoneLine := true;
      RunTransferLoop();
      ctrl := CtrlAfterPass(ctrl, st.halftoneLine, st.yCount == 0);
      if st.yCount == 0 {
        gpuDoneLine := false;
        phase := Stop;
      } else {
        phase := CountCpuBus;
      }
    }

    /** The main loop of `Start`. */
    method RunTransferLoop()
      requires Valid() && st.yCount > 0 && (hog || ContinueNonHog())
      modifies `st, `countBusBlitter, `continueLater
      ensures Valid()
      ensures st == RunPass(cfg, old(st), hog, old(Left()))
    {
      hide RunPass, RunWord, Core.LineLeft;
      ghost var goal := RunPass(cfg, st, hog, Left());
      WordInPass(cfg, st, hog, Left());
      Step();
      while st.yCount > 0 && (hog || ContinueNonHog())
        invariant Valid()
        invariant !hog ==> countBusBlitter <= NONHOG_BUS_BLITTER
        invariant st.yCount > 0 && (hog || ContinueNonHog()) ==> !continueLater
        invariant goal ==
          if st.yCount > 0 && (hog || ContinueNonHog()) then RunPass(cfg, st, hog, Left()) else st
        decreases st.yCount, st.LineLeft(), if continueLater then 0 else 1
      {
        WordInPass(cfg, st, hog, Left());
        WordProgress(cfg, st, hog, Left());
        Step();
      }
    }

    /** Words per line: a zero stands for 65536. */
    method WordsPerLineWriteWord(value: nat)
      requires Valid() && value < 0x1_0000
      modifies `cfg, `st
      ensures Valid()
      ensures st.xCount == cfg.xCountReset && 1 <= st.xCount <= 0x1_0000 && st.xCount % 0x1_0000 == value
      ensures st == old(st).(xCount := st.xCount) && cfg == old(cfg).(xCountReset := st.xCount)
    {
      var xCount := if value == 0 then 0x1_0000 else value;
      st := st.(xCount := xCount);
      cfg := cfg.(xCountReset := xCount);
    }

    /** Lines per bit block: a zero stands for 65536. */
    method LinesPerBitblockWriteWord(value: nat)
      requires Valid() && value < 0x1_0000
      modifies `st
      ensures Valid()
      ensures 1 <= st.yCount <= 0x1_0000 && st.yCount % 0x1_0000 == value
      ensures st == old(st).(yCount := st.yCount)
    {
      var yCount := if value == 0 then 0x1_0000 else value;
      st := st.(yCount := yCount);
    }

    method SetControlBits(value: nat)
      requires Valid() && value < 256
      modifies `ctrl, `hog, `cfg, `st
      ensures Valid() && ctrl == WithoutBit4(value)
      ensures hog == (value / 64 % 2 == 1) && cfg == old(cfg).(smudge := value / 32 % 2 == 1)
      ensures st == old(st).(halftoneLine := value % 16)
    {
      hide WithoutBit4;
      ctrl := WithoutBit4(value);
      hog := value / 64 % 2 == 1;
      cfg := cfg.(smudge := value / 32 % 2 == 1);
      st := st.(halftoneLine := value % 16);
    }

    /** The control register: busy, hog, smudge and halftone line; bit 4 reads as zero, and a
        blit that is already complete clears busy and hog.  `start` says whether the engine is to
        be started: after a delay in a phase of its own when the processor is emulated cycle by
        cycle.  A blit that was stopped starts with empty latches, one that was waiting or paused
        goes on from where it was. */
    method ControlWriteByte(value: nat, cycleExact: bool) returns (start: bool)
      requires Valid() && value < 256
      modifies this
      ensures Valid()
      ensures start <==> value >= 128 && st.yCount > 0
      ensures hog == (value / 64 % 2 == 1) && cfg == old(cfg).(smudge := value / 32 % 2 == 1)
      ensures ctrl == CtrlAfterWrite(value, value >= 128 && st.yCount == 0)
      ensures if start && old(phase) == Stop then
                st == old(st).(halftoneLine := value % 16, haveFxsr := false, haveSrc := false, fetchSrc := false,
                               haveDst := false)
              else st == old(st).(halftoneLine := value % 16)
      ensures start && old(phase) == Stop && st.xCount == cfg.xCountReset && st.xCount > 0 ==> Fresh(cfg, st)
      ensures phase == if start && cycleExact then PreStart
                       else if value < 128 && old(phase) == CountCpuBus then Pause else old(phase)
      ensures busCountError == (old(busCountError) && !(start && cycleExact))
    {
      hide WithoutBit4;
      SetControlBits(value);
      start := false;
      if value >= 128 {
        if st.yCount == 0 {
          ctrl := ctrl % 64;
        } else {
          if phase == Stop {
            FlushWordState(true);
          }
          if cycleExact {
            phase := PreStart;
            busCountError := false;
          }
          start := true;
        }
      } else if phase == CountCpuBus {
        phase := Pause;
      }
    }
  }
}
