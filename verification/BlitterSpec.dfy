/** The simple specification of a blit: two nested loops, one formula per word. */
module BlitterSpec {
  import opened BlitterOps
  import opened BlitterCore
  import opened BlitterSharing
  import opened BlitterWord

  /** A blit whose counters were just written and that has not made any access. */
  predicate Fresh(c: Config, s: Core) {
    && c.Valid() && s.Valid()
    && s.xCount == c.xCountReset && s.xCount > 0 && s.yCount > 0
    && !s.haveFxsr && !s.haveSrc && !s.fetchSrc && !s.haveDst
  }

  function Fx(c: Config): nat { if c.fxsr then 1 else 0 }

  /** NFSR leaves out the last fetch of a line of two or more words. */
  predicate SkipsLastFetch(c: Config) { c.nfsr && c.xCountReset >= 2 }

  /** The last word of a line under NFSR: its newer half comes from the bus. */
  predicate BusTail(c: Config, x: int) { c.nfsr && x == c.xCountReset - 1 }

  /** How many source words a line fetches, if it fetches any. */
  function Fetches(c: Config): int {
    c.xCountReset + Fx(c) - (if SkipsLastFetch(c) then 1 else 0)
  }

  function SrcPitch(c: Config): int { (Fetches(c) - 1) * c.srcXIncr + c.srcYIncr }
  function DstPitch(c: Config): int { (c.xCountReset - 1) * c.dstXIncr + c.dstYIncr }

  /** Address of fetch `i` of line `y`, and of destination word `x` of line `y`. */
  function SrcAt(c: Config, s: Core, y: int, i: int): nat {
    Wrap(s.srcAddr + y * SrcPitch(c) + i * c.srcXIncr)
  }

  function DstAt(c: Config, s: Core, y: int, x: int): nat {
    Wrap(s.dstAddr + y * DstPitch(c) + x * c.dstXIncr)
  }

  function LineAt(c: Config, s: Core, y: int): (r: nat)
    ensures r < 16
  {
    if c.dstYIncr >= 0 then (s.halftoneLine + y) % 16 else (s.halftoneLine - y) % 16
  }

  function MaskAt(c: Config, x: nat): Word
    requires x < c.xCountReset
  {
    c.Mask(c.xCountReset - x)
  }

  function SrcWord(c: Config, s: Core, y: int, i: int): Word {
    ReadWord(s.mem, SrcAt(c, s, y, i))
  }

  function DstWord(c: Config, s: Core, y: int, x: int): Word {
    ReadWord(s.mem, DstAt(c, s, y, x))
  }

  /** The word fetched just before word `x` of line `y` starts. */
  function Latest(c: Config, s: Core, y: nat, x: nat): Word
    requires Fresh(c, s) && x < c.xCountReset
    decreases y, x, 0
  {
    if x > 0 then SrcWord(c, s, y, Fx(c) + x - 1)
    else if y == 0 then Newest(c.Backwards(), s.buffer)
    else if c.nfsr then Output(c, s, y - 1, c.xCountReset - 1)
    else SrcWord(c, s, y - 1, Fetches(c) - 1)
  }

  /** The two adjacent source words under the window of word `x` of line `y`. */
  function Older(c: Config, s: Core, y: nat, x: nat): Word
    requires Fresh(c, s) && x < c.xCountReset
    decreases y, x, 1
  {
    if BusTail(c, x) then SrcWord(c, s, y, Fetches(c) - 1)
    else if x == 0 && c.fxsr then SrcWord(c, s, y, 0)
    else Latest(c, s, y, x)
  }

  function Newer(c: Config, s: Core, y: nat, x: nat): Word
    requires Fresh(c, s) && x < c.xCountReset
    decreases y, x, 1
  {
    if !BusTail(c, x) then SrcWord(c, s, y, Fx(c) + x)
    else if c.NeedDst(MaskAt(c, x)) then DstWord(c, s, y, x)
    else if x > 0 then Output(c, s, y, x - 1)
    else SrcWord(c, s, y, Fetches(c) - 1)
  }

  /** The word that the blit leaves at word `x` of line `y`. */
  function Output(c: Config, s: Core, y: nat, x: nat): Word
    requires Fresh(c, s) && x < c.xCountReset
    decreases y, x, 2
  {
    var window := SourceRead(Joined(c.Backwards(), Older(c, s, y, x), Newer(c, s, y, x)), c.skew);
    var dst := DstWord(c, s, y, x);
    Merged(Lop(c.lop, Hop(c.hop, c.smudge, c.halftone, LineAt(c, s, y), window), dst), dst, MaskAt(c, x))
  }

  // How many accesses the first `k` words of a line make.
  function SrcReads(c: Config, k: nat): nat
    requires k <= c.xCountReset
  {
    if !c.NeedSrc() || k == 0 then 0
    else Fx(c) + k - (if k == c.xCountReset && SkipsLastFetch(c) then 1 else 0)
  }

  function DstReads(c: Config, k: nat): nat
    requires k <= c.xCountReset
  {
    if k == 0 then 0 else DstReads(c, k - 1) + (if c.NeedDst(MaskAt(c, k - 1)) then 1 else 0)
  }

  function AccessesInLine(c: Config, k: nat): nat
    requires k <= c.xCountReset
  {
    SrcReads(c, k) + DstReads(c, k) + k
  }

  lemma WrapAdd(a: int, b: int)
    ensures Wrap(Wrap(a) + b) == Wrap(a + b)
  {
    var q := a / ADDRESS_SPACE;
    assert a == q * ADDRESS_SPACE + Wrap(a);
    assert (Wrap(a) + b + q * ADDRESS_SPACE) % ADDRESS_SPACE == (Wrap(a) + b) % ADDRESS_SPACE;
  }

  lemma NextSrcInLine(c: Config, s: Core, y: int, i: int)
    ensures Wrap(SrcAt(c, s, y, i) + c.srcXIncr) == SrcAt(c, s, y, i + 1)
  {
    WrapAdd(s.srcAddr + y * SrcPitch(c) + i * c.srcXIncr, c.srcXIncr);
    assert (i + 1) * c.srcXIncr == i * c.srcXIncr + c.srcXIncr;
  }

  lemma NextSrcLine(c: Config, s: Core, y: int)
    ensures Wrap(SrcAt(c, s, y, Fetches(c) - 1) + c.srcYIncr) == SrcAt(c, s, y + 1, 0)
  {
    WrapAdd(s.srcAddr + y * SrcPitch(c) + (Fetches(c) - 1) * c.srcXIncr, c.srcYIncr);
    assert (y + 1) * SrcPitch(c) == y * SrcPitch(c) + SrcPitch(c);
  }

  lemma NextDstInLine(c: Config, s: Core, y: int, x: int)
    ensures Wrap(DstAt(c, s, y, x) + c.dstXIncr) == DstAt(c, s, y, x + 1)
  {
    WrapAdd(s.dstAddr + y * DstPitch(c) + x * c.dstXIncr, c.dstXIncr);
    assert (x + 1) * c.dstXIncr == x * c.dstXIncr + c.dstXIncr;
  }

  lemma NextDstLine(c: Config, s: Core, y: int)
    ensures Wrap(DstAt(c, s, y, c.xCountReset - 1) + c.dstYIncr) == DstAt(c, s, y + 1, 0)
  {
    WrapAdd(s.dstAddr + y * DstPitch(c) + (c.xCountReset - 1) * c.dstXIncr, c.dstYIncr);
    assert (y + 1) * DstPitch(c) == y * DstPitch(c) + DstPitch(c);
  }

  lemma NextHalftoneLine(c: Config, s: Core, y: int)
    ensures NextLine(c.dstYIncr, LineAt(c, s, y)) == LineAt(c, s, y + 1)
  {
    if c.dstYIncr >= 0 {
      Mod16Add(s.halftoneLine + y, 1);
    } else {
      Mod16Add(s.halftoneLine - y, -1);
    }
  }

  lemma Mod16Add(a: int, b: int)
    ensures (a % 16 + b) % 16 == (a + b) % 16
  {
    assert a == a / 16 * 16 + a % 16;
  }

  // Which accesses word `x` of a line makes before its write.
  predicate DoesFxsr(c: Config, x: int) { x == 0 && c.fxsr && c.NeedSrc() }
  predicate DoesFetch(c: Config, x: int) { c.NeedSrc() && !(SkipsLastFetch(c) && x == c.xCountReset - 1) }
  predicate DoesDstRead(c: Config, x: nat)
    requires x < c.xCountReset
  {
    c.NeedDst(MaskAt(c, x))
  }

  /** The source address when word `x` of line `y` starts. */
  function SrcCursor(c: Config, s: Core, y: int, x: int): nat {
    if !c.NeedSrc() then s.srcAddr
    else if x == 0 then SrcAt(c, s, y, 0)
    else if SkipsLastFetch(c) && x == c.xCountReset - 1 then SrcAt(c, s, y + 1, 0)
    else SrcAt(c, s, y, Fx(c) + x)
  }

  /** Counters, addresses and flags when word `x` of line `y` starts. */
  ghost predicate RegsAt(c: Config, s0: Core, s: Core, y: nat, x: nat)
    requires Fresh(c, s0)
  {
    && s.Valid() && x < c.xCountReset && y <= s0.yCount
    && s.xCount == c.xCountReset - x && s.yCount == s0.yCount - y
    && !s.haveSrc && !s.fetchSrc && !s.haveDst
    && (s.haveFxsr <==> x > 0 && c.fxsr && c.NeedSrc())
    && (x > 0 ==> s.fxsr == c.fxsr)
    && (x > 0 ==> (s.nfsr <==> SkipsLastFetch(c) && x == c.xCountReset - 1))
    && s.srcAddr == SrcCursor(c, s0, y, x)
    && s.dstAddr == DstAt(c, s0, y, x)
    && s.halftoneLine == LineAt(c, s0, y)
  }

  /** The word after word `x` of line `y`. */
  function NextX(c: Config, x: nat): nat { if x + 1 < c.xCountReset then x + 1 else 0 }
  function NextY(c: Config, y: nat, x: nat): nat { if x + 1 < c.xCountReset then y else y + 1 }

  function Push(c: Config, buffer: Long, w: Word): Long {
    InsertWord(c.Backwards(), ShiftBuffer(c.Backwards(), buffer), w)
  }

  /** What the latches hold just before the write of a word. */
  datatype Latches = Latches(srcAddr: nat, buffer: Long, dstWord: Word, busWord: Word)

  function AtWrite(c: Config, s: Core, x: nat): Latches
    requires x < c.xCountReset
  {
    var w1 := ReadWord(s.mem, s.srcAddr);
    var l1 := if DoesFxsr(c, x) then Latches(Wrap(s.srcAddr + c.srcXIncr), Push(c, s.buffer, w1), s.dstWord, w1)
              else Latches(s.srcAddr, s.buffer, s.dstWord, s.busWord);
    var w2 := ReadWord(s.mem, l1.srcAddr);
    var l2 := if DoesFetch(c, x) then Latches(l1.srcAddr, Push(c, l1.buffer, w2), s.dstWord, w2) else l1;
    var d := ReadWord(s.mem, s.dstAddr);
    var l3 := if DoesDstRead(c, x) then Latches(l2.srcAddr, l2.buffer, d, d) else l2;
    if BusTail(c, x) then l3.(buffer := Push(c, l3.buffer, l3.busWord)) else l3
  }

  lemma PreparedWord(c: Config, s0: Core, s: Core, y: nat, x: nat)
    requires Fresh(c, s0) && RegsAt(c, s0, s, y, x)
    ensures var p := Prepare(c, s);
      && p.endMask == MaskAt(c, x) && p.fxsr == c.fxsr
      && (p.nfsr <==> SkipsLastFetch(c) && x == c.xCountReset - 1)
      && (p.needSrc <==> c.NeedSrc()) && (p.needDst <==> DoesDstRead(c, x))
  {
    hide SrcCursor, DstAt, LineAt, IsFull, LopNeedsDst, NeedsSrc;
  }

  /** The state in which the write of word `x` is made, up to the shift before it. */
  lemma BeforeWrite(c: Config, s0: Core, s: Core, y: nat, x: nat)
    requires Fresh(c, s0) && RegsAt(c, s0, s, y, x)
    ensures var p3 := AfterDst(AfterSrc(c, AfterFxsr(c, Prepare(c, s))));
      var l := AtWrite(c, s, x);
      && p3.srcAddr == l.srcAddr && p3.dstWord == l.dstWord
      && l.buffer == (if BusTail(c, x) then Push(c, p3.buffer, p3.busWord) else p3.buffer)
      && (BusTail(c, x) ==> l.busWord == p3.busWord)
      && p3.mem == s.mem && p3.dstAddr == s.dstAddr && p3.halftoneLine == s.halftoneLine
      && p3.xCount == s.xCount && p3.yCount == s.yCount && p3.endMask == MaskAt(c, x)
      && (p3.nfsr <==> SkipsLastFetch(c) && x == c.xCountReset - 1)
      && p3.fxsr == c.fxsr && (p3.haveFxsr <==> c.fxsr && c.NeedSrc())
      && (p3.fetchSrc <==> DoesFetch(c, x))
      && |p3.bus| == |s.bus| + (if DoesFxsr(c, x) then 1 else 0) + (if DoesFetch(c, x) then 1 else 0)
                             + (if DoesDstRead(c, x) then 1 else 0)
  {
    hide Prepare, InsertWord, ShiftBuffer, ReadWord, Wrap, SrcCursor, DstAt, LineAt, IsFull, LopNeedsDst, NeedsSrc,
         Config.Mask;
    PrepareFrame(c, s);
    PreparedWord(c, s0, s, y, x);
  }

  /** What the engine writes from given latches. */
  function Written(c: Config, l: Latches, line: nat, mask: Word): Word
    requires c.Valid() && line < 16
  {
    var lop := Lop(c.lop, Hop(c.hop, c.smudge, c.halftone, line, SourceRead(l.buffer, c.skew)), l.dstWord);
    if !IsFull(mask) then Merged(lop, l.dstWord, mask) else lop
  }

  /** The effect of word `x` on memory, bus and shift register. */
  lemma WordWrite(c: Config, s0: Core, s: Core, y: nat, x: nat)
    requires Fresh(c, s0) && RegsAt(c, s0, s, y, x)
    ensures var t := FullWord(c, s);
      var l := AtWrite(c, s, x);
      var w := Written(c, l, s.halftoneLine, MaskAt(c, x));
      && t.mem == WriteWord(s.mem, s.dstAddr, w)
      && t.busWord == w
      && t.buffer == (if BusTail(c, x) then Push(c, l.buffer, w) else l.buffer)
      && |t.bus| == |s.bus| + (if DoesFxsr(c, x) then 1 else 0) + (if DoesFetch(c, x) then 1 else 0)
                            + (if DoesDstRead(c, x) then 1 else 0) + 1
  {
    hide AfterDst, AfterSrc, AfterFxsr, Prepare, AtWrite, InsertWord, ShiftBuffer, WriteWord, Lop, Hop, Merged,
         SourceRead, IsFull, Config.NeedDst;
    BeforeWrite(c, s0, s, y, x);
    var p3 := AfterDst(AfterSrc(c, AfterFxsr(c, Prepare(c, s))));
    WriteEffect(c, p3);
  }

  lemma WriteEffect(c: Config, p: Core)
    requires c.Valid() && p.Valid()
    ensures var t := NextWord(c, DstWrite(c, p));
      var q := if c.ExtraShift(p.xCount) then ShiftInBusWord(c, p) else p;
      var w := OutputWord(c, q);
      && t.mem == WriteWord(p.mem, p.dstAddr, w)
      && t.busWord == w
      && t.buffer == (if c.ExtraShift(p.xCount) then Push(c, q.buffer, w) else q.buffer)
      && |t.bus| == |p.bus| + 1
  {
    hide OutputWord, InsertWord, ShiftBuffer, WriteWord, AdvanceSource, AdvanceDest;
  }

  /** Counters, addresses and flags move on to the next word. */
  lemma WordRegs(c: Config, s0: Core, s: Core, y: nat, x: nat)
    requires Fresh(c, s0) && RegsAt(c, s0, s, y, x) && y < s0.yCount
    ensures RegsAt(c, s0, FullWord(c, s), NextY(c, y, x), NextX(c, x))
  {
    hide AfterDst, AfterSrc, AfterFxsr, Prepare, DstWrite, InsertWord, ShiftBuffer, WriteWord, ReadWord, IsFull,
         Config.NeedDst, Wrap, SrcAt, DstAt, LineAt, NextLine;
    BeforeWrite(c, s0, s, y, x);
    var p3 := AfterDst(AfterSrc(c, AfterFxsr(c, Prepare(c, s))));
    DstWriteFrame(c, p3);
    NextDstInLine(c, s0, y, x);
    NextDstLine(c, s0, y);
    NextHalftoneLine(c, s0, y);
    SrcCursorMoves(c, s0, s, y, x);
  }

  /** The source cursor after a word, as the engine updates it. */
  lemma SrcCursorMoves(c: Config, s0: Core, s: Core, y: nat, x: nat)
    requires Fresh(c, s0) && RegsAt(c, s0, s, y, x)
    ensures var a := AtWrite(c, s, x).srcAddr;
      SrcCursor(c, s0, NextY(c, y, x), NextX(c, x)) ==
        if !DoesFetch(c, x) then a
        else if x == c.xCountReset - 1 || (x == c.xCountReset - 2 && c.nfsr) then Wrap(a + c.srcYIncr)
        else Wrap(a + c.srcXIncr)
  {
    hide ReadWord, Push, Wrap, SrcAt, DstAt, LineAt, Config.NeedDst;
    if c.NeedSrc() {
      NextSrcInLine(c, s0, y, 0);
      NextSrcInLine(c, s0, y, Fx(c) + x);
      NextSrcLine(c, s0, y);
    }
  }

  predicate InBlit(c: Config, s: Core, y: int, x: int) {
    0 <= y < s.yCount && 0 <= x < c.xCountReset
  }

  /** Destination words do not overlap each other, nor any source word that is fetched. */
  ghost predicate Separate(c: Config, s: Core) {
    && (forall y, x, y', x' ::
          InBlit(c, s, y, x) && InBlit(c, s, y', x') && DstAt(c, s, y, x) == DstAt(c, s, y', x') ==> y == y' && x == x')
    && (c.NeedSrc() ==> forall y, x, y', i ::
          InBlit(c, s, y, x) && 0 <= y' < s.yCount && 0 <= i < Fetches(c) ==> SrcAt(c, s, y', i) != DstAt(c, s, y, x))
  }

  predicate Before(y: int, x: int, y': int, x': int) {
    y < y' || (y == y' && x < x')
  }

  /** The memory when word `x` of line `y` starts: earlier words are written, nothing else is. */
  ghost predicate MemoryAt(c: Config, s0: Core, m: Memory, y: nat, x: nat)
    requires Fresh(c, s0)
  {
    && m.Keys == s0.mem.Keys
    && (forall y': nat, x': nat :: InBlit(c, s0, y', x') && Before(y', x', y, x) && DstAt(c, s0, y', x') in m ==>
          m[DstAt(c, s0, y', x')] == Output(c, s0, y', x'))
    && (forall a :: a in m && (forall y', x' :: InBlit(c, s0, y', x') && Before(y', x', y, x) ==>
         DstAt(c, s0, y', x') != a) ==>
          m[a] == s0.mem[a])
  }

  /** The shift register and the bus latch when word `x` of line `y` starts. */
  ghost predicate LatchesAt(c: Config, s0: Core, s: Core, y: nat, x: nat)
    requires Fresh(c, s0) && x < c.xCountReset
  {
    && (c.NeedSrc() ==> Newest(c.Backwards(), s.buffer) == Latest(c, s0, y, x))
    && (BusTail(c, x) && x > 0 ==> s.busWord == Output(c, s0, y, x - 1))
  }

  ghost predicate At(c: Config, s0: Core, s: Core, y: nat, x: nat)
    requires Fresh(c, s0)
  {
    RegsAt(c, s0, s, y, x) && MemoryAt(c, s0, s.mem, y, x) && LatchesAt(c, s0, s, y, x)
  }

  lemma PushTwo(c: Config, buffer: Long, older: Word, newer: Word)
    ensures Push(c, buffer, newer) == Joined(c.Backwards(), Newest(c.Backwards(), buffer), newer)
    ensures Newest(c.Backwards(), Push(c, buffer, newer)) == newer
    ensures Push(c, Push(c, buffer, older), newer) == Joined(c.Backwards(), older, newer)
  {
    hide InsertWord, ShiftBuffer, Joined, Newest;
    var b := c.Backwards();
    ShiftInsert(b, buffer, newer);
    NewestOfJoined(b, Newest(b, buffer), newer);
    ShiftInsert(b, buffer, older);
    NewestOfJoined(b, Newest(b, buffer), older);
    ShiftInsert(b, Push(c, buffer, older), newer);
  }

  /** What a word reads has not been written yet by the blit. */
  lemma ReadsAreInitial(c: Config, s0: Core, s: Core, y: nat, x: nat, i: int)
    requires Fresh(c, s0) && Separate(c, s0) && MemoryAt(c, s0, s.mem, y, x) && InBlit(c, s0, y, x)
    requires 0 <= i < Fetches(c)
    ensures ReadWord(s.mem, DstAt(c, s0, y, x)) == DstWord(c, s0, y, x)
    ensures c.NeedSrc() ==> ReadWord(s.mem, SrcAt(c, s0, y, i)) == SrcWord(c, s0, y, i)
  {
    hide SrcAt, DstAt, Output;
  }

  /** Before the write, the shift register holds the two words of the specification. */
  lemma WindowIsRight(c: Config, s0: Core, s: Core, y: nat, x: nat)
    requires Fresh(c, s0) && Separate(c, s0) && At(c, s0, s, y, x) && y < s0.yCount
    requires c.NeedSrc()
    ensures AtWrite(c, s, x).buffer == Joined(c.Backwards(), Older(c, s0, y, x), Newer(c, s0, y, x))
  {
    hide SrcAt, DstAt, Output, Push, Joined, Newest, Wrap, ReadWord, Config.NeedDst, MemoryAt, Separate;
    var l := AtWrite(c, s, x);
    ReadsAreInitial(c, s0, s, y, x, 0);
    NextSrcInLine(c, s0, y, 0);
    var w1 := ReadWord(s.mem, s.srcAddr);
    if BusTail(c, x) && x > 0 {
      PushTwo(c, s.buffer, w1, l.busWord);
    } else {
      ReadsAreInitial(c, s0, s, y, x, Fx(c) + x);
      var w2 := SrcWord(c, s0, y, Fx(c) + x);
      PushTwo(c, s.buffer, w1, w2);
      if BusTail(c, x) {
        var b1 := if c.fxsr then Push(c, s.buffer, w1) else s.buffer;
        PushTwo(c, b1, w2, l.busWord);
      }
    }
  }

  /** The engine writes the word of the specification. */
  lemma WordIsRight(c: Config, s0: Core, s: Core, y: nat, x: nat)
    requires Fresh(c, s0) && Separate(c, s0) && At(c, s0, s, y, x) && y < s0.yCount
    ensures Written(c, AtWrite(c, s, x), s.halftoneLine, MaskAt(c, x)) == Output(c, s0, y, x)
  {
    hide SrcAt, DstAt, Push, Joined, Older, Newer, Wrap, ReadWord, MemoryAt, Separate, SourceRead, Hop, Lop, Merged,
         IsFull, LopNeedsDst, NeedsSrc, LatchesAt;
    var l, mask, d := AtWrite(c, s, x), MaskAt(c, x), DstWord(c, s0, y, x);
    ReadsAreInitial(c, s0, s, y, x, 0);
    var window := SourceRead(Joined(c.Backwards(), Older(c, s0, y, x), Newer(c, s0, y, x)), c.skew);
    var used := SourceRead(l.buffer, c.skew);
    if c.NeedSrc() {
      WindowIsRight(c, s0, s, y, x);
    } else {
      UnneededSrc(c.lop, c.hop, c.smudge, c.halftone, s.halftoneLine, window, used, l.dstWord);
    }
    var hop := Hop(c.hop, c.smudge, c.halftone, s.halftoneLine, window);
    if !c.NeedDst(mask) {
      UnneededDst(c.lop, hop, d, l.dstWord);
      FullMask(Lop(c.lop, hop, d), d, mask);
    } else if IsFull(mask) {
      FullMask(Lop(c.lop, hop, d), d, mask);
    }
  }

  /** The write keeps the memory invariant. */
  lemma MemoryMovesOn(c: Config, s0: Core, m: Memory, y: nat, x: nat)
    requires Fresh(c, s0) && Separate(c, s0) && MemoryAt(c, s0, m, y, x) && InBlit(c, s0, y, x)
    ensures MemoryAt(c, s0, WriteWord(m, DstAt(c, s0, y, x), Output(c, s0, y, x)), NextY(c, y, x), NextX(c, x))
  {
    hide SrcAt, DstAt, Output;
    var a, w := DstAt(c, s0, y, x), Output(c, s0, y, x);
    var m' := WriteWord(m, a, w);
    var yn, xn := NextY(c, y, x), NextX(c, x);
    forall y': nat, x': nat | InBlit(c, s0, y', x') && Before(y', x', yn, xn) && DstAt(c, s0, y', x') in m'
      ensures m'[DstAt(c, s0, y', x')] == Output(c, s0, y', x')
    {
      assert Before(y', x', y, x) || (y' == y && x' == x);
    }
    forall b | b in m' && (forall y', x' :: InBlit(c, s0, y', x') && Before(y', x', yn, xn) ==>
        DstAt(c, s0, y', x') != b)
      ensures m'[b] == s0.mem[b]
    {
      assert Before(y, x, yn, xn);
      assert forall y', x' :: InBlit(c, s0, y', x') && Before(y', x', y, x) ==> Before(y', x', yn, xn);
    }
  }

  /** One whole word takes the invariant to the next word. */
  lemma WordMovesOn(c: Config, s0: Core, s: Core, y: nat, x: nat)
    requires Fresh(c, s0) && Separate(c, s0) && At(c, s0, s, y, x) && y < s0.yCount
    ensures At(c, s0, FullWord(c, s), NextY(c, y, x), NextX(c, x))
  {
    hide FullWord, RegsAt, MemoryAt, Separate, Written, Output, Older, Newer, AtWrite, Joined, Newest, Push, SrcAt,
         DstAt, WriteWord, Config.NeedDst, NeedsSrc, LineAt, BusTail, DoesFetch, DoesFxsr;
    assert InBlit(c, s0, y, x) && s.halftoneLine == LineAt(c, s0, y) && s.dstAddr == DstAt(c, s0, y, x)
        && x < c.xCountReset by { RegsHere(c, s0, s, y, x); }
    WordRegs(c, s0, s, y, x);
    WordWrite(c, s0, s, y, x);
    WordIsRight(c, s0, s, y, x);
    MemoryMovesOn(c, s0, s.mem, y, x);
    LatchesMoveOn(c, s0, s, y, x);
  }

  lemma RegsHere(c: Config, s0: Core, s: Core, y: nat, x: nat)
    requires Fresh(c, s0) && RegsAt(c, s0, s, y, x) && y < s0.yCount
    ensures InBlit(c, s0, y, x) && s.halftoneLine == LineAt(c, s0, y) && s.dstAddr == DstAt(c, s0, y, x)
  {
    hide SrcCursor, DstAt, LineAt;
  }

  lemma LatchesMoveOn(c: Config, s0: Core, s: Core, y: nat, x: nat)
    requires Fresh(c, s0) && Separate(c, s0) && At(c, s0, s, y, x) && y < s0.yCount
    ensures LatchesAt(c, s0, FullWord(c, s), NextY(c, y, x), NextX(c, x))
  {
    hide FullWord, RegsAt, MemoryAt, Separate, Written, Output, AtWrite, Joined, Newest, Push, SrcAt, DstAt,
         WriteWord, Config.NeedDst, NeedsSrc, LineAt;
    assert x < c.xCountReset by { RegsHere(c, s0, s, y, x); }
    var l, w := AtWrite(c, s, x), Output(c, s0, y, x);
    WordWrite(c, s0, s, y, x);
    WordIsRight(c, s0, s, y, x);
    PushTwo(c, l.buffer, w, w);
    if c.NeedSrc() {
      WindowIsRight(c, s0, s, y, x);
      NewestOfJoined(c.Backwards(), Older(c, s0, y, x), Newer(c, s0, y, x));
    }
  }

  lemma StartsAt(c: Config, s0: Core)
    requires Fresh(c, s0)
    ensures At(c, s0, s0, 0, 0)
  {
    hide Output;
  }

  lemma {:induction false} RunsToTheEnd(c: Config, s0: Core, s: Core, y: nat, x: nat)
    requires Fresh(c, s0) && Separate(c, s0) && At(c, s0, s, y, x) && y < s0.yCount
    ensures s.yCount > 0 && At(c, s0, Hog(c, s), s0.yCount, 0)
    decreases s0.yCount - y, c.xCountReset - x
  {
    hide FullWord, Hog, RegsAt, MemoryAt, LatchesAt, Separate;
    assert s.yCount > 0 && s.Valid() && x < c.xCountReset by { CountersHere(c, s0, s, y, x); }
    HogIsWords(c, s);
    WordMovesOn(c, s0, s, y, x);
    var t := FullWord(c, s);
    var yn, xn := NextY(c, y, x), NextX(c, x);
    CountersHere(c, s0, t, yn, xn);
    if t.yCount > 0 {
      RunsToTheEnd(c, s0, t, yn, xn);
    }
  }

  lemma CountersHere(c: Config, s0: Core, s: Core, y: nat, x: nat)
    requires Fresh(c, s0) && RegsAt(c, s0, s, y, x)
    ensures s.yCount == s0.yCount - y && x < c.xCountReset && s.Valid()
  {
    hide SrcCursor, DstAt, LineAt;
  }

  /** A memory after a blit: every destination word that is mapped holds the word of the
      formula, and all other memory is as it was. */
  ghost predicate Blitted(c: Config, s0: Core, m: Memory)
    requires Fresh(c, s0)
  {
    && m.Keys == s0.mem.Keys
    && (forall y: nat, x: nat :: InBlit(c, s0, y, x) && DstAt(c, s0, y, x) in m ==>
          m[DstAt(c, s0, y, x)] == Output(c, s0, y, x))
    && (forall a :: a in m && (forall y, x :: InBlit(c, s0, y, x) ==> DstAt(c, s0, y, x) != a) ==> m[a] == s0.mem[a])
  }

  /** The engine meets the simple specification. */
  lemma BlitMeetsSpecification(c: Config, s0: Core)
    requires Fresh(c, s0) && Separate(c, s0)
    ensures Blitted(c, s0, Hog(c, s0).mem)
  {
    hide Hog, DstAt, Output, Separate, RegsAt, LatchesAt;
    StartsAt(c, s0);
    RunsToTheEnd(c, s0, s0, 0, 0);
  }

  // Accesses and final addresses, for every register setup and any overlap.

  lemma LineAccessesGrow(c: Config, x: nat)
    requires x < c.xCountReset
    ensures AccessesInLine(c, x + 1) == AccessesInLine(c, x) + 1
      + (if DoesFxsr(c, x) then 1 else 0) + (if DoesFetch(c, x) then 1 else 0) + (if DoesDstRead(c, x) then 1 else 0)
  {
    hide Config.NeedDst, NeedsSrc;
  }

  lemma {:induction false} AccessesToTheEnd(c: Config, s0: Core, s: Core, y: nat, x: nat)
    requires Fresh(c, s0) && RegsAt(c, s0, s, y, x) && y < s0.yCount
    ensures s.yCount > 0 && s.Valid() && x < c.xCountReset
    ensures RegsAt(c, s0, Hog(c, s), s0.yCount, 0)
    ensures |Hog(c, s).bus| + AccessesInLine(c, x)
         == |s.bus| + (s0.yCount - y) * AccessesInLine(c, c.xCountReset)
    decreases s0.yCount - y, c.xCountReset - x
  {
    hide FullWord, Hog, RegsAt, AccessesInLine, DoesFxsr, DoesFetch, DoesDstRead;
    CountersHere(c, s0, s, y, x);
    HogIsWords(c, s);
    WordRegs(c, s0, s, y, x);
    WordWrite(c, s0, s, y, x);
    LineAccessesGrow(c, x);
    var t := FullWord(c, s);
    var yn, xn := NextY(c, y, x), NextX(c, x);
    CountersHere(c, s0, t, yn, xn);
    assert AccessesInLine(c, 0) == 0 by { NoAccesses(c); }
    var n := AccessesInLine(c, c.xCountReset);
    assert (s0.yCount - y) * n == (s0.yCount - (y + 1)) * n + n;
    if t.yCount > 0 {
      AccessesToTheEnd(c, s0, t, yn, xn);
    } else {
      assert (s0.yCount - (y + 1)) * n == 0;
    }
  }

  lemma NoAccesses(c: Config)
    ensures AccessesInLine(c, 0) == 0
  {
  }

  lemma {:induction false} MiddleDstReads(c: Config, k: nat)
    requires 1 <= k < c.xCountReset
    ensures DstReads(c, k) == (if c.NeedDst(c.endMask1) then 1 else 0) + (if c.NeedDst(c.endMask2) then k - 1 else 0)
  {
    hide Config.NeedDst;
    if k == 1 {
      assert DstReads(c, 1) == DstReads(c, 0) + (if c.NeedDst(MaskAt(c, 0)) then 1 else 0);
    } else {
      MiddleDstReads(c, k - 1);
    }
  }

  /** How many accesses a line makes: its fetches, its destination reads, its writes. */
  function LineAccesses(c: Config): int
    requires c.xCountReset > 0
  {
    var d1 := if c.NeedDst(c.endMask1) then 1 else 0;
    var d2 := if c.NeedDst(c.endMask2) then 1 else 0;
    var d3 := if c.NeedDst(c.endMask3) then 1 else 0;
    (if c.NeedSrc() then Fetches(c) else 0) + c.xCountReset
      + (if c.xCountReset == 1 then d1 else d1 + (c.xCountReset - 2) * d2 + d3)
  }

  lemma LineAccessesClosed(c: Config)
    requires c.xCountReset > 0
    ensures AccessesInLine(c, c.xCountReset) == LineAccesses(c)
  {
    hide Config.NeedDst, NeedsSrc;
    var n := c.xCountReset;
    if n > 1 {
      MiddleDstReads(c, n - 1);
      assert DstReads(c, n) == DstReads(c, n - 1) + (if c.NeedDst(c.endMask3) then 1 else 0);
    } else {
      assert DstReads(c, 1) == DstReads(c, 0) + (if c.NeedDst(c.endMask1) then 1 else 0);
    }
  }

  /** Where every blit ends, whatever overlaps: counters reloaded, addresses moved by one
      pitch a line, and exactly the accesses of `LineAccesses` on every line. */
  lemma BlitFootprint(c: Config, s0: Core)
    requires Fresh(c, s0)
    ensures var f := Hog(c, s0);
      && f.yCount == 0 && f.xCount == c.xCountReset
      && f.srcAddr == (if c.NeedSrc() then (s0.srcAddr + s0.yCount * SrcPitch(c)) % 0x1_0000_0000 else s0.srcAddr)
      && f.dstAddr == (s0.dstAddr + s0.yCount * DstPitch(c)) % 0x1_0000_0000
      && f.halftoneLine == LineAt(c, s0, s0.yCount)
      && |f.bus| == |s0.bus| + s0.yCount * LineAccesses(c)
  {
    hide Hog, LineAccesses, LineAt, Wrap, NeedsSrc;
    assert RegsAt(c, s0, s0, 0, 0) by { StartsAt(c, s0); }
    AccessesToTheEnd(c, s0, s0, 0, 0);
    NoAccesses(c);
    LineAccessesClosed(c);
    WrapIs(s0.srcAddr + s0.yCount * SrcPitch(c));
    WrapIs(s0.dstAddr + s0.yCount * DstPitch(c));
  }

  lemma WrapIs(a: int)
    ensures Wrap(a) == a % 0x1_0000_0000
  {
  }

  /** A blit that shares the bus meets the same specification, in however many passes, once
      the passes cover the accesses that its registers call for. */
  lemma SharedBlitMeetsSpecification(c: Config, s0: Core, quotas: seq<nat>)
    requires Fresh(c, s0) && Separate(c, s0)
    requires forall k :: 0 <= k < |quotas| ==> quotas[k] > 0
    requires Sum(quotas) >= s0.yCount * LineAccesses(c)
    ensures var r := RunPasses(c, s0, quotas); r.yCount == 0 && Blitted(c, s0, r.mem)
  {
    hide Fresh, Separate, Blitted, Hog, RunPasses, LineAccesses;
    assert c.Valid() && s0.Valid() && s0.yCount > 0 by { FreshIsValid(c, s0); }
    BlitFootprint(c, s0);
    BlitMeetsSpecification(c, s0);
    SuspensionIsTransparent(c, s0, quotas);
  }

  lemma FreshIsValid(c: Config, s0: Core)
    requires Fresh(c, s0)
    ensures c.Valid() && s0.Valid() && s0.yCount > 0
  {
  }

  /** The number of writes in a bus history. */
  function Writes(bus: seq<Access>): nat {
    if bus == [] then 0
    else Writes(bus[..|bus| - 1]) + (if bus[|bus| - 1].BusWrite? then 1 else 0)
  }

  /** The number of words a blit still has to write. */
  function WordsLeft(c: Config, s: Core): int {
    if s.yCount == 0 then 0 else (s.yCount - 1) * c.xCountReset + s.xCount
  }

  lemma MicroStepWrites(c: Config, s: Core)
    requires c.Valid() && s.Valid() && s.yCount > 0 && 0 < s.xCount <= c.xCountReset
    ensures var t := MicroStep(c, s);
      && 0 < t.xCount <= c.xCountReset
      && Writes(t.bus) == Writes(s.bus) + (if WriteIsNext(Prepare(c, s)) then 1 else 0)
      && WordsLeft(c, t) == WordsLeft(c, s) - (if WriteIsNext(Prepare(c, s)) then 1 else 0)
  {
    hide Prepare, DstWrite, NextWord, NextAccess;
    var t := MicroStep(c, s);
    OneAccess(c, s);
    assert t.bus[..|t.bus| - 1] == s.bus;
    var p := Prepare(c, s);
    PrepareFrame(c, s);
    if WriteIsNext(p) {
      assert t == NextWord(c, DstWrite(c, p)) by { WriteUnfolds(c, p); }
      DstWriteFrame(c, p);
      NextWordCounters(c, DstWrite(c, p));
      assert (s.yCount - 1) * c.xCountReset == (s.yCount - 2) * c.xCountReset + c.xCountReset;
    } else {
      ReadFrame(c, p);
    }
  }

  lemma WriteUnfolds(c: Config, p: Core)
    requires c.Valid() && p.Valid() && WriteIsNext(p)
    ensures NextAccess(c, p) == NextWord(c, DstWrite(c, p))
  {
  }

  /** From any point of a blit on, a hog pass writes exactly the words that are left. */
  lemma {:induction false} WritesAreWordsLeft(c: Config, s: Core)
    requires c.Valid() && s.Valid() && s.yCount > 0 && 0 < s.xCount <= c.xCountReset
    ensures Writes(Hog(c, s).bus) == Writes(s.bus) + (s.yCount - 1) * c.xCountReset + s.xCount
    decreases s.yCount, s.LineLeft(), ReadsLeft(c, s)
  {
    hide MicroStep, WriteIsNext, Prepare, ReadsLeft, Writes;
    Progress(c, s);
    MicroStepWrites(c, s);
    HogUnfolds(c, s);
    if MicroStep(c, s).yCount > 0 {
      WritesAreWordsLeft(c, MicroStep(c, s));
    }
  }

  lemma HogUnfolds(c: Config, s: Core)
    requires c.Valid() && s.Valid() && s.yCount > 0
    ensures var t := MicroStep(c, s); Hog(c, s) == if t.yCount == 0 then t else Hog(c, t)
  {
    hide MicroStep;
  }
}
