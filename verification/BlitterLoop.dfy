/** Blits whose source and destination may overlap: the same two nested loops, reading memory as
    the words before have left it. */
module BlitterLoop {
  import opened BlitterOps
  import opened BlitterCore
  import opened BlitterSharing
  import opened BlitterWord
  import opened BlitterSpec

  /** What the loops carry from word to word: memory, the source word fetched last, and the word
      that was on the bus last. */
  datatype Loop = Loop(mem: Memory, latest: Word, bus: Word)

  function SrcNow(c: Config, s: Core, l: Loop, y: nat, i: nat): Word { ReadWord(l.mem, SrcAt(c, s, y, i)) }
  function DstNow(c: Config, s: Core, l: Loop, y: nat, x: nat): Word { ReadWord(l.mem, DstAt(c, s, y, x)) }

  /** The newest source word once word `x` of line `y` has made its fetches. */
  function Fetched(c: Config, s: Core, l: Loop, y: nat, x: nat): Word {
    if DoesFetch(c, x) then SrcNow(c, s, l, y, Fx(c) + x)
    else if DoesFxsr(c, x) then SrcNow(c, s, l, y, 0)
    else l.latest
  }

  /** The word on the bus before the write. */
  function BusNow(c: Config, s: Core, l: Loop, y: nat, x: nat): Word
    requires x < c.xCountReset
  {
    if DoesDstRead(c, x) then DstNow(c, s, l, y, x)
    else if DoesFetch(c, x) || DoesFxsr(c, x) then Fetched(c, s, l, y, x)
    else l.bus
  }

  function OlderNow(c: Config, s: Core, l: Loop, y: nat, x: nat): Word {
    if BusTail(c, x) then Fetched(c, s, l, y, x)
    else if x == 0 && c.fxsr then SrcNow(c, s, l, y, 0)
    else l.latest
  }

  function NewerNow(c: Config, s: Core, l: Loop, y: nat, x: nat): Word
    requires x < c.xCountReset
  {
    if BusTail(c, x) then BusNow(c, s, l, y, x) else SrcNow(c, s, l, y, Fx(c) + x)
  }

  /** The word that the formula gives for the memory of the moment. */
  function WordNow(c: Config, s: Core, l: Loop, y: nat, x: nat): Word
    requires Fresh(c, s) && x < c.xCountReset
  {
    var window := SourceRead(Joined(c.Backwards(), OlderNow(c, s, l, y, x), NewerNow(c, s, l, y, x)), c.skew);
    var dst := DstNow(c, s, l, y, x);
    Merged(Lop(c.lop, Hop(c.hop, c.smudge, c.halftone, LineAt(c, s, y), window), dst), dst, MaskAt(c, x))
  }

  function LoopWord(c: Config, s: Core, l: Loop, y: nat, x: nat): Loop
    requires Fresh(c, s) && x < c.xCountReset
  {
    var w := WordNow(c, s, l, y, x);
    Loop(WriteWord(l.mem, DstAt(c, s, y, x), w), if BusTail(c, x) then w else Fetched(c, s, l, y, x), w)
  }

  /** The loops from word `x` of line `y` on. */
  function Loops(c: Config, s: Core, l: Loop, y: nat, x: nat): Loop
    requires Fresh(c, s) && x < c.xCountReset
    decreases s.yCount - y, c.xCountReset - x
  {
    if y >= s.yCount then l else Loops(c, s, LoopWord(c, s, l, y, x), NextY(c, y, x), NextX(c, x))
  }

  function LoopStart(c: Config, s: Core): Loop {
    Loop(s.mem, Newest(c.Backwards(), s.buffer), s.busWord)
  }

  /** Engine and loops at the same word. */
  ghost predicate InStep(c: Config, s0: Core, s: Core, l: Loop, y: nat, x: nat)
    requires Fresh(c, s0)
  {
    RegsAt(c, s0, s, y, x) && s.mem == l.mem && s.busWord == l.bus &&
        (c.NeedSrc() ==> Newest(c.Backwards(), s.buffer) == l.latest)
  }

  /** What the latches hold before the write, in terms of the loops. */
  lemma LatchesNow(c: Config, s0: Core, s: Core, l: Loop, y: nat, x: nat)
    requires Fresh(c, s0) && InStep(c, s0, s, l, y, x)
    ensures var h := AtWrite(c, s, x);
      && (DoesDstRead(c, x) ==> h.dstWord == DstNow(c, s0, l, y, x))
      && h.busWord == BusNow(c, s0, l, y, x)
      && (c.NeedSrc() ==> h.buffer == Joined(c.Backwards(), OlderNow(c, s0, l, y, x), NewerNow(c, s0, l, y, x)))
  {
    hide SrcAt, DstAt, Push, Joined, Newest, Wrap, ReadWord, Config.NeedDst, LineAt;
    NextSrcInLine(c, s0, y, 0);
    var w1 := ReadWord(s.mem, s.srcAddr);
    var w2 := SrcNow(c, s0, l, y, Fx(c) + x);
    var b1 := if DoesFxsr(c, x) then Push(c, s.buffer, w1) else s.buffer;
    PushTwo(c, s.buffer, w1, w2);
    PushTwo(c, s.buffer, w1, BusNow(c, s0, l, y, x));
    PushTwo(c, b1, w2, BusNow(c, s0, l, y, x));
  }

  lemma WrittenNow(c: Config, s0: Core, s: Core, l: Loop, y: nat, x: nat)
    requires Fresh(c, s0) && InStep(c, s0, s, l, y, x) && y < s0.yCount
    ensures Written(c, AtWrite(c, s, x), s.halftoneLine, MaskAt(c, x)) == WordNow(c, s0, l, y, x)
  {
    hide SrcAt, DstAt, AtWrite, Joined, OlderNow, NewerNow, ReadWord, SourceRead, Hop, Lop, Merged, IsFull, LopNeedsDst,
         NeedsSrc, LineAt;
    RegsHere(c, s0, s, y, x);
    LatchesNow(c, s0, s, l, y, x);
    var h, mask, d := AtWrite(c, s, x), MaskAt(c, x), DstNow(c, s0, l, y, x);
    var window := SourceRead(Joined(c.Backwards(), OlderNow(c, s0, l, y, x), NewerNow(c, s0, l, y, x)), c.skew);
    if !c.NeedSrc() {
      UnneededSrc(c.lop, c.hop, c.smudge, c.halftone, s.halftoneLine, window, SourceRead(h.buffer, c.skew), h.dstWord);
    }
    var hop := Hop(c.hop, c.smudge, c.halftone, s.halftoneLine, window);
    if !c.NeedDst(mask) {
      UnneededDst(c.lop, hop, d, h.dstWord);
      FullMask(Lop(c.lop, hop, d), d, mask);
    } else if IsFull(mask) {
      FullMask(Lop(c.lop, hop, d), d, mask);
    }
  }

  lemma LatestMoves(c: Config, s0: Core, s: Core, l: Loop, y: nat, x: nat)
    requires Fresh(c, s0) && InStep(c, s0, s, l, y, x) && y < s0.yCount && c.NeedSrc()
    ensures Newest(c.Backwards(), FullWord(c, s).buffer) == LoopWord(c, s0, l, y, x).latest
  {
    hide FullWord, RegsAt, Written, AtWrite, Joined, Newest, Push, ReadWord, WriteWord, SrcAt, DstAt, WordNow, NeedsSrc,
         Config.NeedDst, LineAt;
    assert x < c.xCountReset by { RegsHere(c, s0, s, y, x); }
    var w := WordNow(c, s0, l, y, x);
    WordWrite(c, s0, s, y, x);
    WrittenNow(c, s0, s, l, y, x);
    LatchesNow(c, s0, s, l, y, x);
    PushTwo(c, AtWrite(c, s, x).buffer, w, w);
    NewestOfJoined(c.Backwards(), OlderNow(c, s0, l, y, x), NewerNow(c, s0, l, y, x));
  }

  lemma WordStaysInStep(c: Config, s0: Core, s: Core, l: Loop, y: nat, x: nat)
    requires Fresh(c, s0) && InStep(c, s0, s, l, y, x) && y < s0.yCount
    ensures InStep(c, s0, FullWord(c, s), LoopWord(c, s0, l, y, x), NextY(c, y, x), NextX(c, x))
  {
    hide FullWord, RegsAt, Written, AtWrite, Newest, WordNow, WriteWord, DstAt, NeedsSrc, Fetched, BusTail;
    assert x < c.xCountReset && s.dstAddr == DstAt(c, s0, y, x) by { RegsHere(c, s0, s, y, x); }
    WordRegs(c, s0, s, y, x);
    WordWrite(c, s0, s, y, x);
    WrittenNow(c, s0, s, l, y, x);
    if c.NeedSrc() {
      LatestMoves(c, s0, s, l, y, x);
    }
  }

  lemma {:induction false} LoopsToTheEnd(c: Config, s0: Core, s: Core, l: Loop, y: nat, x: nat)
    requires Fresh(c, s0) && InStep(c, s0, s, l, y, x) && y < s0.yCount && x < c.xCountReset
    ensures s.Valid() && s.yCount > 0 && Hog(c, s).mem == Loops(c, s0, l, y, x).mem
    decreases s0.yCount - y, c.xCountReset - x
  {
    hide FullWord, Hog, RegsAt, LoopWord, Newest, NeedsSrc;
    CountersHere(c, s0, s, y, x);
    HogIsWords(c, s);
    WordStaysInStep(c, s0, s, l, y, x);
    var t, m := FullWord(c, s), LoopWord(c, s0, l, y, x);
    var yn, xn := NextY(c, y, x), NextX(c, x);
    CountersHere(c, s0, t, yn, xn);
    if t.yCount > 0 {
      LoopsToTheEnd(c, s0, t, m, yn, xn);
    } else {
      assert Loops(c, s0, m, yn, xn) == m;
    }
  }

  /** For every register setup, overlapping or not, a blit leaves the memory of the two nested
      loops that read memory as it is at each word. */
  lemma BlitIsNestedLoops(c: Config, s0: Core)
    requires Fresh(c, s0)
    ensures Hog(c, s0).mem == Loops(c, s0, LoopStart(c, s0), 0, 0).mem
  {
    hide Hog, Loops, Newest;
    LoopsStart(c, s0);
    LoopsToTheEnd(c, s0, s0, LoopStart(c, s0), 0, 0);
  }

  lemma LoopsStart(c: Config, s0: Core)
    requires Fresh(c, s0)
    ensures c.xCountReset > 0 && s0.yCount > 0 && InStep(c, s0, s0, LoopStart(c, s0), 0, 0)
  {
    hide Output, Newest;
    StartsAt(c, s0);
  }

  /** The same for a blit that shares the bus, in however many passes, once the passes cover the
      accesses that its registers call for. */
  lemma SharedBlitIsNestedLoops(c: Config, s0: Core, quotas: seq<nat>)
    requires Fresh(c, s0) && forall k :: 0 <= k < |quotas| ==> quotas[k] > 0
    requires Sum(quotas) >= s0.yCount * LineAccesses(c)
    ensures var r := RunPasses(c, s0, quotas);
      r.yCount == 0 && r.mem == Loops(c, s0, LoopStart(c, s0), 0, 0).mem
  {
    hide Fresh, Hog, Loops, RunPasses, LineAccesses;
    FreshIsValid(c, s0);
    LoopsStart(c, s0);
    BlitFootprint(c, s0);
    BlitIsNestedLoops(c, s0);
    SuspensionIsTransparent(c, s0, quotas);
  }
}
