/** The words of a blit, bit by bit. */
module BlitterPixels {
  import opened BlitterOps
  import opened BlitterCore
  import opened BlitterSharing
  import opened BlitterWord
  import opened BlitterSpec
  import opened BlitterLoop
  import opened BlitterBits

  /** The end mask of word `x` of a line; the first word of a line may be its last as well. */
  function EndMask(c: Config, x: nat): Word {
    if x == 0 then c.endMask1 else if x == c.xCountReset - 1 then c.endMask3 else c.endMask2
  }

  lemma MaskIsEndMask(c: Config, x: nat)
    requires x < c.xCountReset
    ensures MaskAt(c, x) == EndMask(c, x)
  {
  }

  /** The two source words under the window, left to right. */
  function Source(c: Config, older: Word, newer: Word): Word
    requires c.Valid()
  {
    if c.srcXIncr < 0 then Window(newer, older, c.skew) else Window(older, newer, c.skew)
  }

  function Digit(bit: bool, value: nat): nat { if bit then value else 0 }

  /** The number in the last four bits of a word. */
  function LastFour(w: Word): nat {
    Digit(Bit(w, 12), 8) + Digit(Bit(w, 13), 4) + Digit(Bit(w, 14), 2) + Digit(Bit(w, 15), 1)
  }

  lemma LastFourIsNibble(w: Word)
    ensures LastFour(w) == LowNibble(w)
  {
    var b, n := w.bits, (w.bits & 0xF) as bv4;
    assert (n & 8 != 0) == (b & 8 != 0);
    assert (n & 4 != 0) == (b & 4 != 0);
    assert (n & 2 != 0) == (b & 2 != 0);
    assert (n & 1 != 0) == (b & 1 != 0);
    NibbleDigits(n);
  }

  lemma NibbleDigits(n: bv4)
    ensures n as nat == Digit(n & 8 != 0, 8) + Digit(n & 4 != 0, 4) + Digit(n & 2 != 0, 2) + Digit(n & 1 != 0, 1)
  {
  }

  /** The halftone word of a line, or under smudge the one that the last four source bits select. */
  function Halftone(c: Config, line: nat, source: Word): Word
    requires c.Valid() && line < 16
  {
    c.halftone[if c.smudge then LastFour(source) else line]
  }

  /** Bit `i` of word `x` of a line: outside the end mask it stays; inside it is what the logic
      operation makes of the old bit and of the source bit, the halftone bit, or both. */
  predicate PixelIs(c: Config, older: Word, newer: Word, line: nat, was: Word, x: nat, i: nat, bit: bool)
    requires c.Valid() && line < 16 && i < 16
  {
    var source := Source(c, older, newer);
    var drawn := (c.hop / 2 == 1 ==> Bit(source, i)) && (c.hop % 2 == 1 ==> Bit(Halftone(c, line, source), i));
    bit == if Bit(EndMask(c, x), i) then Answer(c.lop, drawn, Bit(was, i)) else Bit(was, i)
  }

  lemma HopAt(c: Config, line: nat, source: Word, p: bv16)
    requires c.Valid() && line < 16 && OneBit(p)
    ensures Has(Hop(c.hop, c.smudge, c.halftone, line, source).bits, p) <==>
      (c.hop / 2 == 1 ==> Has(source.bits, p)) && (c.hop % 2 == 1 ==> Has(Halftone(c, line, source).bits, p))
  {
    hide Has, OneBit, Hop, AndWord, LastFour, LowNibble;
    var halftone := Halftone(c, line, source);
    LastFourIsNibble(source);
    HopIsConjunction(c.hop, c.smudge, c.halftone, line, source);
    OnesAt(p);
    AndWordAt(if c.hop / 2 == 1 then source else ALL_ONES, if c.hop % 2 == 1 then halftone else ALL_ONES, p);
  }

  lemma AndWordAt(a: Word, b: Word, p: bv16)
    requires OneBit(p)
    ensures Has(AndWord(a, b).bits, p) <==> Has(a.bits, p) && Has(b.bits, p)
  {
    hide OneBit, Has;
    AndAt(a.bits, b.bits, p);
  }

  /** The formula for a word, bit by bit. */
  lemma FormulaInPixels(c: Config, older: Word, newer: Word, line: nat, was: Word, x: nat, i: nat)
    requires c.Valid() && line < 16 && i < 16 && x < c.xCountReset
    ensures var window := SourceRead(Joined(c.Backwards(), older, newer), c.skew);
      var w := Merged(Lop(c.lop, Hop(c.hop, c.smudge, c.halftone, line, window), was), was, MaskAt(c, x));
      PixelIs(c, older, newer, line, was, x, i, Bit(w, i))
  {
    hide Has, OneBit, Place, Hop, LopBits, SourceRead, Joined, Window, Answer, Halftone, MaskAt, EndMask, Merged;
    var source := Source(c, older, newer);
    SourceWindow(c.Backwards(), older, newer, c.skew);
    MaskIsEndMask(c, x);
    PlaceIsOneBit(i);
    var hop := Hop(c.hop, c.smudge, c.halftone, line, source);
    HopAt(c, line, source, Place(i));
    LopAt(c.lop, hop.bits, was.bits, Place(i));
    MergedWordAt(Lop(c.lop, hop, was), was, EndMask(c, x), Place(i));
  }

  lemma MergedWordAt(l: Word, d: Word, m: Word, p: bv16)
    requires OneBit(p)
    ensures Has(Merged(l, d, m).bits, p) <==> if Has(m.bits, p) then Has(l.bits, p) else Has(d.bits, p)
  {
    hide OneBit, Has;
    MergedAt(l.bits, d.bits, m.bits, p);
  }

  /** Every bit of every word of a blit. */
  lemma BlittedPixels(c: Config, s0: Core, m: Memory, y: nat, x: nat, i: nat)
    requires Fresh(c, s0) && Blitted(c, s0, m)
    requires InBlit(c, s0, y, x) && DstAt(c, s0, y, x) in m && i < 16
    ensures var a := DstAt(c, s0, y, x);
      a in s0.mem &&
      PixelIs(c, Older(c, s0, y, x), Newer(c, s0, y, x), LineAt(c, s0, y), s0.mem[a], x, i, Bit(m[a], i))
  {
    hide DstAt, LineAt, PixelIs, Bit, Joined, SourceRead, Older, Newer, Merged, Lop, Hop;
    FormulaInPixels(c, Older(c, s0, y, x), Newer(c, s0, y, x), LineAt(c, s0, y), DstWord(c, s0, y, x), x, i);
  }

  /** The same for the loops that read memory as it is. */
  lemma LoopPixels(c: Config, s: Core, l: Loop, y: nat, x: nat, i: nat)
    requires Fresh(c, s) && x < c.xCountReset && DstAt(c, s, y, x) in l.mem && i < 16
    ensures var a, after := DstAt(c, s, y, x), LoopWord(c, s, l, y, x).mem;
      && after.Keys == l.mem.Keys && (forall b :: b in l.mem && b != a ==> after[b] == l.mem[b])
      && PixelIs(c, OlderNow(c, s, l, y, x), NewerNow(c, s, l, y, x), LineAt(c, s, y), l.mem[a], x, i, Bit(after[a], i))
  {
    hide DstAt, LineAt, PixelIs, Bit, Joined, SourceRead, OlderNow, NewerNow, Merged, Lop, Hop, BusTail, Fetched;
    FormulaInPixels(c, OlderNow(c, s, l, y, x), NewerNow(c, s, l, y, x), LineAt(c, s, y), DstNow(c, s, l, y, x), x, i);
  }

  /** The whole blit, in hog mode or in passes, bit by bit. */
  lemma BlitDrawsPixels(c: Config, s0: Core, quotas: seq<nat>, y: nat, x: nat, i: nat)
    requires Fresh(c, s0) && Separate(c, s0) && forall k :: 0 <= k < |quotas| ==> quotas[k] > 0
    requires Sum(quotas) >= s0.yCount * LineAccesses(c)
    requires InBlit(c, s0, y, x) && DstAt(c, s0, y, x) in s0.mem && i < 16
    ensures var a, hog, shared := DstAt(c, s0, y, x), Hog(c, s0).mem, RunPasses(c, s0, quotas).mem;
      && a in hog && shared == hog
      && PixelIs(c, Older(c, s0, y, x), Newer(c, s0, y, x), LineAt(c, s0, y), s0.mem[a], x, i, Bit(hog[a], i))
  {
    hide Hog, RunPasses, DstAt, LineAt, PixelIs, Bit, Separate, LineAccesses, Older, Newer, Fresh;
    FreshIsValid(c, s0);
    BlitMeetsSpecification(c, s0);
    BlittedPixels(c, s0, Hog(c, s0).mem, y, x, i);
    BlitIsNestedLoops(c, s0);
    SharedBlitIsNestedLoops(c, s0, quotas);
  }
}
