/** Word-level operations of the blitter: the 32-bit source shift register, the
    halftone operations (HOP) and the sixteen logic operations (LOP). */
module BlitterOps {
  /** A word on the bus and the content of the shift register.  The wrapping keeps the
      bit-vector arithmetic out of proofs that only move words around. */
  datatype Word = Word(bits: bv16)
  datatype Long = Long(bits: bv32)

  const ZERO := Word(0)
  const ALL_ONES := Word(0xFFFF)

  /** An end mask that lets the whole word through. */
  predicate IsFull(mask: Word) {
    mask.bits == 0xFFFF
  }

  /** Makes room in the shift register for the next source word. */
  function ShiftBuffer(backwards: bool, buffer: Long): Long {
    Long(ShiftBits(backwards, buffer.bits))
  }

  function ShiftBits(backwards: bool, buffer: bv32): bv32 {
    if backwards then buffer >> 16 else buffer << 16
  }

  /** Puts a fetched word into the half freed by `ShiftBuffer`. */
  function InsertWord(backwards: bool, buffer: Long, w: Word): Long {
    Long(InsertBits(backwards, buffer.bits, w.bits))
  }

  function InsertBits(backwards: bool, buffer: bv32, w: bv16): bv32 {
    if backwards then buffer | ((w as bv32) << 16) else buffer | (w as bv32)
  }

  /** The 16-bit window that the skew selects in the shift register. */
  function SourceRead(buffer: Long, skew: nat): Word
    requires skew < 16
  {
    Word(ReadBits(buffer.bits, skew as bv4))
  }

  function ReadBits(buffer: bv32, skew: bv4): bv16 {
    ((buffer >> skew) & 0xFFFF) as bv16
  }

  /** The shift register holding `older` and, fetched after it, `newer`. */
  function Joined(backwards: bool, older: Word, newer: Word): Long {
    Long(JoinedBits(backwards, older.bits, newer.bits))
  }

  function JoinedBits(backwards: bool, older: bv16, newer: bv16): bv32 {
    if backwards then ((newer as bv32) << 16) | (older as bv32)
    else ((older as bv32) << 16) | (newer as bv32)
  }

  /** The half of the shift register that was fetched last. */
  function Newest(backwards: bool, buffer: Long): Word {
    Word(NewestBits(backwards, buffer.bits))
  }

  function NewestBits(backwards: bool, buffer: bv32): bv16 {
    if backwards then (buffer >> 16) as bv16 else (buffer & 0xFFFF) as bv16
  }

  lemma ShiftInsertForward(b: bv32, w: bv16)
    ensures (b << 16) | (w as bv32) == ((((b & 0xFFFF) as bv16) as bv32) << 16) | (w as bv32)
  {
  }

  lemma ShiftInsertBackward(b: bv32, w: bv16)
    ensures (b >> 16) | ((w as bv32) << 16) == ((w as bv32) << 16) | (((b >> 16) as bv16) as bv32)
  {
  }

  lemma ShiftInsertBits(backwards: bool, b: bv32, w: bv16)
    ensures InsertBits(backwards, ShiftBits(backwards, b), w) == JoinedBits(backwards, NewestBits(backwards, b), w)
  {
    if backwards {
      calc {
        InsertBits(backwards, ShiftBits(backwards, b), w);
        (b >> 16) | ((w as bv32) << 16);
        { ShiftInsertBackward(b, w); }
        ((w as bv32) << 16) | (((b >> 16) as bv16) as bv32);
        JoinedBits(backwards, NewestBits(backwards, b), w);
      }
    } else {
      calc {
        InsertBits(backwards, ShiftBits(backwards, b), w);
        (b << 16) | (w as bv32);
        { ShiftInsertForward(b, w); }
        ((((b & 0xFFFF) as bv16) as bv32) << 16) | (w as bv32);
        JoinedBits(backwards, NewestBits(backwards, b), w);
      }
    }
  }

  /** Shifting and inserting forgets the older word and keeps the newer one. */
  lemma ShiftInsert(backwards: bool, buffer: Long, w: Word)
    ensures InsertWord(backwards, ShiftBuffer(backwards, buffer), w)
         == Joined(backwards, Newest(backwards, buffer), w)
  {
    hide InsertBits, ShiftBits, JoinedBits, NewestBits;
    ShiftInsertBits(backwards, buffer.bits, w.bits);
  }

  lemma NewestOfJoined(backwards: bool, older: Word, newer: Word)
    ensures Newest(backwards, Joined(backwards, older, newer)) == newer
  {
    var o, n := older.bits, newer.bits;
    if backwards {
      assert ((((n as bv32) << 16) | (o as bv32)) >> 16) as bv16 == n;
    } else {
      assert ((((o as bv32) << 16) | (n as bv32)) & 0xFFFF) as bv16 == n;
    }
  }

  function AndWord(a: Word, b: Word): Word { Word(a.bits & b.bits) }

  function HalftoneWord(smudge: bool, halftone: seq<Word>, line: nat, src: Word): Word
    requires |halftone| == 16 && line < 16
  {
    if smudge then halftone[LowNibble(src)] else halftone[line]
  }

  function LowNibble(w: Word): (n: nat)
    ensures n < 16
  {
    ((w.bits & 0xF) as bv4) as nat
  }

  function Hop(hop: nat, smudge: bool, halftone: seq<Word>, line: nat, src: Word): Word
    requires hop < 4 && |halftone| == 16 && line < 16
  {
    match hop
    case 0 => ALL_ONES
    case 1 => HalftoneWord(smudge, halftone, line, src)
    case 2 => src
    case _ => AndWord(src, HalftoneWord(smudge, halftone, line, src))
  }

  /** A halftone operation is a conjunction: bit 0 of its number asks for the halftone word and
      bit 1 for the source. */
  lemma HopIsConjunction(hop: nat, smudge: bool, halftone: seq<Word>, line: nat, src: Word)
    requires hop < 4 && |halftone| == 16 && line < 16
    ensures Hop(hop, smudge, halftone, line, src) ==
      AndWord(if hop / 2 == 1 then src else ALL_ONES,
              if hop % 2 == 1 then HalftoneWord(smudge, halftone, line, src) else ALL_ONES)
  {
    hide HalftoneWord, AndWord;
    OnesAreNeutral(HalftoneWord(smudge, halftone, line, src));
    OnesAreNeutral(src);
    OnesAreNeutral(ALL_ONES);
  }

  lemma OnesAreNeutral(w: Word)
    ensures AndWord(ALL_ONES, w) == w && AndWord(w, ALL_ONES) == w
  {
    OnesFirst(w.bits);
    OnesLast(w.bits);
  }

  lemma OnesFirst(b: bv16)
    ensures 0xFFFF & b == b
  {
  }

  lemma OnesLast(b: bv16)
    ensures b & 0xFFFF == b
  {
  }

  function Lop(lop: nat, src: Word, dst: Word): Word
    requires lop < 16
  {
    Word(LopBits(lop, src.bits, dst.bits))
  }

  function LopBits(lop: nat, s: bv16, d: bv16): bv16
    requires lop < 16
  {
    match lop
    case 0 => 0
    case 1 => s & d
    case 2 => s & !d
    case 3 => s
    case 4 => !s & d
    case 5 => d
    case 6 => s ^ d
    case 7 => s | d
    case 8 => !s & !d
    case 9 => !s ^ d
    case 10 => !d
    case 11 => s | !d
    case 12 => !s
    case 13 => !s | d
    case 14 => !s | !d
    case _ => 0xFFFF
  }

  /** The two columns of the LOP table that decide which bus reads are made. */
  predicate LopNeedsSrc(lop: nat) {
    lop !in {0, 5, 10, 15}
  }

  predicate LopNeedsDst(lop: nat) {
    lop !in {0, 3, 12, 15}
  }

  /** The source is read only when both the LOP and the HOP use it. */
  predicate NeedsSrc(lop: nat, hop: nat, smudge: bool) {
    LopNeedsSrc(lop) && (hop >= 2 || (hop == 1 && smudge))
  }

  /** The word written: outside the end mask the destination shows through. */
  function Merged(lopWord: Word, dst: Word, mask: Word): Word {
    Word((lopWord.bits & mask.bits) | (dst.bits & !mask.bits))
  }

  /** The two-input truth table with a given output for S=1,D=1, for S=1,D=0, for
      S=0,D=1 and for S=0,D=0, applied to all sixteen bits. */
  function TruthTable(b11: bool, b10: bool, b01: bool, b00: bool, s: bv16, d: bv16): bv16 {
    Row(b11, s & d) | Row(b10, s & !d) | Row(b01, !s & d) | Row(b00, !s & !d)
  }

  function Row(bit: bool, term: bv16): bv16 {
    if bit then term else 0
  }

  lemma TableRow0(s: bv16, d: bv16)
    ensures LopBits(0, s, d) == TruthTable(false, false, false, false, s, d)
  {}

  lemma TableRow1(s: bv16, d: bv16)
    ensures LopBits(1, s, d) == TruthTable(true, false, false, false, s, d)
  {}

  lemma TableRow2(s: bv16, d: bv16)
    ensures LopBits(2, s, d) == TruthTable(false, true, false, false, s, d)
  {}

  lemma TableRow3(s: bv16, d: bv16)
    ensures LopBits(3, s, d) == TruthTable(true, true, false, false, s, d)
  { calc { LopBits(3, s, d); s; (s & d) | (s & !d); TruthTable(true, true, false, false, s, d); } }

  lemma TableRow4(s: bv16, d: bv16)
    ensures LopBits(4, s, d) == TruthTable(false, false, true, false, s, d)
  {}

  lemma TableRow5(s: bv16, d: bv16)
    ensures LopBits(5, s, d) == TruthTable(true, false, true, false, s, d)
  { calc { LopBits(5, s, d); d; (s & d) | (!s & d); TruthTable(true, false, true, false, s, d); } }

  lemma XorOp(lop: nat, s: bv16, d: bv16)
    requires lop == 6
    ensures LopBits(lop, s, d) == s ^ d
  {
  }

  lemma XorRows(s: bv16, d: bv16)
    ensures s ^ d == (s & !d) | (!s & d)
  {
  }

  lemma XorTable(s: bv16, d: bv16)
    ensures TruthTable(false, true, true, false, s, d) == (s & !d) | (!s & d)
  {
  }

  lemma TableRow6(s: bv16, d: bv16)
    ensures LopBits(6, s, d) == TruthTable(false, true, true, false, s, d)
  {
    hide *;
    XorOp(6, s, d);
    XorRows(s, d);
    XorTable(s, d);
  }

  lemma OrOp(lop: nat, s: bv16, d: bv16)
    requires lop == 7
    ensures LopBits(lop, s, d) == s | d
  {
  }

  lemma OrRows(s: bv16, d: bv16)
    ensures s | d == (s & d) | (s & !d) | (!s & d)
  {
  }

  lemma OrTable(s: bv16, d: bv16)
    ensures TruthTable(true, true, true, false, s, d) == (s & d) | (s & !d) | (!s & d)
  {
  }

  lemma TableRow7(s: bv16, d: bv16)
    ensures LopBits(7, s, d) == TruthTable(true, true, true, false, s, d)
  {
    hide *;
    OrOp(7, s, d);
    OrRows(s, d);
    OrTable(s, d);
  }

  lemma TableRow8(s: bv16, d: bv16)
    ensures LopBits(8, s, d) == TruthTable(false, false, false, true, s, d)
  {}

  lemma TableRow9(s: bv16, d: bv16)
    ensures LopBits(9, s, d) == TruthTable(true, false, false, true, s, d)
  { calc { LopBits(9, s, d); !s ^ d; (s & d) | (!s & !d); TruthTable(true, false, false, true, s, d); } }

  lemma TableRowA(s: bv16, d: bv16)
    ensures LopBits(10, s, d) == TruthTable(false, true, false, true, s, d)
  { calc { LopBits(10, s, d); !d; (s & !d) | (!s & !d); TruthTable(false, true, false, true, s, d); } }

  lemma TableRowB(s: bv16, d: bv16)
    ensures LopBits(11, s, d) == TruthTable(true, true, false, true, s, d)
  { calc { LopBits(11, s, d); s | !d; (s & d) | (s & !d) | (!s & !d); TruthTable(true, true, false, true, s, d); } }

  lemma TableRowC(s: bv16, d: bv16)
    ensures LopBits(12, s, d) == TruthTable(false, false, true, true, s, d)
  { calc { LopBits(12, s, d); !s; (!s & d) | (!s & !d); TruthTable(false, false, true, true, s, d); } }

  lemma TableRowD(s: bv16, d: bv16)
    ensures LopBits(13, s, d) == TruthTable(true, false, true, true, s, d)
  { calc { LopBits(13, s, d); !s | d; (s & d) | (!s & d) | (!s & !d); TruthTable(true, false, true, true, s, d); } }

  lemma TableRowE(s: bv16, d: bv16)
    ensures LopBits(14, s, d) == TruthTable(false, true, true, true, s, d)
  { calc { LopBits(14, s, d); !s | !d; (s & !d) | (!s & d) | (!s & !d); TruthTable(false, true, true, true, s, d); } }

  lemma TableRowF(s: bv16, d: bv16)
    ensures LopBits(15, s, d) == TruthTable(true, true, true, true, s, d)
  {
    calc {
      LopBits(15, s, d);
      0xFFFF;
      (s & d) | (s & !d) | (!s & d) | (!s & !d);
      TruthTable(true, true, true, true, s, d);
    }
  }

  /** Operation `lop` computes the truth table that the bits of its own number spell out. */
  lemma LopIsTruthTable(lop: nat, s: bv16, d: bv16)
    requires lop < 16
    ensures LopBits(lop, s, d)
         == TruthTable(lop % 2 == 1, (lop / 2) % 2 == 1, (lop / 4) % 2 == 1, (lop / 8) % 2 == 1,
                       s, d)
  {
    match lop
    case 0 => TableRow0(s, d);
    case 1 => TableRow1(s, d);
    case 2 => TableRow2(s, d);
    case 3 => TableRow3(s, d);
    case 4 => TableRow4(s, d);
    case 5 => TableRow5(s, d);
    case 6 => TableRow6(s, d);
    case 7 => TableRow7(s, d);
    case 8 => TableRow8(s, d);
    case 9 => TableRow9(s, d);
    case 10 => TableRowA(s, d);
    case 11 => TableRowB(s, d);
    case 12 => TableRowC(s, d);
    case 13 => TableRowD(s, d);
    case 14 => TableRowE(s, d);
    case _ => TableRowF(s, d);
  }

  /** The columns of the table ask for exactly the operands that an operation depends on. */
  lemma NeedsAreExact(lop: nat)
    requires lop < 16
    ensures LopNeedsSrc(lop) <==>
      LopBits(lop, 0, 0) != LopBits(lop, 0xFFFF, 0) || LopBits(lop, 0, 0xFFFF) != LopBits(lop, 0xFFFF, 0xFFFF)
    ensures LopNeedsDst(lop) <==>
      LopBits(lop, 0, 0) != LopBits(lop, 0, 0xFFFF) || LopBits(lop, 0xFFFF, 0) != LopBits(lop, 0xFFFF, 0xFFFF)
  {
  }

  /** A source that is fetched matters: for some halftone words two source words give different
      results. */
  lemma NeededSrc(lop: nat, hop: nat, smudge: bool) returns (halftone: seq<Word>, dst: Word)
    requires lop < 16 && hop < 4 && NeedsSrc(lop, hop, smudge)
    ensures |halftone| == 16
    ensures Lop(lop, Hop(hop, smudge, halftone, 15, ZERO), dst)
         != Lop(lop, Hop(hop, smudge, halftone, 15, ALL_ONES), dst)
  {
    hide LopBits;
    NeedsAreExact(lop);
    halftone := [ZERO] + seq(15, _ => ALL_ONES);
    EndsOfHalftone();
    OnesAreNeutral(ZERO);
    OnesAreNeutral(ALL_ONES);
    dst := if LopBits(lop, 0, 0) != LopBits(lop, 0xFFFF, 0) then ZERO else ALL_ONES;
  }

  lemma EndsOfHalftone()
    ensures LowNibble(ZERO) == 0 && LowNibble(ALL_ONES) == 15
  {
  }

  /** A destination word that the table says is not needed has no influence. */
  lemma UnneededDst(lop: nat, src: Word, dst: Word, dst': Word)
    requires lop < 16 && !LopNeedsDst(lop)
    ensures Lop(lop, src, dst) == Lop(lop, src, dst')
  {
    hide LopBits;
    LopWithoutDst(lop, src.bits, dst.bits, dst'.bits);
  }

  lemma LopWithoutDst(lop: nat, s: bv16, d: bv16, d': bv16)
    requires lop < 16 && !LopNeedsDst(lop)
    ensures LopBits(lop, s, d) == LopBits(lop, s, d')
  {
  }

  lemma LopWithoutSrc(lop: nat, s: bv16, s': bv16, d: bv16)
    requires lop < 16 && !LopNeedsSrc(lop)
    ensures LopBits(lop, s, d) == LopBits(lop, s', d)
  {
  }

  /** A source window that is not fetched has no influence. */
  lemma UnneededSrc(lop: nat, hop: nat, smudge: bool, halftone: seq<Word>, line: nat, w: Word, w': Word, dst: Word)
    requires lop < 16 && hop < 4 && |halftone| == 16 && line < 16
    requires !NeedsSrc(lop, hop, smudge)
    ensures Lop(lop, Hop(hop, smudge, halftone, line, w), dst) == Lop(lop, Hop(hop, smudge, halftone, line, w'), dst)
  {
    hide LopBits;
    if LopNeedsSrc(lop) {
      assert Hop(hop, smudge, halftone, line, w) == Hop(hop, smudge, halftone, line, w');
    } else {
      hide Hop;
      LopWithoutSrc(lop, Hop(hop, smudge, halftone, line, w).bits, Hop(hop, smudge, halftone, line, w').bits, dst.bits);
    }
  }

  /** A full end mask makes the read-modify-write a plain write. */
  lemma FullMask(lopWord: Word, dst: Word, mask: Word)
    requires IsFull(mask)
    ensures Merged(lopWord, dst, mask) == lopWord
  {
    var l, d := lopWord.bits, dst.bits;
    assert (l & 0xFFFF) | (d & !0xFFFF) == l;
  }
}
