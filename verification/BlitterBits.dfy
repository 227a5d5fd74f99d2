/** What a blit does to the single bits of its words. */
module BlitterBits {
  import opened BlitterOps

  /** The bit at place `i`, counted from the left. */
  function Place(i: nat): bv16
    requires i < 16
  {
    match i
    case 0 => 0x8000
    case 1 => 0x4000
    case 2 => 0x2000
    case 3 => 0x1000
    case 4 => 0x0800
    case 5 => 0x0400
    case 6 => 0x0200
    case 7 => 0x0100
    case 8 => 0x0080
    case 9 => 0x0040
    case 10 => 0x0020
    case 11 => 0x0010
    case 12 => 0x0008
    case 13 => 0x0004
    case 14 => 0x0002
    case _ => 0x0001
  }

  /** The leftmost place is the highest bit, and each place is half of the one before. */
  lemma PlacesDescend(i: nat)
    requires i < 16
    ensures Place(0) == 0x8000 && (i < 15 ==> Place(i) == Place(i + 1) << 1)
  {
  }

  lemma PlaceIsOneBit(i: nat)
    requires i < 16
    ensures OneBit(Place(i))
  {
  }

  predicate OneBit(p: bv16) { p != 0 && p & (p - 1) == 0 }

  predicate Has(x: bv16, p: bv16) { x & p != 0 }

  /** Bit `i` of a word, counted from the left. */
  predicate Bit(w: Word, i: nat)
    requires i < 16
  {
    Has(w.bits, Place(i))
  }

  function And(a: bv16, b: bv16): bv16 { a & b }
  function Or(a: bv16, b: bv16): bv16 { a | b }
  function Not(a: bv16): bv16 { !a }

  /** One bit of a word is all of it or nothing. */
  lemma AllOrNothing(x: bv16, p: bv16)
    requires OneBit(p)
    ensures x & p == 0 || x & p == p
  {
  }

  lemma AndOver(a: bv16, b: bv16, p: bv16)
    ensures (a & b) & p == (a & p) & (b & p)
  {
  }

  lemma OrOver(a: bv16, b: bv16, p: bv16)
    ensures (a | b) & p == (a & p) | (b & p)
  {
  }

  lemma AndBit(a: bv16, b: bv16, p: bv16)
    requires OneBit(p)
    ensures (a & b) & p != 0 <==> a & p != 0 && b & p != 0
  {
    AllOrNothing(a, p);
    AllOrNothing(b, p);
    AndOver(a, b, p);
    assert p & p == p;
  }

  lemma OrBit(a: bv16, b: bv16, p: bv16)
    requires OneBit(p)
    ensures (a | b) & p != 0 <==> a & p != 0 || b & p != 0
  {
    AllOrNothing(a, p);
    AllOrNothing(b, p);
    OrOver(a, b, p);
  }

  lemma AndAt(a: bv16, b: bv16, p: bv16)
    requires OneBit(p)
    ensures Has(And(a, b), p) <==> Has(a, p) && Has(b, p)
  {
    AndBit(a, b, p);
  }

  lemma OrAt(a: bv16, b: bv16, p: bv16)
    requires OneBit(p)
    ensures Has(Or(a, b), p) <==> Has(a, p) || Has(b, p)
  {
    OrBit(a, b, p);
  }

  lemma NotAt(a: bv16, p: bv16)
    requires OneBit(p)
    ensures Has(Not(a), p) <==> !Has(a, p)
  {
  }

  lemma RowAt(bit: bool, term: bv16, p: bv16)
    ensures Has(Row(bit, term), p) <==> bit && Has(term, p)
  {
  }

  lemma OnesAt(p: bv16)
    requires OneBit(p)
    ensures Has(0xFFFF, p)
  {
  }

  /** What logic operation `lop` makes of a source and a destination bit: the bits of its number
      answer for 1,1, for 1,0, for 0,1 and for 0,0. */
  function Answer(lop: nat, src: bool, dst: bool): bool {
    var row := if src then (if dst then 1 else 2) else (if dst then 4 else 8);
    lop / row % 2 == 1
  }

  lemma TermsOf(s: bv16, d: bv16)
    ensures And(s, d) == s & d && And(s, Not(d)) == s & !d
    ensures And(Not(s), d) == !s & d && And(Not(s), Not(d)) == !s & !d
  {
  }

  lemma OrOfFour(a: bv16, b: bv16, c: bv16, d: bv16)
    ensures Or(Or(Or(a, b), c), d) == a | b | c | d
  {
  }

  lemma TableInRows(b11: bool, b10: bool, b01: bool, b00: bool, s: bv16, d: bv16)
    ensures TruthTable(b11, b10, b01, b00, s, d) ==
      Or(Or(Or(Row(b11, And(s, d)), Row(b10, And(s, Not(d)))), Row(b01, And(Not(s), d))), Row(b00, And(Not(s), Not(d))))
  {
    hide Row, And, Not, Or;
    TermsOf(s, d);
    OrOfFour(Row(b11, s & d), Row(b10, s & !d), Row(b01, !s & d), Row(b00, !s & !d));
  }

  lemma TableAt(b11: bool, b10: bool, b01: bool, b00: bool, s: bv16, d: bv16, p: bv16)
    requires OneBit(p)
    ensures Has(TruthTable(b11, b10, b01, b00, s, d), p) <==>
      if Has(s, p) then (if Has(d, p) then b11 else b10) else (if Has(d, p) then b01 else b00)
  {
    hide *;
    var t1, t2, t3, t4 := And(s, d), And(s, Not(d)), And(Not(s), d), And(Not(s), Not(d));
    TableInRows(b11, b10, b01, b00, s, d);
    OrAt(Or(Or(Row(b11, t1), Row(b10, t2)), Row(b01, t3)), Row(b00, t4), p);
    OrAt(Or(Row(b11, t1), Row(b10, t2)), Row(b01, t3), p);
    OrAt(Row(b11, t1), Row(b10, t2), p);
    RowAt(b11, t1, p);
    RowAt(b10, t2, p);
    RowAt(b01, t3, p);
    RowAt(b00, t4, p);
    AndAt(s, d, p);
    AndAt(s, Not(d), p);
    AndAt(Not(s), d, p);
    AndAt(Not(s), Not(d), p);
    NotAt(s, p);
    NotAt(d, p);
  }

  lemma LopAt(lop: nat, s: bv16, d: bv16, p: bv16)
    requires lop < 16 && OneBit(p)
    ensures Has(LopBits(lop, s, d), p) <==> Answer(lop, Has(s, p), Has(d, p))
  {
    hide LopBits, TruthTable, Has, OneBit;
    LopIsTruthTable(lop, s, d);
    TableAt(lop % 2 == 1, lop / 2 % 2 == 1, lop / 4 % 2 == 1, lop / 8 % 2 == 1, s, d, p);
  }

  lemma MergedInTerms(l: bv16, d: bv16, m: bv16)
    ensures (l & m) | (d & !m) == Or(And(l, m), And(d, Not(m)))
  {
  }

  lemma MergedAt(l: bv16, d: bv16, m: bv16, p: bv16)
    requires OneBit(p)
    ensures Has((l & m) | (d & !m), p) <==> if Has(m, p) then Has(l, p) else Has(d, p)
  {
    hide *;
    MergedInTerms(l, d, m);
    OrAt(And(l, m), And(d, Not(m)), p);
    AndAt(l, m, p);
    AndAt(d, Not(m), p);
    NotAt(m, p);
  }

  /** Two words side by side, seen through a window of one word that is `skew` bits from the right. */
  function Window(left: Word, right: Word, skew: nat): Word
    requires skew < 16
  {
    Word(WindowBits(left.bits, right.bits, skew as bv4))
  }

  function WindowBits(left: bv16, right: bv16, skew: bv4): bv16 {
    (left << (16 - (skew as bv5))) | (right >> skew)
  }

  function Pair(left: bv16, right: bv16): bv32 { ((left as bv32) << 16) | (right as bv32) }

  lemma ShiftRow(left: bv16, right: bv16, skew: bv4)
    ensures (((((left as bv32) << 16) | (right as bv32)) >> skew) & 0xFFFF) as bv16
         == (left << (16 - (skew as bv5))) | (right >> skew)
  {
  }

  lemma PairShift(left: bv16, right: bv16, skew: bv4)
    ensures ReadBits(Pair(left, right), skew) == WindowBits(left, right, skew)
  {
    calc {
      ReadBits(Pair(left, right), skew);
      ((Pair(left, right) >> skew) & 0xFFFF) as bv16;
      (((((left as bv32) << 16) | (right as bv32)) >> skew) & 0xFFFF) as bv16;
      { ShiftRow(left, right, skew); }
      (left << (16 - (skew as bv5))) | (right >> skew);
      WindowBits(left, right, skew);
    }
  }

  lemma PairWindow(left: bv16, right: bv16, skew: nat)
    requires skew < 16
    ensures SourceRead(Long(Pair(left, right)), skew) == Window(Word(left), Word(right), skew)
  {
    hide Pair, WindowBits, ReadBits;
    PairShift(left, right, skew as bv4);
  }

  lemma JoinedIsPair(backwards: bool, older: bv16, newer: bv16)
    ensures JoinedBits(backwards, older, newer) == if backwards then Pair(newer, older) else Pair(older, newer)
  {
  }

  /** The source window of the blitter: the word fetched first is on the left, or on the right when
      the source runs backwards. */
  lemma SourceWindow(backwards: bool, older: Word, newer: Word, skew: nat)
    requires skew < 16
    ensures SourceRead(Joined(backwards, older, newer), skew) ==
      if backwards then Window(newer, older, skew) else Window(older, newer, skew)
  {
    hide SourceRead, Window, JoinedBits, Pair;
    JoinedIsPair(backwards, older.bits, newer.bits);
    PairWindow(older.bits, newer.bits, skew);
    PairWindow(newer.bits, older.bits, skew);
  }
}
