/** Conversion of the screen from Atari bitplanes to one colour per pixel. */
module ConvGen {
  import opened BlitterOps

  /** The words of sixteen pixels, one per plane; a missing plane is zero. */
  datatype Planes = Planes(p0: Word, p1: Word, p2: Word, p3: Word, p4: Word, p5: Word, p6: Word, p7: Word)

  /** The number of a colour in the palette. */
  datatype Index = Index(bits: bv8)

  /** The four double words that the conversion works on. */
  datatype Quad = Quad(a: bv32, b: bv32, c: bv32, d: bv32)

  const NOTHING := Index(0)

  // The meaning of the planes: plane k holds bit k of every pixel, leftmost pixel in bit 15.

  predicate PlaneBit(w: Word, i: nat)
    requires i < 16
  {
    w.bits & (0x8000 >> i) != 0
  }

  function Chunky(p: Planes, i: nat): Index
    requires i < 16
  {
    Index((if PlaneBit(p.p0, i) then 0x01 else 0) | (if PlaneBit(p.p1, i) then 0x02 else 0) |
          (if PlaneBit(p.p2, i) then 0x04 else 0) | (if PlaneBit(p.p3, i) then 0x08 else 0) |
          (if PlaneBit(p.p4, i) then 0x10 else 0) | (if PlaneBit(p.p5, i) then 0x20 else 0) |
          (if PlaneBit(p.p6, i) then 0x40 else 0) | (if PlaneBit(p.p7, i) then 0x80 else 0))
  }

  // The conversion: planes are loaded in pairs, in the byte order of the host, and mixed in stages.

  function Swapped(w: bv16): bv16 {
    (w >> 8) | (w << 8)
  }

  function LoadPair(bigEndian: bool, first: Word, second: Word): bv32 {
    if bigEndian then ((first.bits as bv32) << 16) | (second.bits as bv32)
    else (Swapped(first.bits) as bv32) | ((Swapped(second.bits) as bv32) << 16)
  }

  function Load(bigEndian: bool, p: Planes): Quad {
    Quad(LoadPair(bigEndian, p.p6, p.p7), LoadPair(bigEndian, p.p4, p.p5),
         LoadPair(bigEndian, p.p2, p.p3), LoadPair(bigEndian, p.p0, p.p1))
  }

  // Two double words exchange nibbles, or pairs of bits.

  function High4(x: bv32, y: bv32): bv32 {
    (x & 0xf0f0f0f0) | ((y & 0xf0f0f0f0) >> 4)
  }

  function Low4(x: bv32, y: bv32): bv32 {
    ((x & 0x0f0f0f0f) << 4) | (y & 0x0f0f0f0f)
  }

  function High2(x: bv32, y: bv32): bv32 {
    (x & 0xcccccccc) | ((y & 0xcccccccc) >> 2)
  }

  function Low2(x: bv32, y: bv32): bv32 {
    ((x & 0x33333333) << 2) | (y & 0x33333333)
  }

  function Nibbles(q: Quad): Quad {
    Quad(High4(q.a, q.c), High4(q.b, q.d), Low4(q.a, q.c), Low4(q.b, q.d))
  }

  function Crumbs(q: Quad): Quad {
    Quad(High2(q.a, q.b), Low2(q.a, q.b), High2(q.c, q.d), Low2(q.c, q.d))
  }

  function Bits(bigEndian: bool, x: bv32): bv32 {
    if bigEndian then (x & 0x5555aaaa) | ((x & 0x00005555) << 17) | ((x & 0xaaaa0000) >> 17)
    else (x & 0xaaaa5555) | ((x & 0x0000aaaa) << 15) | ((x & 0x55550000) >> 15)
  }

  function Network(bigEndian: bool, p: Planes): Quad {
    var q := Crumbs(Nibbles(Load(bigEndian, p)));
    Quad(Bits(bigEndian, q.a), Bits(bigEndian, q.b), Bits(bigEndian, q.c), Bits(bigEndian, q.d))
  }

  // Planes that are not there.
  lemma NoPlanes(bigEndian: bool)
    ensures LoadPair(bigEndian, Word(0), Word(0)) == 0 && High4(0, 0) == 0 && Low4(0, 0) == 0
  {
  }

  /** A plane on its own. */
  function LoadOne(bigEndian: bool, w: Word): bv32 {
    if bigEndian then (w.bits as bv32) << 16 else Swapped(w.bits) as bv32
  }

  lemma OnePlaneBig(w: Word)
    ensures LoadPair(true, w, Word(0)) == LoadOne(true, w)
  {
  }

  lemma OnePlaneLittle(w: Word)
    ensures LoadPair(false, w, Word(0)) == LoadOne(false, w)
  {
  }

  /** An argument of type uint8_t. */
  function Low8(x: bv32): Index {
    Index((x & 0xff) as bv8)
  }

  /** The order in which the bytes of the four double words are drawn. */
  function Drawn(bigEndian: bool, q: Quad, i: nat): Index
    requires i < 16
  {
    if bigEndian then
      match i
      case 0 => Low8(q.a >> 8)
      case 1 => Low8(q.a >> 24)
      case 2 => Low8(q.b >> 8)
      case 3 => Low8(q.b >> 24)
      case 4 => Low8(q.c >> 8)
      case 5 => Low8(q.c >> 24)
      case 6 => Low8(q.d >> 8)
      case 7 => Low8(q.d >> 24)
      case 8 => Low8(q.a)
      case 9 => Low8(q.a >> 16)
      case 10 => Low8(q.b)
      case 11 => Low8(q.b >> 16)
      case 12 => Low8(q.c)
      case 13 => Low8(q.c >> 16)
      case 14 => Low8(q.d)
      case _ => Low8(q.d >> 16)
    else
      match i
      case 0 => Low8(q.a >> 16)
      case 1 => Low8(q.a)
      case 2 => Low8(q.b >> 16)
      case 3 => Low8(q.b)
      case 4 => Low8(q.c >> 16)
      case 5 => Low8(q.c)
      case 6 => Low8(q.d >> 16)
      case 7 => Low8(q.d)
      case 8 => Low8(q.a >> 24)
      case 9 => Low8(q.a >> 8)
      case 10 => Low8(q.b >> 24)
      case 11 => Low8(q.b >> 8)
      case 12 => Low8(q.c >> 24)
      case 13 => Low8(q.c >> 8)
      case 14 => Low8(q.d >> 24)
      case _ => Low8(q.d >> 8)
  }

  lemma Little0(p: Planes)
    ensures Drawn(false, Network(false, p), 0) == Chunky(p, 0) && Drawn(false, Network(false, p), 1) == Chunky(p, 1)
  {
  }

  lemma Little2(p: Planes)
    ensures Drawn(false, Network(false, p), 2) == Chunky(p, 2) && Drawn(false, Network(false, p), 3) == Chunky(p, 3)
  {
  }

  lemma Little4(p: Planes)
    ensures Drawn(false, Network(false, p), 4) == Chunky(p, 4) && Drawn(false, Network(false, p), 5) == Chunky(p, 5)
  {
  }

  lemma Little6(p: Planes)
    ensures Drawn(false, Network(false, p), 6) == Chunky(p, 6) && Drawn(false, Network(false, p), 7) == Chunky(p, 7)
  {
  }

  lemma Little8(p: Planes)
    ensures Drawn(false, Network(false, p), 8) == Chunky(p, 8) && Drawn(false, Network(false, p), 9) == Chunky(p, 9)
  {
  }

  lemma Little10(p: Planes)
    ensures Drawn(false, Network(false, p), 10) == Chunky(p, 10) && Drawn(false, Network(false, p), 11) == Chunky(p, 11)
  {
  }

  lemma Little12(p: Planes)
    ensures Drawn(false, Network(false, p), 12) == Chunky(p, 12) && Drawn(false, Network(false, p), 13) == Chunky(p, 13)
  {
  }

  lemma Little14(p: Planes)
    ensures Drawn(false, Network(false, p), 14) == Chunky(p, 14) && Drawn(false, Network(false, p), 15) == Chunky(p, 15)
  {
  }

  lemma Big0(p: Planes)
    ensures Drawn(true, Network(true, p), 0) == Chunky(p, 0) && Drawn(true, Network(true, p), 1) == Chunky(p, 1)
  {
  }

  lemma Big2(p: Planes)
    ensures Drawn(true, Network(true, p), 2) == Chunky(p, 2) && Drawn(true, Network(true, p), 3) == Chunky(p, 3)
  {
  }

  lemma Big4(p: Planes)
    ensures Drawn(true, Network(true, p), 4) == Chunky(p, 4) && Drawn(true, Network(true, p), 5) == Chunky(p, 5)
  {
  }

  lemma Big6(p: Planes)
    ensures Drawn(true, Network(true, p), 6) == Chunky(p, 6) && Drawn(true, Network(true, p), 7) == Chunky(p, 7)
  {
  }

  lemma Big8(p: Planes)
    ensures Drawn(true, Network(true, p), 8) == Chunky(p, 8) && Drawn(true, Network(true, p), 9) == Chunky(p, 9)
  {
  }

  lemma Big10(p: Planes)
    ensures Drawn(true, Network(true, p), 10) == Chunky(p, 10) && Drawn(true, Network(true, p), 11) == Chunky(p, 11)
  {
  }

  lemma Big12(p: Planes)
    ensures Drawn(true, Network(true, p), 12) == Chunky(p, 12) && Drawn(true, Network(true, p), 13) == Chunky(p, 13)
  {
  }

  lemma Big14(p: Planes)
    ensures Drawn(true, Network(true, p), 14) == Chunky(p, 14) && Drawn(true, Network(true, p), 15) == Chunky(p, 15)
  {
  }

  /** The swizzle network is the transposition: on either host, the byte drawn for a pixel
      collects that pixel's bits from the planes. */
  lemma NetworkTransposes(bigEndian: bool, p: Planes, i: nat)
    requires i < 16
    ensures Drawn(bigEndian, Network(bigEndian, p), i) == Chunky(p, i)
  {
    hide Network, Drawn, Chunky;
    if bigEndian {
      Big0(p);
      Big2(p);
      Big4(p);
      Big6(p);
      Big8(p);
      Big10(p);
      Big12(p);
      Big14(p);
    } else {
      Little0(p);
      Little2(p);
      Little4(p);
      Little6(p);
      Little8(p);
      Little10(p);
      Little12(p);
      Little14(p);
    }
  }
}
