/** The conversion of a screen line, with fine scrolling and the sample-and-hold of the TT. */
module ConvLine {
  import opened BlitterOps
  import opened ConvGen

  type Colour = nat

  predicate ValidDepth(bpp: nat) {
    bpp in {1, 2, 4, 8}
  }

  /** The planes of the sixteen pixels whose words start at `at`. */
  function PlanesAt(words: seq<Word>, at: nat, bpp: nat): Planes
    requires ValidDepth(bpp) && at + bpp <= |words|
  {
    var w := (k: nat) requires k < 8 => if k < bpp then words[at + k] else Word(0);
    Planes(w(0), w(1), w(2), w(3), w(4), w(5), w(6), w(7))
  }

  /** The words of a line, its depth, and whether and from where the TT holds samples. */
  datatype Line = Line(words: seq<Word>, bpp: nat, hold: bool, start: Index)

  predicate Covers(line: Line, columns: nat) {
    ValidDepth(line.bpp) && columns * line.bpp <= |line.words|
  }

  lemma ColumnFits(line: Line, columns: nat, c: nat)
    requires Covers(line, columns) && c < columns
    ensures c * line.bpp + line.bpp <= |line.words|
  {
    assert (c + 1) * line.bpp <= columns * line.bpp;
  }

  /** Planar pixel `x` of a line. */
  function Pixel(line: Line, columns: nat, x: nat): Index
    requires Covers(line, columns) && x < columns * 16
  {
    ColumnFits(line, columns, x / 16);
    Chunky(PlanesAt(line.words, x / 16 * line.bpp, line.bpp), x % 16)
  }

  /** What the sample-and-hold register contains once pixel `x - 1` has been drawn. */
  function Held(line: Line, columns: nat, x: nat): Index
    requires Covers(line, columns) && x <= columns * 16
  {
    if x == 0 then line.start
    else if line.hold && Pixel(line, columns, x - 1) != NOTHING then Pixel(line, columns, x - 1)
    else Held(line, columns, x - 1)
  }

  /** The colour number under which pixel `x` is drawn. */
  function Shown(line: Line, columns: nat, x: nat): Index
    requires Covers(line, columns) && x < columns * 16
  {
    if line.hold then Held(line, columns, x + 1) else Pixel(line, columns, x)
  }

  /** Held samples are the last colour number other than zero. */
  lemma {:induction false} HeldIsLastNonZero(line: Line, columns: nat, x: nat)
    requires Covers(line, columns) && x <= columns * 16 && line.hold
    ensures || (Held(line, columns, x) == line.start && forall y :: 0 <= y < x ==> Pixel(line, columns, y) == NOTHING)
            || (exists y :: 0 <= y < x && Held(line, columns, x) == Pixel(line, columns, y) != NOTHING
                  && forall z :: y < z < x ==> Pixel(line, columns, z) == NOTHING)
  {
    hide Pixel;
    if x > 0 {
      HeldIsLastNonZero(line, columns, x - 1);
    }
  }

  /** The planes as each depth loads them. */
  lemma LoadPlanes(bigEndian: bool, words: seq<Word>, at: nat, bpp: nat)
    requires ValidDepth(bpp) && at + bpp <= |words|
    ensures Load(bigEndian, PlanesAt(words, at, bpp)) ==
      if bpp == 1 then Quad(0, 0, 0, LoadOne(bigEndian, words[at]))
      else if bpp == 2 then Quad(0, 0, 0, LoadPair(bigEndian, words[at], words[at + 1]))
      else if bpp == 4 then
        Quad(0, 0, LoadPair(bigEndian, words[at + 2], words[at + 3]), LoadPair(bigEndian, words[at], words[at + 1]))
      else
        Quad(LoadPair(bigEndian, words[at + 6], words[at + 7]), LoadPair(bigEndian, words[at + 4], words[at + 5]),
             LoadPair(bigEndian, words[at + 2], words[at + 3]), LoadPair(bigEndian, words[at], words[at + 1]))
    ensures High4(0, 0) == 0 && Low4(0, 0) == 0
  {
    hide LoadPair, LoadOne, High4, Low4;
    NoPlanes(bigEndian);
    if bigEndian {
      OnePlaneBig(words[at]);
    } else {
      OnePlaneLittle(words[at]);
    }
  }

  /** The sixteen bytes drawn for a column are its pixels. */
  lemma ColumnPixels(bigEndian: bool, line: Line, columns: nat, c: nat)
    requires Covers(line, columns) && c < columns
    ensures c * line.bpp + line.bpp <= |line.words|
    ensures var q := Network(bigEndian, PlanesAt(line.words, c * line.bpp, line.bpp));
      forall i :: 0 <= i < 16 ==> Drawn(bigEndian, q, i) == Pixel(line, columns, 16 * c + i)
  {
    hide Chunky, Network, Drawn, PlanesAt;
    ColumnFits(line, columns, c);
    var p := PlanesAt(line.words, c * line.bpp, line.bpp);
    forall i | 0 <= i < 16 ensures Drawn(bigEndian, Network(bigEndian, p), i) == Pixel(line, columns, 16 * c + i) {
      NetworkTransposes(bigEndian, p, i);
      assert (16 * c + i) / 16 == c && (16 * c + i) % 16 == i;
    }
  }

  /** `count` pixels from `at` on show the line from place `x` on; the others are as before. */
  ghost predicate Painted(pixels: seq<Colour>, before: seq<Colour>, native: seq<Colour>, at: nat, count: nat,
                          line: Line, columns: nat, x: nat)
    requires Covers(line, columns)
  {
    && |native| == 256 && |pixels| == |before| && at + count <= |pixels| && x + count <= columns * 16
    && (forall i :: at <= i < at + count ==> pixels[i] == native[Shown(line, columns, x + i - at).bits as nat])
    && (forall i :: 0 <= i < |pixels| && !(at <= i < at + count) ==> pixels[i] == before[i])
  }

  lemma NothingPainted(pixels: seq<Colour>, native: seq<Colour>, at: nat, line: Line, columns: nat, x: nat)
    requires Covers(line, columns) && |native| == 256 && at <= |pixels| && x <= columns * 16
    ensures Painted(pixels, pixels, native, at, 0, line, columns, x)
  {
  }

  lemma PaintedTogether(pixels: seq<Colour>, middle: seq<Colour>, before: seq<Colour>, native: seq<Colour>,
                        at: nat, count: nat, more: nat, line: Line, columns: nat, x: nat)
    requires Covers(line, columns)
    requires Painted(middle, before, native, at, count, line, columns, x)
    requires Painted(pixels, middle, native, at + count, more, line, columns, x + count)
    ensures Painted(pixels, before, native, at, count + more, line, columns, x)
  {
    hide Shown;
  }

  /** The columns that a line of `vw` pixels takes; a scrolled line takes one more. */
  function Columns(vw: nat, scroll: nat): (n: nat)
    ensures n >= 1
  {
    var n := (vw + 15) / 16;
    (if n == 0 then 1 else n) + (if scroll > 0 then 1 else 0)
  }

  /** A line takes as many whole columns as its pixels need, at least one, and one more when it is
      scrolled. */
  lemma ColumnsNeeded(vw: nat, scroll: nat)
    ensures var pixels := 16 * Columns(vw, 0);
      vw <= pixels && (if vw == 0 then pixels == 16 else pixels < vw + 16)
    ensures Columns(vw, scroll) == Columns(vw, 0) + (if scroll == 0 then 0 else 1)
  {
  }

  /** A pixel shows its own colour number, or with samples held the last one other than zero up to
      it, which is the one held before the line if there is none. */
  lemma ShownPixel(line: Line, columns: nat, x: nat)
    requires Covers(line, columns) && x < columns * 16
    ensures !line.hold ==> Shown(line, columns, x) == Pixel(line, columns, x)
    ensures line.hold ==>
      || (Shown(line, columns, x) == line.start && forall y :: 0 <= y <= x ==> Pixel(line, columns, y) == NOTHING)
      || (exists y :: 0 <= y <= x && Shown(line, columns, x) == Pixel(line, columns, y) != NOTHING
            && forall z :: y < z <= x ==> Pixel(line, columns, z) == NOTHING)
  {
    hide Pixel, Held;
    if line.hold {
      HeldIsLastNonZero(line, columns, x + 1);
    }
  }

  lemma HeldAtStart(line: Line, columns: nat)
    requires Covers(line, columns)
    ensures Held(line, columns, 0) == line.start
  {
  }

  class Converter {
    var native: seq<Colour>
    var ttSampleHold: bool
    var sampleHoldIdx: Index
    const bigEndian: bool

    ghost predicate Valid()
      reads this
    {
      |native| == 256
    }

    /** The native colour of a palette entry. */
    function Native(idx: Index): Colour
      requires Valid()
      reads this
    {
      native[idx.bits as nat]
    }

    constructor (native: seq<Colour>, ttSampleHold: bool, bigEndian: bool)
      requires |native| == 256
      ensures Valid() && this.native == native && this.ttSampleHold == ttSampleHold && this.bigEndian == bigEndian
      ensures sampleHoldIdx == NOTHING
    {
      this.native := native;
      this.ttSampleHold := ttSampleHold;
      this.bigEndian := bigEndian;
      this.sampleHoldIdx := NOTHING;
    }

    method IndexToColour(idx: Index) returns (colour: Colour)
      requires Valid()
      modifies this`sampleHoldIdx
      ensures sampleHoldIdx == if ttSampleHold && idx != NOTHING then idx else old(sampleHoldIdx)
      ensures colour == Native(if ttSampleHold then sampleHoldIdx else idx)
    {
      if ttSampleHold {
        if idx == NOTHING {
          return Native(sampleHoldIdx);
        }
        sampleHoldIdx := idx;
      }
      colour := Native(idx);
    }

    /** Loads one, two, four or eight planes and mixes them. */
    method Swizzle(vram: array<Word>, at: nat, bpp: nat) returns (q: Quad)
      requires ValidDepth(bpp) && at + bpp <= vram.Length
      ensures q == Network(bigEndian, PlanesAt(vram[..], at, bpp))
    {
      hide LoadPair, LoadOne, High4, Low4, High2, Low2, Bits, PlanesAt, Load;
      LoadPlanes(bigEndian, vram[..], at, bpp);
      var a, b, c, d, x: bv32;
      if bpp >= 4 {
        d := LoadPair(bigEndian, vram[at], vram[at + 1]);
        c := LoadPair(bigEndian, vram[at + 2], vram[at + 3]);
        if bpp == 4 {
          a, b := 0, 0;
        } else {
          b := LoadPair(bigEndian, vram[at + 4], vram[at + 5]);
          a := LoadPair(bigEndian, vram[at + 6], vram[at + 7]);
        }
        x := a;
        a := High4(a, c);
        c := Low4(x, c);
      } else {
        a, b, c := 0, 0, 0;
        if bpp == 2 {
          d := LoadPair(bigEndian, vram[at], vram[at + 1]);
        } else {
          d := LoadOne(bigEndian, vram[at]);
        }
      }
      x := b;
      b := High4(b, d);
      d := Low4(x, d);
      x := a;
      a := High2(a, b);
      b := Low2(x, b);
      x := c;
      c := High2(c, d);
      d := Low2(x, d);
      q := Quad(Bits(bigEndian, a), Bits(bigEndian, b), Bits(bigEndian, c), Bits(bigEndian, d));
    }

    /** Stores the pixel `k` places after `at`; `x` is the place of the pixel at `at` in the line. */
    method Draw(pixels: array<Colour>, at: nat, k: nat, idx: Index,
                ghost before: seq<Colour>, ghost line: Line, ghost columns: nat, ghost x: nat)
      requires Valid() && line.hold == ttSampleHold
      requires Covers(line, columns) && x + k < columns * 16 && idx == Pixel(line, columns, x + k)
      requires at + k < pixels.Length && Painted(pixels[..], before, native, at, k, line, columns, x)
      requires sampleHoldIdx == Held(line, columns, x + k)
      modifies this`sampleHoldIdx, pixels
      ensures Painted(pixels[..], before, native, at, k + 1, line, columns, x)
      ensures sampleHoldIdx == Held(line, columns, x + k + 1)
    {
      hide Pixel;
      var colour := IndexToColour(idx);
      pixels[at + k] := colour;
    }

    /** Draws sixteen pixels, the ones of column `c`. */
    method BitplaneToChunky(vram: array<Word>, vramAt: nat, bpp: nat, pixels: array<Colour>, at: nat,
                            ghost line: Line, ghost columns: nat, ghost c: nat)
      requires Valid() && at + 16 <= pixels.Length
      requires line.words == vram[..] && line.bpp == bpp && line.hold == ttSampleHold
      requires Covers(line, columns) && c < columns && vramAt == c * bpp
      requires sampleHoldIdx == Held(line, columns, 16 * c)
      modifies this`sampleHoldIdx, pixels
      ensures sampleHoldIdx == Held(line, columns, 16 * c + 16)
      ensures Painted(pixels[..], old(pixels[..]), native, at, 16, line, columns, 16 * c)
    {
      hide Chunky, Network, Drawn, Pixel, Held, Painted, PlanesAt;
      ColumnPixels(bigEndian, line, columns, c);
      var q := Swizzle(vram, vramAt, bpp);
      ghost var before := pixels[..];
      NothingPainted(before, native, at, line, columns, 16 * c);
      for k := 0 to 16
        invariant sampleHoldIdx == Held(line, columns, 16 * c + k)
        invariant Painted(pixels[..], before, native, at, k, line, columns, 16 * c)
      {
        Draw(pixels, at, k, Drawn(bigEndian, q, k), before, line, columns, 16 * c);
      }
    }

    /** Copies pixels `first` to `last` of the buffer behind the `count` pixels painted so far. */
    method CopyPixels(buffer: array<Colour>, ghost blank: seq<Colour>, first: nat, last: nat,
                      pixels: array<Colour>, ghost before: seq<Colour>, at: nat, count: nat,
                      ghost line: Line, ghost columns: nat, ghost column: nat, ghost x: nat) returns (end: nat)
      requires buffer != pixels && first <= last <= 16 && at + count + last - first <= pixels.Length
      requires Covers(line, columns) && column + first == x + count && x + count + last - first <= columns * 16
      requires Painted(buffer[..], blank, native, 0, 16, line, columns, column)
      requires Painted(pixels[..], before, native, at, count, line, columns, x)
      modifies pixels
      ensures end == at + count + last - first
      ensures Painted(pixels[..], before, native, at, count + last - first, line, columns, x)
    {
      hide Shown;
      end := at + count;
      for i := first to last
        invariant end == at + count + i - first
        invariant Painted(pixels[..], before, native, at, count + i - first, line, columns, x)
      {
        pixels[end] := buffer[i];
        end := end + 1;
      }
    }

    /** Draws a line of `vw` pixels with a fine scroll of `scroll` pixels; `end` is where the
        next pixel would go. */
    method LineTo32bpp(vram: array<Word>, pixels: array<Colour>, at: nat, vw: nat, bpp: nat, scroll: nat,
                       ghost line: Line, ghost columns: nat) returns (end: nat)
      requires Valid() && scroll < 16 && columns == Columns(vw, scroll) && at + Columns(vw, 0) * 16 <= pixels.Length
      requires line == Line(vram[..], bpp, ttSampleHold, sampleHoldIdx) && Covers(line, columns)
      modifies this`sampleHoldIdx, pixels
      ensures end == at + Columns(vw, 0) * 16
      ensures (end - at) % 16 == 0 && vw <= end - at && (if vw == 0 then end - at == 16 else end - at < vw + 16)
      ensures columns * 16 == end - at + (if scroll == 0 then 0 else 16)
      ensures Painted(pixels[..], old(pixels[..]), native, at, Columns(vw, 0) * 16, line, columns, scroll)
      ensures sampleHoldIdx == Held(line, columns, columns * 16)
    {
      hide Pixel, Held, Shown, PlanesAt, Painted;
      ColumnsNeeded(vw, scroll);
      HeldAtStart(line, columns);
      ghost var before := pixels[..];
      var buffer := new Colour[16];
      ghost var blank := buffer[..];
      BitplaneToChunky(vram, 0, bpp, buffer, 0, line, columns, 0);
      NothingPainted(before, native, at, line, columns, scroll);
      end := CopyPixels(buffer, blank, scroll, 16, pixels, before, at, 0, line, columns, 0, scroll);
      var column := bpp;
      for i := 1 to Columns(vw, 0)
        invariant end == at + 16 * i - scroll && column == i * bpp
        invariant sampleHoldIdx == Held(line, columns, 16 * i) && fresh(buffer)
        invariant Painted(pixels[..], before, native, at, 16 * i - scroll, line, columns, scroll)
      {
        ghost var middle := pixels[..];
        BitplaneToChunky(vram, column, bpp, pixels, end, line, columns, i);
        PaintedTogether(pixels[..], middle, before, native, at, 16 * i - scroll, 16, line, columns, scroll);
        end := end + 16;
        column := column + bpp;
      }
      if scroll > 0 {
        blank := buffer[..];
        BitplaneToChunky(vram, column, bpp, buffer, 0, line, columns, columns - 1);
        end := CopyPixels(buffer, blank, 0, scroll, pixels, before, at, end - at, line, columns, 16 * (columns - 1),
            scroll);
      }
    }
  }
}
