/** Floppy images: the geometry found in the boot sector, and where each sector is. */
module Floppy {
  import opened Bytes

  const SECTOR := 512

  datatype Geometry = Geometry(sectors: nat, sides: nat)

  /** A sector as the disk controller names it, its track in 16 bits; sectors count from one. */
  datatype Place = Place(track: Short, side: nat, sector: nat)

  /** The images that the emulator can hold, whose size is a C int. */
  predicate Image(image: seq<Byte>) {
    28 <= |image| < 0x8000_0000
  }

  predicate CommonTotal(total: nat, sectors: nat, sides: nat) {
    var track := sectors * sides;
    total in {80 * track, 81 * track, 82 * track, 83 * track, 84 * track}
  }

  /** A geometry guessed from the size of the image. */
  function DoubleCheckFormat(size: nat, sectors: nat): Geometry
    requires size < 0x8000_0000
  {
    var sides := if size < 500 * 1024 then 1 else 2;
    var total := size / 512;
    Geometry(
      if CommonTotal(total, 9, sides) then 9
      else if CommonTotal(total, 10, sides) then 10
      else if CommonTotal(total, 11, sides) then 11
      else if CommonTotal(total, 12, sides) then 12
      else if 5 <= sectors <= 48 then sectors
      else total / 80 / sides, sides)
  }

  predicate Suspicious(size: nat, total: nat, g: Geometry) {
    total != size / 512 || g.sides == 0 || g.sides > 2 || g.sectors == 0 || g.sectors > 48
  }

  /** The geometry in the boot sector, unless it looks wrong. */
  function FindDiskDetails(image: seq<Byte>): (g: Geometry)
    requires Image(image)
    ensures g.sides in {1, 2}
    ensures g.sectors <= 48 || g.sectors == |image| / 512 / 80 / g.sides
  {
    var g := Geometry(ShortAt(image, 24), ShortAt(image, 26));
    if Suspicious(|image|, ShortAt(image, 19), g) then DoubleCheckFormat(|image|, g.sectors) else g
  }

  /** Which geometry is found.  The boot sector's, if its number of sectors is that of the image and
      it has one or two sides and up to 48 sectors a track.  Otherwise there are two sides from 500 KB
      on, and 9 to 12 sectors a track if the image has the size of 80 to 84 such tracks; if not, the
      sectors a track of the boot sector count as long as they are 5 to 48, or else a division by 80. */
  lemma FoundGeometry(image: seq<Byte>)
    requires Image(image)
    ensures var g, total, size := FindDiskDetails(image), |image| / 512, |image|;
      var sectors, sides := ShortAt(image, 24), ShortAt(image, 26);
      var guess := if size < 512000 then 1 else 2;
      if ShortAt(image, 19) == total && 1 <= sides <= 2 && 1 <= sectors <= 48 then g == Geometry(sectors, sides)
      else
        && g.sides == guess
        && (forall n, t :: 9 <= n <= 12 && 80 <= t <= 84 && total == t * (n * guess) ==> g.sectors == n)
        && ((forall n, t :: 9 <= n <= 12 && 80 <= t <= 84 ==> total != t * (n * guess)) ==>
              g.sectors == if 5 <= sectors <= 48 then sectors else total / 80 / guess)
  {
    hide CommonTotal;
    var total, guess := |image| / 512, if |image| < 512000 then 1 else 2;
    CommonTotals(total, guess);
    if !(exists n, t :: 9 <= n <= 12 && 80 <= t <= 84 && total == t * (n * guess)) {
      forall n | 9 <= n <= 12 ensures !CommonTotal(total, n, guess) {
        if CommonTotal(total, n, guess) {
          var t := CommonTracks(total, n, guess);
        }
      }
    }
  }

  lemma CommonTracks(total: nat, sectors: nat, sides: nat) returns (t: nat)
    requires CommonTotal(total, sectors, sides)
    ensures 80 <= t <= 84 && total == t * (sectors * sides)
  {
    var track := sectors * sides;
    t := if total == 80 * track then 80 else if total == 81 * track then 81 else if total == 82 * track then 82
         else if total == 83 * track then 83 else 84;
  }

  /** No size is common for two numbers of sectors. */
  lemma CommonTotals(total: nat, sides: nat)
    requires 1 <= sides <= 2
    ensures forall n, t :: 9 <= n <= 12 && 80 <= t <= 84 && total == t * (n * sides) ==>
      CommonTotal(total, n, sides) && forall m :: 9 <= m < n ==> !CommonTotal(total, m, sides)
  {
    forall n, t | 9 <= n <= 12 && 80 <= t <= 84 && total == t * (n * sides)
      ensures CommonTotal(total, n, sides) && forall m :: 9 <= m < n ==> !CommonTotal(total, m, sides)
    {
      assert t in {80, 81, 82, 83, 84} && n in {9, 10, 11, 12};
    }
  }

  /** The boot sector is of no help: it looks wrong, and its sectors a track cannot be right. */
  predicate BadBoot(image: seq<Byte>)
    requires Image(image)
  {
    && Suspicious(|image|, ShortAt(image, 19), Geometry(ShortAt(image, 24), ShortAt(image, 26)))
    && !(5 <= ShortAt(image, 24) <= 48)
  }

  /** An image too small for a guess, by whose sectors a track every access divides. */
  predicate NoSectors(image: seq<Byte>)
    requires Image(image)
  {
    |image| < 80 * 512 && BadBoot(image)
  }

  /** An image so large that the guess gives tracks of 128 sectors or more. */
  predicate LongTracks(image: seq<Byte>)
    requires Image(image)
  {
    |image| >= 128 * 160 * 512 && BadBoot(image)
  }

  /** The geometry found has no sectors exactly if a bad boot sector leaves a guess from less
      than 80 sectors, and long tracks exactly if it leaves a guess from at least 10 MB. */
  lemma GuessedSectors(image: seq<Byte>)
    requires Image(image)
    ensures FindDiskDetails(image).sectors == 0 <==> NoSectors(image)
    ensures FindDiskDetails(image).sectors >= 128 <==> LongTracks(image)
  {
  }

  function Tracks(size: nat, g: Geometry): nat
    requires g.sectors > 0 && g.sides > 0
  {
    Over(Over(size / SECTOR, g.sectors), g.sides)
  }

  function Over(a: nat, d: nat): nat
    requires d > 0
  {
    a / d
  }

  /** The bytes of a track, as the 16 bits that hold them. */
  function BytesPerTrack(g: Geometry): nat {
    SECTOR * g.sectors % 0x1_0000
  }

  predicate Accepts(size: nat, g: Geometry, p: Place)
    requires g.sectors > 0 && g.sides > 0
  {
    p.side < g.sides && p.track < Tracks(size, g) && 1 <= p.sector <= g.sectors
  }

  function Offset(g: Geometry, p: Place): nat
    requires p.sector >= 1
  {
    BytesPerTrack(g) * p.side + BytesPerTrack(g) * g.sides * p.track + SECTOR * (p.sector - 1)
  }

  /** The number of a sector when all are counted in order. */
  function Block(g: Geometry, p: Place): nat
    requires p.sector >= 1
  {
    (p.track * g.sides + p.side) * g.sectors + p.sector - 1
  }

  lemma Scale(a: nat, b: nat, k: nat)
    requires a <= b
    ensures a * k <= b * k
  {
  }

  lemma Divided(size: nat, d: nat)
    requires d > 0
    ensures size / d * d <= size
  {
  }

  /** Up to 127 sectors a track, offsets are blocks of 512 bytes. */
  lemma OffsetIsBlock(g: Geometry, p: Place)
    requires g.sectors < 128 && p.sector >= 1
    ensures Offset(g, p) == SECTOR * Block(g, p)
  {
    assert BytesPerTrack(g) == SECTOR * g.sectors;
    var t, s, n := p.track * g.sides, p.side, g.sectors;
    assert (t + s) * n == t * n + s * n;
    assert SECTOR * n * s == SECTOR * (s * n);
    assert SECTOR * n * g.sides * p.track == SECTOR * (t * n);
  }

  /** Every accepted sector lies inside the image, and in the blocks that make up whole tracks. */
  lemma AcceptedIsInside(size: nat, g: Geometry, p: Place)
    requires g.sectors > 0 && g.sides > 0 && Accepts(size, g, p)
    ensures Block(g, p) < Tracks(size, g) * g.sides * g.sectors
    ensures SECTOR * (Block(g, p) + 1) <= size
  {
    var tracks, total := Tracks(size, g), size / SECTOR;
    Scale(p.track + 1, tracks, g.sides);
    assert (p.track + 1) * g.sides == p.track * g.sides + g.sides;
    assert p.track * g.sides + p.side + 1 <= tracks * g.sides;
    Scale(p.track * g.sides + p.side + 1, tracks * g.sides, g.sectors);
    assert (p.track * g.sides + p.side + 1) * g.sectors == (p.track * g.sides + p.side) * g.sectors + g.sectors;
    Divided(total / g.sectors, g.sides);
    Scale(tracks * g.sides, total / g.sectors, g.sectors);
    Divided(total, g.sectors);
    Divided(size, SECTOR);
  }

  lemma Ordered(a: nat, b: nat, d: nat)
    ensures a < b ==> a * d + d <= b * d
  {
    assert (a + 1) * d == a * d + d;
    if a < b {
      Scale(a + 1, b, d);
    }
  }

  lemma Digits(q: nat, r: nat, d: nat, q': nat, r': nat)
    requires r < d && r' < d && q * d + r == q' * d + r'
    ensures q == q' && r == r'
  {
    Ordered(q, q', d);
    Ordered(q', q, d);
  }

  lemma BlockDigits(sectors: nat, sides: nat, t: nat, s: nat, n: nat, t': nat, s': nat, n': nat)
    requires n < sectors && n' < sectors && s < sides && s' < sides
    requires (t * sides + s) * sectors + n == (t' * sides + s') * sectors + n'
    ensures t == t' && s == s' && n == n'
  {
    Digits(t * sides + s, n, sectors, t' * sides + s', n');
    Digits(t, s, sides, t', s');
  }

  /** Different sectors are different blocks. */
  lemma BlocksDiffer(size: nat, g: Geometry, p: Place, q: Place)
    requires g.sectors > 0 && g.sides > 0 && Accepts(size, g, p) && Accepts(size, g, q)
    requires Block(g, p) == Block(g, q)
    ensures p == q
  {
    hide Tracks;
    BlockDigits(g.sectors, g.sides, p.track, p.side, p.sector - 1, q.track, q.side, q.sector - 1);
  }

  /** The sector of a block. */
  function PlaceOf(g: Geometry, block: nat): Place
    requires g.sectors > 0 && g.sides > 0 && block / g.sectors / g.sides < 0x1_0000
  {
    Place(block / g.sectors / g.sides, block / g.sectors % g.sides, block % g.sectors + 1)
  }

  lemma PlaceIsAccepted(size: nat, g: Geometry, block: nat)
    requires g.sectors > 0 && g.sides > 0 && block < Tracks(size, g) * g.sides * g.sectors
    ensures block / g.sectors / g.sides < Tracks(size, g)
    ensures block / g.sectors / g.sides < 0x1_0000 ==>
      Accepts(size, g, PlaceOf(g, block)) && Block(g, PlaceOf(g, block)) == block
  {
    hide Tracks;
    var n := Tracks(size, g) * g.sides;
    var track := block / g.sectors;
    assert track * g.sectors + block % g.sectors == block;
    assert track < n by { if track >= n { Scale(n, track, g.sectors); } }
    assert track / g.sides * g.sides + track % g.sides == track;
    assert track / g.sides < Tracks(size, g) by {
      if track / g.sides >= Tracks(size, g) {
        Scale(Tracks(size, g), track / g.sides, g.sides);
      }
    }
  }

  ghost predicate HasPlace(size: nat, g: Geometry, block: nat)
    requires g.sectors > 0 && g.sides > 0
  {
    exists p :: Accepts(size, g, p) && Block(g, p) == block
  }

  /** Every block of the whole tracks is the block of an accepted sector, if and only if 16 bits
      can number the tracks. */
  lemma EveryBlockHasAPlace(size: nat, g: Geometry)
    requires g.sectors > 0 && g.sides > 0
    ensures (forall block: nat :: block < Tracks(size, g) * g.sides * g.sectors ==> HasPlace(size, g, block))
            <==> Tracks(size, g) <= 0x1_0000
  {
    hide Tracks, Block;
    if Tracks(size, g) <= 0x1_0000 {
      forall block: nat | block < Tracks(size, g) * g.sides * g.sectors ensures HasPlace(size, g, block) {
        PlaceIsAccepted(size, g, block);
      }
    } else {
      var block := NoPlace(size, g, 0x1_0000);
    }
  }

  /** The first block behind `tracks` tracks, when no place has a greater track. */
  lemma NoPlace(size: nat, g: Geometry, tracks: nat) returns (block: nat)
    requires g.sectors > 0 && g.sides > 0 && 0x1_0000 <= tracks < Tracks(size, g)
    ensures block < Tracks(size, g) * g.sides * g.sectors && !HasPlace(size, g, block)
  {
    hide Tracks, Block;
    block := tracks * g.sides * g.sectors;
    Ordered(tracks, Tracks(size, g), g.sides);
    Ordered(tracks * g.sides, Tracks(size, g) * g.sides, g.sectors);
    forall p | Accepts(size, g, p) ensures Block(g, p) != block {
      BlockIsBelow(g, p, tracks);
    }
  }

  lemma BlockIsBelow(g: Geometry, p: Place, tracks: nat)
    requires p.track < tracks && p.side < g.sides && 1 <= p.sector <= g.sectors
    ensures Block(g, p) < tracks * g.sides * g.sectors
  {
    Ordered(p.track, tracks, g.sides);
    Ordered(p.track * g.sides + p.side, tracks * g.sides, g.sectors);
  }

  /** No offset is behind its block, so every access that is accepted stays inside the image. */
  lemma OffsetAtMostBlock(g: Geometry, p: Place)
    requires p.sector >= 1
    ensures Offset(g, p) <= SECTOR * Block(g, p)
  {
    var b, n, t := BytesPerTrack(g), g.sectors, p.track * g.sides;
    Scale(b, SECTOR * n, p.side);
    Scale(b, SECTOR * n, t);
    assert b * g.sides * p.track == b * t;
    assert SECTOR * n * p.side == SECTOR * (p.side * n) && SECTOR * n * t == SECTOR * (t * n);
    assert (t + p.side) * n == t * n + p.side * n;
  }

  /** A geometry with more than 127 sectors a track is guessed from a size of at least 80 tracks. */
  lemma GuessedTracks(image: seq<Byte>)
    requires Image(image) && FindDiskDetails(image).sectors >= 128
    ensures var g := FindDiskDetails(image); g.sides == 2 && Tracks(|image|, g) >= 1
  {
    var g := FindDiskDetails(image);
    var total := |image| / 512;
    assert total / 80 >= g.sectors * g.sides by { Divided(total / 80, g.sides); }
    assert total >= 80 * (g.sectors * g.sides) by { Divided(total, 80); Scale(g.sectors * g.sides, total / 80, 80); }
    assert total >= 80 * 128;
    assert g.sides == 2 by { GuessedSides(image); }
    AtLeast(total, g.sectors, 2);
    AtLeast(total / g.sectors, 2, 1);
  }

  lemma GuessedSides(image: seq<Byte>)
    requires Image(image) && FindDiskDetails(image).sectors >= 128
    ensures FindDiskDetails(image).sides == if |image| < 500 * 1024 then 1 else 2
  {
  }

  lemma AtLeast(a: nat, d: nat, k: nat)
    requires d > 0 && a >= d * k
    ensures a / d >= k
  {
    if a / d < k {
      Ordered(a / d, k, d);
    }
  }

  /** Sectors have their own place in the image if and only if its tracks are not long: from 128
      sectors on the 16 bits for the bytes of a track overflow. */
  lemma SectorsAreApart(image: seq<Byte>)
    requires Image(image) && !NoSectors(image)
    ensures var g := FindDiskDetails(image);
      && g.sectors > 0
      && ((forall p, q :: Accepts(|image|, g, p) && Accepts(|image|, g, q) && Offset(g, p) == Offset(g, q) ==> p == q)
          <==> !LongTracks(image))
  {
    hide FindDiskDetails, Offset, Tracks, Block, NoSectors, LongTracks;
    GuessedSectors(image);
    var g, size := FindDiskDetails(image), |image|;
    if g.sectors < 128 {
      forall p, q | Accepts(size, g, p) && Accepts(size, g, q) && Offset(g, p) == Offset(g, q) ensures p == q {
        OffsetIsBlock(g, p);
        OffsetIsBlock(g, q);
        BlocksDiffer(size, g, p, q);
      }
    } else {
      GuessedTracks(image);
      var p, q := Collide(size, g);
    }
  }

  /** Two sectors of a long track that share their offset. */
  lemma Collide(size: nat, g: Geometry) returns (p: Place, q: Place)
    requires g.sectors >= 128 && g.sides == 2 && Tracks(size, g) >= 1
    ensures Accepts(size, g, p) && Accepts(size, g, q) && Offset(g, p) == Offset(g, q) >= SECTOR && p != q
  {
    hide Tracks;
    p, q := Place(0, 0, 2 + g.sectors % 128), Place(0, 1, 2);
    assert BytesPerTrack(g) == SECTOR * (g.sectors % 128);
  }

  // Several sectors.

  /** Where an access starts, counted in sectors, as the 16 bits for the bytes of a track have it. */
  function StartBlock(g: Geometry, p: Place): nat
    requires p.sector >= 1
  {
    Block(g.(sectors := g.sectors % 128), p)
  }

  /** Several sectors stay inside the image if and only if there are as many behind the start; for
      the rest of a track there always are. */
  lemma SectorsStayInside(size: nat, g: Geometry, p: Place, count: nat)
    requires g.sectors > 0 && g.sides > 0 && Accepts(size, g, p)
    ensures Offset(g, p) == SECTOR * StartBlock(g, p)
    ensures g.sectors < 128 ==> StartBlock(g, p) == Block(g, p)
    ensures Offset(g, p) + SECTOR * count <= size <==> count <= size / SECTOR - StartBlock(g, p)
    ensures p.sector - 1 + count <= g.sectors ==> Offset(g, p) + SECTOR * count <= size
  {
    hide Tracks, Block, Offset;
    var h := g.(sectors := g.sectors % 128);
    SameBytes(g, p);
    OffsetIsBlock(h, p);
    Divided(size, SECTOR);
    if p.sector - 1 + count <= g.sectors {
      var last := p.(sector := g.sectors);
      AcceptedIsInside(size, g, last);
      OffsetAtMostBlock(g, last);
      OffsetInTrack(g, p);
    }
  }

  lemma SameBytes(g: Geometry, p: Place)
    requires p.sector >= 1
    ensures Offset(g, p) == Offset(g.(sectors := g.sectors % 128), p)
  {
    assert BytesPerTrack(g) == SECTOR * (g.sectors % 128);
  }

  lemma OffsetInTrack(g: Geometry, p: Place)
    requires 1 <= p.sector <= g.sectors
    ensures Offset(g, p.(sector := g.sectors)) == Offset(g, p) + SECTOR * (g.sectors - p.sector)
  {
  }

  // Reading and writing single sectors.

  /** The source divides by the sectors of a track without a test for zero. */
  datatype Read = Sector(bytes: seq<Byte>) | Rejected | DivisionByZero

  function ReadSector(image: seq<Byte>, p: Place): Read
    requires Image(image)
  {
    var g := FindDiskDetails(image);
    if g.sectors == 0 then DivisionByZero
    else if !Accepts(|image|, g, p) then Rejected
    else
      AcceptedIsInside(|image|, g, p);
      OffsetAtMostBlock(g, p);
      Sector(image[Offset(g, p)..Offset(g, p) + SECTOR])
  }

  function Written(image: seq<Byte>, at: nat, data: seq<Byte>): (after: seq<Byte>)
    requires at + |data| <= |image|
    ensures |after| == |image|
  {
    image[..at] + data + image[at + |data|..]
  }

  lemma WrittenElsewhere(image: seq<Byte>, at: nat, data: seq<Byte>, from: nat, to: nat)
    requires at + |data| <= |image| && from <= to <= |image| && (to <= at || at + |data| <= from)
    ensures Written(image, at, data)[from..to] == image[from..to]
  {
  }

  lemma WrittenHere(image: seq<Byte>, at: nat, data: seq<Byte>)
    requires at + |data| <= |image|
    ensures Written(image, at, data)[at..at + |data|] == data
  {
  }

  /** With the geometry unchanged, a write changes its own sector only. */
  lemma SameGeometry(image: seq<Byte>, p: Place, data: seq<Byte>, q: Place)
    requires Image(image) && |data| == SECTOR && 0 < FindDiskDetails(image).sectors < 128
    requires var g := FindDiskDetails(image); Accepts(|image|, g, p) && Offset(g, p) + SECTOR <= |image|
    requires var after := Written(image, Offset(FindDiskDetails(image), p), data);
      FindDiskDetails(after) == FindDiskDetails(image)
    ensures var after := Written(image, Offset(FindDiskDetails(image), p), data);
      ReadSector(after, q) == if q == p then Sector(data) else ReadSector(image, q)
  {
    hide FindDiskDetails, Written, Offset, Tracks, Block;
    var g := FindDiskDetails(image);
    var at := Offset(g, p);
    if q == p {
      WrittenHere(image, at, data);
    } else if Accepts(|image|, g, q) {
      OffsetIsBlock(g, p);
      OffsetIsBlock(g, q);
      AcceptedIsInside(|image|, g, q);
      if Block(g, p) == Block(g, q) {
        BlocksDiffer(|image|, g, p, q);
      }
      WrittenElsewhere(image, at, data, Offset(g, q), Offset(g, q) + SECTOR);
    }
  }

  /** Geometries under which the same sectors can be read are the same. */
  lemma SameSectors(size: nat, g: Geometry, g': Geometry, p: Place)
    requires g.sectors > 0 && g.sides > 0 && g'.sectors > 0 && g'.sides > 0 && Accepts(size, g, p)
    requires forall q :: Accepts(size, g', q) <==> Accepts(size, g, q)
    ensures g' == g
  {
    hide Tracks;
    assert Accepts(size, g, Place(0, 0, 1));
    assert Accepts(size, g', Place(0, 0, 1));
    assert Accepts(size, g, Place(0, 0, g.sectors)) && Accepts(size, g', Place(0, 0, g'.sectors));
    assert Accepts(size, g', Place(0, 0, g.sectors)) && Accepts(size, g, Place(0, 0, g'.sectors));
    assert Accepts(size, g, Place(0, g.sides - 1, 1)) && Accepts(size, g', Place(0, g'.sides - 1, 1));
    assert Accepts(size, g', Place(0, g.sides - 1, 1)) && Accepts(size, g, Place(0, g'.sides - 1, 1));
  }

  /** After a write of one sector exactly that sector reads differently, namely as written. */
  ghost predicate IsLocal(image: seq<Byte>, p: Place, data: seq<Byte>)
    requires Image(image) && |data| == SECTOR
    requires var g := FindDiskDetails(image); g.sectors > 0 && Accepts(|image|, g, p)
  {
    var g := FindDiskDetails(image);
    AcceptedIsInside(|image|, g, p);
    OffsetAtMostBlock(g, p);
    var after := Written(image, Offset(g, p), data);
    forall q :: ReadSector(after, q) == if q == p then Sector(data) else ReadSector(image, q)
  }

  const BOOT := Place(0, 0, 1)

  /** The image still has its geometry after sector `p` was written: a write elsewhere than to the
      boot sector cannot change it, and a new boot sector must give the same. */
  predicate KeepsGeometry(image: seq<Byte>, p: Place, data: seq<Byte>)
    requires Image(image) && |data| == SECTOR <= |image|
  {
    p != BOOT || FindDiskDetails(data + image[SECTOR..]) == FindDiskDetails(image)
  }

  /** Only the boot sector can change the geometry. */
  lemma OtherSectorsKeepGeometry(image: seq<Byte>, p: Place, data: seq<Byte>)
    requires Image(image) && |data| == SECTOR && 0 < FindDiskDetails(image).sectors < 128
    requires Accepts(|image|, FindDiskDetails(image), p) && p != BOOT
    ensures var g := FindDiskDetails(image);
      Offset(g, p) + SECTOR <= |image| && FindDiskDetails(Written(image, Offset(g, p), data)) == g
  {
    hide Offset, Tracks, Block, Suspicious, DoubleCheckFormat;
    var g := FindDiskDetails(image);
    AcceptedIsInside(|image|, g, p);
    OffsetIsBlock(g, p);
    BootIsFirst(g, p);
    var after := Written(image, Offset(g, p), data);
    assert forall k :: 0 <= k < 28 ==> after[k] == image[k];
  }

  lemma BootIsFirst(g: Geometry, p: Place)
    requires g.sectors > 0 && g.sides > 0 && p.sector >= 1 && p.side < g.sides && p != BOOT
    ensures Block(g, p) >= 1
  {
    if p.track > 0 {
      Scale(1, p.track, g.sides);
    }
    if p.track * g.sides + p.side > 0 {
      Scale(1, p.track * g.sides + p.side, g.sectors);
    }
  }

  /** What KeepsGeometry says of the image as it is written. */
  lemma WrittenGeometry(image: seq<Byte>, p: Place, data: seq<Byte>)
    requires Image(image) && |data| == SECTOR && !NoSectors(image) && !LongTracks(image)
    requires var g := FindDiskDetails(image); g.sectors > 0 && Accepts(|image|, g, p)
    ensures var g := FindDiskDetails(image);
      Offset(g, p) + SECTOR <= |image| &&
          (FindDiskDetails(Written(image, Offset(g, p), data)) == g <==> KeepsGeometry(image, p, data))
  {
    hide FindDiskDetails, Offset, Tracks, Block, NoSectors, LongTracks;
    var g := FindDiskDetails(image);
    GuessedSectors(image);
    AcceptedIsInside(|image|, g, p);
    OffsetAtMostBlock(g, p);
    if p == BOOT {
      BootIsAtStart(g);
      assert Written(image, 0, data) == data + image[SECTOR..];
    } else {
      OtherSectorsKeepGeometry(image, p, data);
    }
  }

  lemma BootIsAtStart(g: Geometry)
    ensures Offset(g, BOOT) == 0
  {
  }

  /** A written sector is read back and all others are as they were, if and only if the write
      keeps the geometry of the image, which is found again at every access. */
  lemma WriteThenRead(image: seq<Byte>, p: Place, data: seq<Byte>)
    requires Image(image) && |data| == SECTOR && !NoSectors(image) && !LongTracks(image)
    requires var g := FindDiskDetails(image); g.sectors > 0 && Accepts(|image|, g, p)
    ensures SECTOR <= |image| && (IsLocal(image, p, data) <==> KeepsGeometry(image, p, data))
  {
    hide FindDiskDetails, Written, Offset, Tracks, Block, NoSectors, LongTracks, KeepsGeometry;
    var g := FindDiskDetails(image);
    GuessedSectors(image);
    AcceptedIsInside(|image|, g, p);
    OffsetAtMostBlock(g, p);
    WrittenGeometry(image, p, data);
    var after := Written(image, Offset(g, p), data);
    var g' := FindDiskDetails(after);
    if g' == g {
      forall q ensures ReadSector(after, q) == if q == p then Sector(data) else ReadSector(image, q) {
        SameGeometry(image, p, data, q);
      }
    }
    if IsLocal(image, p, data) {
      assert ReadSector(after, p) == Sector(data);
      forall q ensures Accepts(|image|, g', q) <==> Accepts(|image|, g, q) {
        assert ReadSector(after, q).Sector? <==> ReadSector(image, q).Sector? || q == p;
      }
      SameSectors(|image|, g, g', p);
    }
  }

  /** All writes that keep the geometry are local, if and only if the tracks are not long. */
  lemma WritesAreLocal(image: seq<Byte>)
    requires Image(image) && !NoSectors(image)
    ensures var g := FindDiskDetails(image);
      && g.sectors > 0
      && ((forall p, data: seq<Byte> ::
             |data| == SECTOR <= |image| && Accepts(|image|, g, p) && KeepsGeometry(image, p, data) ==>
                 IsLocal(image, p, data))
          <==> !LongTracks(image))
  {
    hide FindDiskDetails, Offset, Tracks, Block, NoSectors, LongTracks, KeepsGeometry, IsLocal;
    GuessedSectors(image);
    var g := FindDiskDetails(image);
    if LongTracks(image) {
      GuessedTracks(image);
      var p, data := SharedSector(image);
    } else {
      forall p, data: seq<Byte> | |data| == SECTOR <= |image| && Accepts(|image|, g, p) && KeepsGeometry(image, p, data)
        ensures IsLocal(image, p, data)
      {
        WriteThenRead(image, p, data);
      }
    }
  }

  /** A sector of a long track whose write shows in another sector as well. */
  lemma SharedSector(image: seq<Byte>) returns (p: Place, data: seq<Byte>)
    requires Image(image) && FindDiskDetails(image).sectors >= 128
    requires FindDiskDetails(image).sides == 2 && Tracks(|image|, FindDiskDetails(image)) >= 1
    ensures |data| == SECTOR <= |image| && Accepts(|image|, FindDiskDetails(image), p)
    ensures KeepsGeometry(image, p, data) && !IsLocal(image, p, data)
  {
    hide Tracks, Offset, Block, Suspicious, DoubleCheckFormat;
    var g, q := FindDiskDetails(image), BOOT;
    p, q := Collide(|image|, g);
    AcceptedIsInside(|image|, g, p);
    OffsetAtMostBlock(g, p);
    BootIsAtStart(g);
    var at := Offset(g, p);
    var b: Byte := if image[at] == 0 then 1 else 0;
    data := [b] + image[at + 1..at + SECTOR];
    var after := Written(image, at, data);
    assert forall k :: 0 <= k < 28 ==> after[k] == image[k];
    assert FindDiskDetails(after) == g;
    WrittenHere(image, at, data);
    assert ReadSector(after, q) == Sector(data);
    assert image[at..at + SECTOR][0] != data[0];
    assert ReadSector(image, q) == Sector(image[at..at + SECTOR]);
  }

  // Images for which the source fails.

  /** A boot sector of zeros on an image of one sector. */
  lemma EmptyBootSector()
    ensures var image := seq(512, _ => 0); Image(image) && NoSectors(image) && ReadSector(image, BOOT) == DivisionByZero
  {
    var image: seq<Byte> := seq(512, _ => 0);
    GuessedSectors(image);
  }

  /** A write of a whole track that starts at the second sector of the last one runs over the end
      of a blank disk of 720 KB. */
  lemma TrackRunsOver()
    ensures var image: seq<Byte>, g, p := seq(737280, _ => 0), Geometry(9, 2), Place(79, 1, 2);
      && Image(image) && FindDiskDetails(image) == g && Accepts(|image|, g, p)
      && Offset(g, p) + SECTOR * g.sectors == |image| + SECTOR
  {
    var image: seq<Byte> := seq(737280, _ => 0);
    assert FindDiskDetails(image) == Geometry(9, 2);
  }

  /** A disk of 336 MB whose boot sector says tracks of 5 sectors: it has more tracks than 16
      bits can number. */
  lemma ManyTracks()
    ensures var image: seq<Byte> := seq(335549440, k => if k == 24 then 5 else 0);
      && Image(image) && FindDiskDetails(image) == Geometry(5, 2) && Tracks(|image|, Geometry(5, 2)) == 0x1_0001
      && exists block: nat :: block < 0x1_0001 * 2 * 5 && !HasPlace(|image|, Geometry(5, 2), block)
  {
    hide HasPlace;
    var image: seq<Byte> := seq(335549440, k => if k == 24 then 5 else 0);
    assert ShortAt(image, 24) == 5;
    EveryBlockHasAPlace(|image|, Geometry(5, 2));
  }

  /** Zeros for a disk of 10 MB. */
  lemma LargeBlankImage()
    ensures var image: seq<Byte> := seq(10485760, _ => 0);
      Image(image) && LongTracks(image) && FindDiskDetails(image) == Geometry(128, 2)
  {
  }

  /** A single-sided disk of 80 tracks with 9 sectors, with a mark at the start of its second
      track; its boot sector is blank. */
  function MarkedDisk(): seq<Byte> { seq(368640, k => if k == 4608 then 1 else 0) }

  /** A boot sector that states tracks of 8 sectors for that disk. */
  function NewBoot(): seq<Byte> {
    seq(512, k => if k == 19 then 0xD0 else if k == 20 then 2 else if k == 24 then 8 else if k == 26 then 1 else 0)
  }

  /** Writing it moves the mark away from the sector that it was in, and hides another sector. */
  lemma BootSectorMovesOthers()
    ensures var image, data := MarkedDisk(), NewBoot();
      && Image(image) && |data| == SECTOR && !NoSectors(image) && !LongTracks(image)
      && FindDiskDetails(image) == Geometry(9, 1) && !KeepsGeometry(image, BOOT, data)
      && var after := data + image[SECTOR..];
      && ReadSector(image, Place(1, 0, 1)) == Sector(image[4608..5120]) && image[4608] == 1
      && ReadSector(after, Place(1, 0, 1)) == Sector(after[4096..4608]) && after[4096] == 0
      && ReadSector(image, Place(0, 0, 9)).Sector? && ReadSector(after, Place(0, 0, 9)) == Rejected
  {
    hide FindDiskDetails;
    var image, data := MarkedDisk(), NewBoot();
    var after := data + image[SECTOR..];
    MarkedGeometry();
    NewGeometry();
    GuessedSectors(image);
  }

  lemma MarkedGeometry()
    ensures Image(MarkedDisk()) && FindDiskDetails(MarkedDisk()) == Geometry(9, 1)
  {
  }

  lemma NewGeometry()
    ensures var after := NewBoot() + MarkedDisk()[SECTOR..]; Image(after) && FindDiskDetails(after) == Geometry(8, 1)
  {
    var after := NewBoot() + MarkedDisk()[SECTOR..];
    assert ShortAt(after, 19) == 720 && ShortAt(after, 24) == 8 && ShortAt(after, 26) == 1;
  }
}
