/** A floppy drive with its image in memory, and the creation of blank images. */
module FloppyEngine {
  import opened Bytes
  import opened Floppy

  /** To the side, then to the track, and finally to the sector. */
  method Seek(g: Geometry, p: Place) returns (offset: nat)
    requires p.sector >= 1
    ensures offset == Offset(g, p)
  {
    offset := BytesPerTrack(g) * p.side;
    offset := offset + BytesPerTrack(g) * g.sides * p.track;
    offset := offset + SECTOR * (p.sector - 1);
  }

  class Drive {
    var diskInserted: bool
    var writeProtected: bool
    var contentsChanged: bool
    const image: array<Byte>

    ghost predicate Valid()
      reads this, image
    {
      Image(image[..])
    }

    /** The geometry that an access finds. */
    ghost function Details(): (g: Geometry)
      requires Valid()
      reads this, image
      ensures g == FindDiskDetails(image[..]) && (g.sectors == 0 <==> NoSectors(image[..]))
    {
      GuessedSectors(image[..]);
      FindDiskDetails(image[..])
    }

    constructor (image: array<Byte>, writeProtected: bool)
      requires Image(image[..])
      ensures Valid() && this.image == image && diskInserted && this.writeProtected == writeProtected &&
          !contentsChanged
    {
      this.image := image;
      this.writeProtected := writeProtected;
      diskInserted, contentsChanged := true, false;
    }

    /** Where a sector starts, and the sectors of a track.  A negative count asks for a whole
        track; the source divides by the sectors of a track. */
    method ReadSectors(p: Place, count: int) returns (ok: bool, offset: nat, sectors: nat, bytes: int)
      requires Valid() && !NoSectors(image[..])
      ensures ok == (diskInserted && Accepts(image.Length, Details(), p))
      ensures diskInserted ==> sectors == Details().sectors
      ensures ok ==> offset + SECTOR <= image.Length
      ensures ok ==> ReadSector(image[..], p) == Sector(image[offset..offset + SECTOR])
      ensures ok ==> bytes == SECTOR * if count < 0 then sectors else count
    {
      hide FindDiskDetails, Tracks, Offset, Block, NoSectors;
      ok, offset, sectors, bytes := false, 0, 0, 0;
      if diskInserted {
        GuessedSectors(image[..]);
        var g := FindDiskDetails(image[..]);
        sectors := g.sectors;
        bytes := SECTOR * if count < 0 then sectors else count;
        if p.side >= g.sides || p.track >= Tracks(image.Length, g) {
          return;
        }
        if p.sector <= 0 || p.sector > g.sectors {
          return;
        }
        AcceptedIsInside(image.Length, g, p);
        OffsetAtMostBlock(g, p);
        offset := Seek(g, p);
        ok := true;
      }
    }

    /** Writes sectors from `p` on; they must not run over the end of the image, which the
        source does not test (`SectorsStayInside` says when they do not). */
    method WriteSectors(data: seq<Byte>, p: Place, count: int) returns (ok: bool)
      requires Valid() && !NoSectors(image[..])
      requires |data| == SECTOR * if count < 0 then Details().sectors else count
      requires Accepts(image.Length, Details(), p) ==> Offset(Details(), p) + |data| <= image.Length
      modifies this`contentsChanged, image
      ensures Valid()
      ensures ok == (diskInserted && !writeProtected && Accepts(image.Length, old(Details()), p))
      ensures image[..] == if ok then Written(old(image[..]), Offset(old(Details()), p), data) else old(image[..])
      ensures contentsChanged == (old(contentsChanged) || ok)
    {
      hide FindDiskDetails, Tracks, Offset, Block, NoSectors;
      ok := false;
      if diskInserted && !writeProtected {
        GuessedSectors(image[..]);
        var g := FindDiskDetails(image[..]);
        if p.side >= g.sides || p.track >= Tracks(image.Length, g) {
          return;
        }
        if p.sector <= 0 || p.sector > g.sectors {
          return;
        }
        var offset := Seek(g, p);
        forall k | 0 <= k < |data| {
          image[offset + k] := data[k];
        }
        contentsChanged := true;
        ok := true;
      }
    }
  }

  method WriteShortLE(image: array<Byte>, at: nat, value: nat)
    requires at + 1 < image.Length
    modifies image
    ensures ShortAt(image[..], at) == value % 0x1_0000
    ensures forall k :: 0 <= k < image.Length && k != at && k != at + 1 ==> image[k] == old(image[k])
  {
    image[at] := value % 256;
    image[at + 1] := value / 256 % 256;
  }

  /** Sectors for each of the two file allocation tables. */
  function SectorsPerFat(tracks: nat, sectors: nat): nat {
    if sectors >= 18 then 9 else if tracks >= 80 then 5 else 2
  }

  function SidesOf(sectors: nat, sides: nat): nat {
    if sectors >= 18 then 2 else sides
  }

  function MediaByte(tracks: nat, sectors: nat, sides: nat): Byte {
    if sectors >= 18 then 0xF0
    else (if tracks <= 42 then 0xFC else 0xF8) + (if sides == 2 then 1 else 0)
  }

  /** The tables and the directory entry of the label must fit. */
  predicate RoomForTables(tracks: nat, sectors: nat, sides: nat) {
    (1 + 2 * SectorsPerFat(tracks, sectors)) * SECTOR + 12 <= tracks * sectors * SidesOf(sectors, sides) * SECTOR
  }

  /** The name on the disk, if it gets one: eleven characters, filled up with spaces. */
  datatype Volume = NoVolume | Volume(name: seq<Byte>)

  function Padded(name: seq<Byte>, k: nat): Byte {
    if k < |name| then name[k] else 0x20
  }

  function SectorsPerCluster(tracks: nat, sides: nat): nat {
    if tracks == 40 && sides == 1 then 1 else 2
  }

  /** The first part of a boot sector. */
  ghost predicate HeaderFilled(image: seq<Byte>, tracks: nat, sectors: nat, sides: nat, serial: seq<Byte>)
    requires |image| >= SECTOR && |serial| == 3
  {
    var spc := if tracks == 40 && sides == 1 then 1 else 2;
    && image[0] == 0xE9 && image[1] == 0 && (forall k :: 2 <= k < 8 ==> image[k] == 0x4E) && image[8..11] == serial
    && ShortAt(image, 11) == SECTOR && image[13] == spc && ShortAt(image, 14) == 1 && image[16] == 2
    && ShortAt(image, 17) == if spc == 1 then 64 else if sectors < 18 then 112 else 224
  }

  /** The part with the geometry, in 16 bits each; the rest of the sector is zero. */
  ghost predicate GeometryFilled(image: seq<Byte>, tracks: nat, sectors: nat, sides: nat)
    requires |image| >= SECTOR
  {
    && ShortAt(image, 19) == tracks * sectors * sides % 0x1_0000
    && image[21] == (if sectors >= 18 then 0xF0
                     else if tracks <= 42 then (if sides == 2 then 0xFD else 0xFC)
                     else if sides == 2 then 0xF9 else 0xF8)
    && ShortAt(image, 22) == (if sectors >= 18 then 9 else if tracks >= 80 then 5 else 2)
    && ShortAt(image, 24) == sectors % 0x1_0000 && ShortAt(image, 26) == sides % 0x1_0000
    && (forall k :: 28 <= k < SECTOR ==> image[k] == 0)
  }

  /** The media byte in both tables; nothing else before `end`. */
  ghost predicate MediaFilled(image: seq<Byte>, fats: nat, media: Byte, end: nat)
    requires (1 + 2 * fats) * SECTOR <= end <= |image| && fats > 0
  {
    var second := (1 + fats) * SECTOR;
    && image[SECTOR] == image[second] == media
    && image[SECTOR + 1] == image[SECTOR + 2] == image[second + 1] == image[second + 2] == 0xFF
    && (forall k :: SECTOR + 3 <= k < second ==> image[k] == 0)
    && (forall k :: second + 3 <= k < end ==> image[k] == 0)
  }

  /** The volume name in the first directory entry; the rest of the disk is zero. */
  ghost predicate VolumeFilled(image: seq<Byte>, dir: nat, volume: Volume)
    requires dir + 12 <= |image|
  {
    && (volume.Volume? ==>
          && image[dir + 11] == 8
          && forall k :: 0 <= k < 11 ==> image[dir + k] == if k < |volume.name| then volume.name[k] else 0x20)
    && (forall k :: (if volume.Volume? then dir + 12 else dir) <= k < |image| ==> image[k] == 0)
  }

  /** A blank image; `serial` is random. */
  method CreateImage(tracks: nat, sectors: nat, sides: nat, serial: seq<Byte>, volume: Volume)
      returns (image: array<Byte>)
    requires RoomForTables(tracks, sectors, sides) && |serial| == 3
    ensures fresh(image) && image.Length == tracks * sectors * (if sectors >= 18 then 2 else sides) * SECTOR
    ensures HeaderFilled(image[..], tracks, sectors, if sectors >= 18 then 2 else sides, serial)
    ensures GeometryFilled(image[..], tracks, sectors, if sectors >= 18 then 2 else sides)
    ensures var fats := ShortAt(image[..], 22);
      && (1 + 2 * fats) * SECTOR + 12 <= image.Length && fats > 0
      && MediaFilled(image[..], fats, image[21], (1 + 2 * fats) * SECTOR)
      && VolumeFilled(image[..], (1 + 2 * fats) * SECTOR, volume)
    ensures var heads := if sectors >= 18 then 2 else sides;
      1 <= sectors <= 48 && 1 <= sides <= 2 && 1 <= tracks * sectors * heads < 0x1_0000 ==>
        Image(image[..]) && FindDiskDetails(image[..]) == Geometry(sectors, heads)
  {
    hide FindDiskDetails, Tracks, HeaderFilled, MediaFilled, VolumeFilled;
    var total := tracks * sectors * SidesOf(sectors, sides);
    image := new Byte[total * SECTOR](_ => 0);
    FillHeader(image, tracks, sectors, SidesOf(sectors, sides), serial);
    FillGeometry(image, tracks, sectors, SidesOf(sectors, sides), serial);
    ghost var boot := image[..];
    FillTables(image, SectorsPerFat(tracks, sectors), MediaByte(tracks, sectors, sides), volume);
    SameBoot(image[..], boot, tracks, sectors, SidesOf(sectors, sides), serial);
    if 1 <= sectors <= 48 && 1 <= sides <= 2 && 1 <= total < 0x1_0000 {
      CreatedParsesBack(image[..], tracks, sectors, SidesOf(sectors, sides));
    }
  }

  lemma SameBoot(image: seq<Byte>, boot: seq<Byte>, tracks: nat, sectors: nat, sides: nat, serial: seq<Byte>)
    requires |image| == |boot| >= SECTOR && image[..SECTOR] == boot[..SECTOR] && |serial| == 3
    requires HeaderFilled(boot, tracks, sectors, sides, serial) && GeometryFilled(boot, tracks, sectors, sides)
    ensures HeaderFilled(image, tracks, sectors, sides, serial) && GeometryFilled(image, tracks, sectors, sides)
  {
    assert forall k :: 0 <= k < SECTOR ==> image[k] == image[..SECTOR][k] == boot[..SECTOR][k] == boot[k];
    assert image[8..11] == boot[8..11];
  }

  method FillHeader(image: array<Byte>, tracks: nat, sectors: nat, sides: nat, serial: seq<Byte>)
    requires image.Length >= SECTOR && |serial| == 3 && image[1] == 0
    modifies image
    ensures HeaderFilled(image[..], tracks, sectors, sides, serial)
    ensures forall k :: 19 <= k < image.Length ==> image[k] == old(image[k])
  {
    image[0] := 0xE9;
    forall k | 2 <= k < 8 {
      image[k] := 0x4E;
    }
    image[8], image[9], image[10] := serial[0], serial[1], serial[2];
    WriteShortLE(image, 11, SECTOR);
    var spc := SectorsPerCluster(tracks, sides);
    image[13] := spc;
    WriteShortLE(image, 14, 1);
    image[16] := 2;
    WriteShortLE(image, 17, if spc == 1 then 64 else if sectors < 18 then 112 else 224);
  }

  method FillGeometry(image: array<Byte>, tracks: nat, sectors: nat, sides: nat, ghost serial: seq<Byte>)
    requires image.Length >= SECTOR && |serial| == 3
    requires HeaderFilled(image[..], tracks, sectors, sides, serial) && forall k :: 19 <= k < image.Length ==>
        image[k] == 0
    modifies image
    ensures HeaderFilled(image[..], tracks, sectors, sides, serial) && GeometryFilled(image[..], tracks, sectors, sides)
    ensures forall k :: SECTOR <= k < image.Length ==> image[k] == 0
  {
    hide HeaderFilled;
    ghost var was := image[..];
    WriteShortLE(image, 19, tracks * sectors * sides);
    image[21] := MediaByte(tracks, sectors, sides);
    WriteShortLE(image, 22, SectorsPerFat(tracks, sectors));
    WriteShortLE(image, 24, sectors);
    WriteShortLE(image, 26, sides);
    WriteShortLE(image, 28, 0);
    SameHeader(image[..], was, tracks, sectors, sides, serial);
  }

  lemma SameHeader(image: seq<Byte>, was: seq<Byte>, tracks: nat, sectors: nat, sides: nat, serial: seq<Byte>)
    requires |image| == |was| >= SECTOR && |serial| == 3 && forall k :: 0 <= k < 19 ==> image[k] == was[k]
    requires HeaderFilled(was, tracks, sectors, sides, serial)
    ensures HeaderFilled(image, tracks, sectors, sides, serial)
  {
    assert image[8..11] == was[8..11];
  }

  method FillTables(image: array<Byte>, fats: nat, media: Byte, volume: Volume)
    requires (1 + 2 * fats) * SECTOR + 12 <= image.Length && fats > 0
    requires forall k :: SECTOR <= k < image.Length ==> image[k] == 0
    modifies image
    ensures MediaFilled(image[..], fats, media, (1 + 2 * fats) * SECTOR)
    ensures VolumeFilled(image[..], (1 + 2 * fats) * SECTOR, volume) && image[..SECTOR] == old(image[..SECTOR])
  {
    image[SECTOR], image[SECTOR + 1], image[SECTOR + 2] := media, 0xFF, 0xFF;
    var second := SECTOR + fats * SECTOR;
    image[second], image[second + 1], image[second + 2] := media, 0xFF, 0xFF;
    ghost var was := image[..];
    FillVolume(image, (1 + fats * 2) * SECTOR, volume);
    assert forall k :: 0 <= k < (1 + fats * 2) * SECTOR ==> image[k] == was[k];
  }

  method FillVolume(image: array<Byte>, dir: nat, volume: Volume)
    requires dir + 12 <= image.Length && forall k :: dir <= k < image.Length ==> image[k] == 0
    modifies image
    ensures VolumeFilled(image[..], dir, volume) && image[..dir] == old(image[..dir])
  {
    if volume.Volume? {
      forall k | 0 <= k < 11 {
        image[dir + k] := Padded(volume.name, k);
      }
      image[dir + 11] := 0x08;
    }
  }

  /** A freshly created image is found to have the geometry it was made with. */
  lemma CreatedParsesBack(image: seq<Byte>, tracks: nat, sectors: nat, sides: nat)
    requires 1 <= sectors <= 48 && 1 <= sides <= 2 && 1 <= tracks * sectors * sides < 0x1_0000
    requires |image| == tracks * sectors * sides * SECTOR
    requires ShortAt(image, 19) == tracks * sectors * sides % 0x1_0000
    requires ShortAt(image, 24) == sectors % 0x1_0000 && ShortAt(image, 26) == sides % 0x1_0000
    ensures Image(image) && FindDiskDetails(image) == Geometry(sectors, sides) &&
        Tracks(|image|, Geometry(sectors, sides)) == tracks
  {
    hide DoubleCheckFormat, Tracks;
    var total := tracks * sectors * sides;
    assert total * SECTOR / SECTOR == total;
    TracksOf(tracks, sectors, sides);
  }

  lemma TracksOf(tracks: nat, sectors: nat, sides: nat)
    requires 0 < sectors < 0x1_0000 && 0 < sides < 0x1_0000
    ensures Tracks(tracks * sectors * sides * SECTOR, Geometry(sectors, sides)) == tracks
  {
    var total := tracks * sectors * sides;
    assert total * SECTOR / SECTOR == total;
    assert total == tracks * sides * sectors;
    Exact(tracks * sides, sectors);
    Exact(tracks, sides);
  }

  lemma Exact(q: nat, d: nat)
    requires d > 0
    ensures Over(q * d, d) == q
  {
    Digits(q * d / d, q * d % d, d, q, 0);
  }
}
