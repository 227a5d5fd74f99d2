/** The AVI recorder as the emulator runs it: counters, an index array that grows, and a file
    that is appended to and patched. */
module AviEngine {
  import opened AviIndex

  const ALLOC_SIZE := 50000

  /** An element of the index array: a pair of frames. */
  datatype FrameIndex = FrameIndex(videoPos: nat, videoLength: nat, audioPos: nat, audioLength: nat)

  function EntryOf(s: Stream, x: FrameIndex): Entry {
    if s == Video then Entry(x.videoPos, x.videoLength) else Entry(x.audioPos, x.audioLength)
  }

  /** The first `n` elements of the array as entries of a stream. */
  function Entries(s: Stream, index: seq<FrameIndex>, n: nat): (entries: seq<Entry>)
    requires n <= |index|
    ensures |entries| == n && forall i :: 0 <= i < n ==> entries[i] == EntryOf(s, index[i])
  {
    if n == 0 then [] else Entries(s, index, n - 1) + [EntryOf(s, index[n - 1])]
  }

  lemma SameEntries(s: Stream, index: seq<FrameIndex>, other: seq<FrameIndex>, n: nat)
    requires n <= |index| && n <= |other| && forall i :: 0 <= i < n ==> EntryOf(s, index[i]) == EntryOf(s, other[i])
    ensures Entries(s, index, n) == Entries(s, other, n)
  {
  }

  class Recorder {
    var file: File
    var totalVideo: nat
    var totalAudio: nat
    var riffStart: nat
    var riffFileSize: nat
    var moviStart: nat
    var moviCount: nat
    var videoBase: nat
    var audioBase: nat
    var index: seq<FrameIndex>
    var indexCount: nat
    var videoSuper: seq<SuperEntry>
    var audioSuper: seq<SuperEntry>
    // All frames so far, and where the movi chunks begin and end.
    ghost var videos: seq<Frame>
    ghost var audios: seq<Frame>
    ghost var first: nat
    ghost var firsts: seq<nat>
    ghost var closed: seq<Span>

    ghost predicate Valid()
      reads this
    {
      && |videos| == totalVideo && |audios| == totalAudio && -1 <= totalVideo - totalAudio <= 1
      && |index| > 0 && indexCount <= |index| && (totalVideo != totalAudio ==> indexCount < |index|)
      && |videoSuper| == moviCount && |audioSuper| == moviCount
    }

    /** Entries of a stream, the one of an incomplete pair included. */
    ghost function Filled(s: Stream): (n: nat)
      reads this
      requires Valid()
      ensures n <= |index|
    {
      indexCount + (if (s == Video && totalVideo > totalAudio) || (s == Audio && totalAudio > totalVideo) then 1 else 0)
    }

    function BaseOf(s: Stream): nat
      reads this
    {
      if s == Video then videoBase else audioBase
    }

    ghost function State(): Avi
      reads this
      requires Valid()
    {
      Avi(file, Track(videos, videoBase, Entries(Video, index, Filled(Video)), videoSuper),
          Track(audios, audioBase, Entries(Audio, index, Filled(Audio)), audioSuper),
          riffStart, riffFileSize, moviStart, moviCount, first, firsts, closed)
    }

    /** A recording whose headers end at `movi`. */
    constructor (movi: nat)
      ensures Valid() && State() == Start(movi)
    {
      file := File(movi + 12, map[0 := Header(Riff, 0), movi := Header(List, 0)], map[]);
      totalVideo, totalAudio := 0, 0;
      riffStart, riffFileSize, moviStart, moviCount := 0, 0, movi, 0;
      videoBase, audioBase := 0, 0;
      index := seq(ALLOC_SIZE, _ => FrameIndex(0, 0, 0, 0));
      indexCount := 0;
      videoSuper, audioSuper := [], [];
      videos, audios, first, firsts, closed := [], [], 0, [], [];
    }

    /** Writes an index chunk; returns what its super index entry needs. */
    method WriteMoviIndex(s: Stream) returns (e: SuperEntry)
      requires Valid()
      modifies this`file
      ensures Valid()
      ensures var entries, size := Entries(s, index, indexCount), INDEX_HEADER + 8 * indexCount;
        && e == SuperEntry(old(file.end), Low32(size), Low32(Duration(s, entries)))
        && file == Append(old(file), Header(Ix(s), Low32(size - 8)), size).(
                     indexes := old(file).indexes[old(file).end := Index(s, BaseOf(s), entries)])
    {
      hide Entries, Duration, Low32;
      var position, size := file.end, INDEX_HEADER + 8 * indexCount;
      var entries, duration := CollectEntries(s);
      file := Append(file, Header(Ix(s), Low32(size - 8)), size);
      file := file.(indexes := file.indexes[position := Index(s, BaseOf(s), entries)]);
      e := SuperEntry(position, Low32(size), Low32(duration));
    }

    /** The entries of an index chunk; its duration counts video frames, or the bytes of audio. */
    method CollectEntries(s: Stream) returns (entries: seq<Entry>, duration: nat)
      requires Valid()
      ensures entries == Entries(s, index, indexCount) && duration == Duration(s, entries)
    {
      entries := [];
      duration := if s == Video then indexCount else 0;
      for i := 0 to indexCount
        invariant entries == Entries(s, index, i)
        invariant duration == if s == Video then indexCount else Sizes(entries)
      {
        ghost var before := entries;
        entries := entries + [EntryOf(s, index[i])];
        assert entries[..|entries| - 1] == before;
        if s == Audio {
          duration := duration + index[i].audioLength;
        }
      }
    }

    /** What writing the index of a stream does to the state. */
    lemma IndexIsComplete(s: Stream)
      requires Valid()
      ensures Count(State()) == indexCount && Complete(State(), Of(State(), s)) == Entries(s, index, indexCount)
    {
    }

    /** Both indexes, each with its entry in the super index. */
    method WriteMoviAllIndexes()
      requires Valid() && moviCount < SUPER_INDEX_SIZE
      modifies this`file, this`videoSuper, this`audioSuper
      ensures |videoSuper| == |audioSuper| == moviCount + 1
      ensures var b := WriteIndex(WriteIndex(old(State()), Video), Audio);
        file == b.file && videoSuper == b.video.super && audioSuper == b.audio.super
    {
      hide Complete, Count, Duration, Entries;
      ghost var a := State();
      IndexIsComplete(Video);
      IndexIsComplete(Audio);
      var v := WriteMoviIndex(Video);
      var u := WriteMoviIndex(Audio);
      SameCount(a, WriteIndex(a, Video));
      videoSuper := videoSuper + [v];
      audioSuper := audioSuper + [u];
    }

    /** Writes the indexes and patches the sizes in the headers of the chunk. */
    method CloseMoviChunk()
      requires Valid() && moviCount < SUPER_INDEX_SIZE
      modifies this`file, this`videoSuper, this`audioSuper, this`riffFileSize
      ensures |videoSuper| == |audioSuper| == moviCount + 1
      ensures var c := CloseMovi(old(State()));
        file == c.file && videoSuper == c.video.super && audioSuper == c.audio.super && riffFileSize == c.riffSize
    {
      hide WriteIndex, Complete, Count;
      IndexesLeave(State());
      WriteMoviAllIndexes();
      var posEnd := file.end;
      file := Patched(file, moviStart, List, posEnd - moviStart - 8);
      if moviCount == 0 {
        riffFileSize := Low32(posEnd - 8);
      } else {
        file := Patched(file, riffStart, Riff, posEnd - riffStart - 8);
      }
    }

    /** Closes the movi chunk and starts another one in a new RIFF chunk. */
    method CreateNewMoviChunk()
      requires Valid() && moviCount < SUPER_INDEX_SIZE && totalVideo == totalAudio
      modifies this`file, this`videoSuper, this`audioSuper, this`riffFileSize, this`riffStart, this`moviStart,
          this`moviCount,
               this`indexCount, this`first, this`firsts, this`closed
      ensures Valid() && State() == NewMovi(old(State()))
    {
      hide Complete, Count, CloseMovi, Low32, EntryOf;
      ghost var a := State();
      IndexIsComplete(Video);
      CloseLeaves(a);
      CloseMoviChunk();
      closed := closed + [Span(riffStart, moviStart, file.end)];
      firsts := firsts + [first];
      first := first + indexCount;
      moviCount := moviCount + 1;
      indexCount := 0;
      riffStart := file.end;
      file := Append(file, Header(Riff, 0), 12);
      moviStart := file.end;
      file := Append(file, Header(List, 0), 12);
    }

    /** Makes room for another element, as a reallocation does. */
    method GrowIfNeeded()
      requires indexCount <= |index|
      modifies this`index
      ensures |index| > indexCount && old(index) <= index
    {
      if indexCount == |index| {
        index := index + seq(ALLOC_SIZE, _ => FrameIndex(0, 0, 0, 0));
      }
    }

    /** Stores the position and length of a frame; the first one of a movi chunk is the base. */
    method StoreEntry(s: Stream, pos: nat, length: nat)
      requires indexCount <= |index|
      modifies this`index, this`videoBase, this`audioBase
      ensures var base := if s == Video then videoBase else audioBase;
        && base == (if indexCount == 0 then pos else if s == Video then old(videoBase) else old(audioBase))
        && (s == Audio ==> videoBase == old(videoBase)) && (s == Video ==> audioBase == old(audioBase))
        && |index| >= |old(index)| && |index| > indexCount
        && EntryOf(s, index[indexCount]) == Entry(Low32(pos - base), Low32(length))
        && (indexCount < |old(index)| ==>
              EntryOf(Other(s), index[indexCount]) == EntryOf(Other(s), old(index)[indexCount]))
        && forall i :: 0 <= i < indexCount ==> index[i] == old(index)[i]
    {
      GrowIfNeeded();
      var x := index[indexCount];
      if s == Video {
        if indexCount == 0 {
          videoBase := pos;
        }
        x := x.(videoPos := Low32(pos - videoBase), videoLength := Low32(length));
      } else {
        if indexCount == 0 {
          audioBase := pos;
        }
        x := x.(audioPos := Low32(pos - audioBase), audioLength := Low32(length));
      }
      index := index[indexCount := x];
    }

    /** Stores an entry and counts it when its pair is complete. */
    method AddEntry(s: Stream, pos: nat, length: nat)
      requires indexCount <= |index|
      modifies this`index, this`indexCount, this`videoBase, this`audioBase
      ensures var base, n := if s == Video then videoBase else audioBase, old(indexCount);
        && base == (if n == 0 then pos else if s == Video then old(videoBase) else old(audioBase))
        && (s == Audio ==> videoBase == old(videoBase)) && (s == Video ==> audioBase == old(audioBase))
        && indexCount == n + (if totalVideo == totalAudio then 1 else 0) && n < |index|
        && Entries(s, index, n + 1) == Entries(s, old(index), n) + [Entry(Low32(pos - base), Low32(length))]
        && Entries(Other(s), index, n) == Entries(Other(s), old(index), n)
        && (n < |old(index)| ==> Entries(Other(s), index, n + 1) == Entries(Other(s), old(index), n + 1))
    {
      hide Entries, EntryOf, Low32;
      StoreEntry(s, pos, length);
      StoredEntries(s, old(index), index, indexCount);
      if totalVideo == totalAudio {
        indexCount := indexCount + 1;
      }
    }

    /** Records a frame of a stream, whose turn it is: its chunk, its index entry, and a new movi
        chunk when the last pair of this one starts too far behind the first. */
    method RecordFrame(s: Stream, length: nat)
      requires Valid() && moviCount < SUPER_INDEX_SIZE
      requires if s == Video then totalVideo <= totalAudio else totalAudio <= totalVideo
      modifies this
      ensures Valid() && State() == Record(old(State()), s, length)
    {
      hide NewMovi, Complete, Count, WithEntry, WriteFrame;
      ghost var a := State();
      IndexIsComplete(Video);
      IndexIsComplete(Audio);
      EnterFrame(s, length);
      ghost var b := WithEntry(WriteFrame(a, s, length), s, a.file.end + 8, length);
      if totalVideo == totalAudio {
        IndexIsComplete(Video);
        if index[indexCount - 1].videoPos > MOVI_MAX {
          CreateNewMoviChunk();
        }
      }
    }

    /** Writes the chunk of a frame; returns the position of its data. */
    method AppendFrame(s: Stream, length: nat) returns (pos: nat)
      modifies this`file, this`totalVideo, this`totalAudio, this`videos, this`audios
      ensures pos == old(file.end) + 8 && file == Append(old(file), Header(Data(s), Low32(length)), 8 + length)
      ensures totalVideo == old(totalVideo) + (if s == Video then 1 else 0)
      ensures totalAudio == old(totalAudio) + (if s == Audio then 1 else 0)
      ensures videos == old(videos) + (if s == Video then [Frame(pos, length)] else [])
      ensures audios == old(audios) + (if s == Audio then [Frame(pos, length)] else [])
    {
      hide Append, Low32;
      pos := file.end;
      file := Append(file, Header(Data(s), Low32(length)), 8 + length);
      pos := pos + 8;
      if s == Video {
        totalVideo := totalVideo + 1;
        videos := videos + [Frame(pos, length)];
      } else {
        totalAudio := totalAudio + 1;
        audios := audios + [Frame(pos, length)];
      }
    }

    /** The chunk and the index entry of a frame. */
    method EnterFrame(s: Stream, length: nat)
      requires Valid()
      requires if s == Video then totalVideo <= totalAudio else totalAudio <= totalVideo
      modifies this`file, this`totalVideo, this`totalAudio, this`index, this`indexCount, this`videoBase, this`audioBase,
               this`videos, this`audios
      ensures Valid() && State() == WithEntry(WriteFrame(old(State()), s, length), s, old(file.end) + 8, length)
      ensures totalVideo == totalAudio ==> indexCount > 0
    {
      hide Append, Entries, EntryOf, Complete, Count, WithEntry, WriteFrame, Low32;
      ghost var a, n := State(), indexCount;
      IndexIsComplete(s);
      var posStart := AppendFrame(s, length);
      AddEntry(s, posStart, length);
      assert Filled(s) == n + 1;
      assert Filled(Other(s)) == if |Of(a, Other(s)).frames| > |Of(a, s).frames| then n + 1 else n;
      assert Of(State(), Other(s)) == Of(a, Other(s));
      EnteredIs(a, s, length, State());
    }

    /** Finishes the file. */
    method StopRecording()
      requires Valid() && moviCount < SUPER_INDEX_SIZE
      modifies this`file, this`videoSuper, this`audioSuper, this`riffFileSize
      ensures var z := Stop(old(State())); file == z.file && videoSuper == z.video.super && audioSuper == z.audio.super
    {
      hide CloseMovi;
      CloseMoviChunk();
      file := Patched(file, 0, Riff, riffFileSize);
    }
  }

  lemma EnteredIs(a: Avi, s: Stream, length: nat, z: Avi)
    requires var t, u, pos := Of(a, s), Of(z, s), a.file.end + 8;
      && u.frames == t.frames + [Frame(pos, length)] && u.super == t.super &&
           u.base == (if Count(a) == 0 then pos else t.base)
      && u.entries == Complete(a, t) + [Entry(Low32(pos - u.base), Low32(length))]
    requires Of(z, Other(s)) == Of(a, Other(s))
    requires z == a.(file := Append(a.file, Header(Data(s), Low32(length)), 8 + length), video := z.video,
        audio := z.audio)
    ensures z == WithEntry(WriteFrame(a, s, length), s, a.file.end + 8, length)
  {
    hide Append, Complete, Count;
    FrameLeavesCount(a, s, length);
  }

  lemma FrameLeavesCount(a: Avi, s: Stream, length: nat)
    ensures var b := WriteFrame(a, s, length); Count(b) == Count(a) && Complete(b, Of(b, s)) == Complete(a, Of(a, s))
  {
  }

  /** The array after an element was stored at `n`, as the entries of either stream. */
  lemma StoredEntries(s: Stream, was: seq<FrameIndex>, index: seq<FrameIndex>, n: nat)
    requires n <= |was| <= |index| && n < |index| && forall i :: 0 <= i < n ==> index[i] == was[i]
    ensures Entries(s, index, n + 1) == Entries(s, was, n) + [EntryOf(s, index[n])]
    ensures Entries(Other(s), index, n) == Entries(Other(s), was, n)
    ensures n < |was| && EntryOf(Other(s), index[n]) == EntryOf(Other(s), was[n]) ==>
      Entries(Other(s), index, n + 1) == Entries(Other(s), was, n + 1)
  {
    SameEntries(s, was, index, n);
    SameEntries(Other(s), was, index, n);
  }

  lemma SameCount(a: Avi, b: Avi)
    requires b == WriteIndex(a, Video)
    ensures Count(b) == Count(a) && Complete(b, b.audio) == Complete(a, a.audio)
  {
  }

  /** What writing the indexes leaves alone. */
  lemma IndexesLeave(a: Avi)
    ensures var b := WriteIndex(WriteIndex(a, Video), Audio);
      b == a.(file := b.file, video := a.video.(super := b.video.super), audio := a.audio.(super := b.audio.super))
  {
    hide Complete, Count, Duration;
  }

  lemma CloseLeaves(a: Avi)
    ensures var c := CloseMovi(a);
      c == a.(file := c.file, video := a.video.(super := c.video.super), audio := a.audio.(super := c.audio.super),
          riffSize := c.riffSize)
  {
    hide WriteIndex, Count, Complete;
    IndexesLeave(a);
  }
}
