/** The index of an AVI recording: frames, index chunks and super indexes of a file that grows
    over several movi chunks. */
module AviIndex {

  const TWO_32 := 0x1_0000_0000
  const MOVI_MAX := 0x4000_0000
  const SUPER_INDEX_SIZE := 256
  const INDEX_HEADER := 32

  /** The longest frame whose length its header can hold. */
  const LONGEST := 0xFFFF_FFFF

  datatype Stream = Video | Audio
  datatype Name = Riff | List | Data(stream: Stream) | Ix(stream: Stream)

  /** A number stored in 32 bits. */
  function Low32(x: int): nat {
    x % TWO_32
  }

  /** A chunk header as stored, its size in 32 bits. */
  datatype Header = Header(name: Name, size: nat)
  datatype Entry = Entry(offset: nat, size: nat)
  datatype Index = Index(stream: Stream, base: nat, entries: seq<Entry>)
  datatype SuperEntry = SuperEntry(offset: nat, size: nat, duration: nat)

  /** The file: its length, and the chunk headers and index chunks at their positions. */
  datatype File = File(end: nat, headers: map<nat, Header>, indexes: map<nat, Index>)

  /** A recorded frame: the position and length of its data. */
  datatype Frame = Frame(pos: nat, length: nat)

  /** A stream: all its frames, the index of the current movi chunk, and the super index. */
  datatype Track = Track(frames: seq<Frame>, base: nat, entries: seq<Entry>, super: seq<SuperEntry>)

  /** Where a movi chunk, its RIFF chunk and both ends are. */
  datatype Span = Span(riff: nat, movi: nat, end: nat)

  /** The recorder.  `riffSize` is the size that waits for the header at the start of the file;
      the current movi chunk has the frames from number `first` on, the closed ones those from
      `firsts` on. */
  datatype Avi = Avi(file: File, video: Track, audio: Track, riffStart: nat, riffSize: nat, moviStart: nat,
      moviCount: nat,
                     first: nat, firsts: seq<nat>, closed: seq<Span>)

  function Of(a: Avi, s: Stream): Track { if s == Video then a.video else a.audio }

  function With(a: Avi, s: Stream, t: Track): Avi {
    if s == Video then a.(video := t) else a.(audio := t)
  }

  function Other(s: Stream): Stream { if s == Video then Audio else Video }

  /** Complete entries of the current index. */
  function Count(a: Avi): nat {
    if |a.video.entries| < |a.audio.entries| then |a.video.entries| else |a.audio.entries|
  }

  function Append(f: File, h: Header, length: nat): File {
    f.(end := f.end + length, headers := f.headers[f.end := h])
  }

  /** A file with its headers up to the first movi chunk, which starts at `movi`. */
  function Start(movi: nat): Avi {
    var none := Track([], 0, [], []);
    var file := File(movi + 12, map[0 := Header(Riff, 0), movi := Header(List, 0)], map[]);
    Avi(file, none, none, 0, 0, movi, 0, 0, [], [])
  }

  function Sizes(entries: seq<Entry>): nat {
    if entries == [] then 0 else Sizes(entries[..|entries| - 1]) + entries[|entries| - 1].size
  }

  /** The duration of an index: video counts frames, audio bytes. */
  function Duration(s: Stream, entries: seq<Entry>): nat {
    if s == Video then |entries| else Sizes(entries)
  }

  function Complete(a: Avi, t: Track): seq<Entry> {
    if Count(a) <= |t.entries| then t.entries[..Count(a)] else t.entries
  }

  /** Writes the index of a stream and its entry in the super index. */
  function WriteIndex(a: Avi, s: Stream): Avi {
    var t, size := Of(a, s), INDEX_HEADER + 8 * Count(a);
    var file := Append(a.file, Header(Ix(s), Low32(size - 8)), size);
    With(a.(file := file.(indexes := file.indexes[a.file.end := Index(s, t.base, Complete(a, t))])), s,
         t.(super := t.super + [SuperEntry(a.file.end, Low32(size), Low32(Duration(s, Complete(a, t))))]))
  }

  function Patched(f: File, at: nat, name: Name, size: int): File {
    f.(headers := f.headers[at := Header(name, Low32(size))])
  }

  /** Writes both indexes and patches the sizes of the chunks that they end; the size of the
      first RIFF chunk waits for the end of the recording. */
  function CloseMovi(a: Avi): Avi {
    var b := WriteIndex(WriteIndex(a, Video), Audio);
    var end := b.file.end;
    var c := b.(file := Patched(b.file, a.moviStart, List, end - a.moviStart - 8));
    if a.moviCount == 0 then c.(riffSize := Low32(end - 8))
    else c.(file := Patched(c.file, a.riffStart, Riff, end - a.riffStart - 8))
  }

  /** Closes the movi chunk and opens another in a RIFF chunk of its own. */
  function NewMovi(a: Avi): Avi {
    var b := CloseMovi(a);
    var riff := b.file.end;
    Avi(Append(Append(b.file, Header(Riff, 0), 12), Header(List, 0), 12),
        b.video.(entries := []), b.audio.(entries := []), riff, b.riffSize, riff + 12, a.moviCount + 1,
        a.first + Count(a), a.firsts + [a.first], a.closed + [Span(a.riffStart, a.moviStart, riff)])
  }

  function Stop(a: Avi): Avi {
    var b := CloseMovi(a);
    b.(file := Patched(b.file, 0, Riff, b.riffSize))
  }

  /** Writes a frame of `length` bytes behind its header. */
  function WriteFrame(a: Avi, s: Stream, length: nat): Avi {
    var t := Of(a, s);
    With(a.(file := Append(a.file, Header(Data(s), Low32(length)), 8 + length)), s,
         t.(frames := t.frames + [Frame(a.file.end + 8, length)]))
  }

  function WithEntry(a: Avi, s: Stream, pos: nat, length: nat): Avi {
    var t := Of(a, s);
    var base := if Count(a) == 0 then pos else t.base;
    With(a, s, t.(base := base, entries := Complete(a, t) + [Entry(Low32(pos - base), Low32(length))]))
  }

  /** The last complete pair starts too far behind the first one. */
  predicate MoviIsFull(a: Avi) {
    && |a.video.frames| == |a.audio.frames|
    && 0 < Count(a) && a.video.entries[Count(a) - 1].offset > MOVI_MAX
  }

  /** Adds a frame to the index; a complete pair may open a new movi chunk. */
  function AddToIndex(a: Avi, s: Stream, pos: nat, length: nat): Avi {
    var b := WithEntry(a, s, pos, length);
    if MoviIsFull(b) then NewMovi(b) else b
  }

  function Record(a: Avi, s: Stream, length: nat): Avi {
    AddToIndex(WriteFrame(a, s, length), s, a.file.end + 8, length)
  }

  // What the file says.

  /** A frame has its header, with its size, in front of its data. */
  ghost predicate InFile(f: File, s: Stream, frame: Frame) {
    frame.pos >= 8 && frame.pos - 8 in f.headers && f.headers[frame.pos - 8] == Header(Data(s), frame.length)
  }

  /** An entry of the super index leads to an index chunk of `n` entries, each of which leads
      to the data of its frame; its duration counts video frames, or the bytes of audio. */
  ghost predicate Resolves(f: File, s: Stream, frames: seq<Frame>, e: SuperEntry, first: nat, n: nat) {
    && e.size == 32 + 8 * n && first + n <= |frames|
    && e.offset in f.headers && f.headers[e.offset] == Header(Ix(s), e.size - 8)
    && e.offset in f.indexes && var ix := f.indexes[e.offset];
      && ix.stream == s && |ix.entries| == n
      && e.duration == (if s == Video then n else Lengths(frames[first..first + n]))
      && forall i :: 0 <= i < n ==>
          ix.base + ix.entries[i].offset == frames[first + i].pos && ix.entries[i].size == frames[first + i].length
  }

  /** The same as far as 32 bits hold it. */
  ghost predicate Indexed(f: File, s: Stream, frames: seq<Frame>, e: SuperEntry, first: nat, n: nat) {
    && e.size == Low32(INDEX_HEADER + 8 * n) && first + n <= |frames|
    && e.offset in f.headers && f.headers[e.offset] == Header(Ix(s), Low32(INDEX_HEADER + 8 * n - 8))
    && e.offset in f.indexes && var ix := f.indexes[e.offset];
      && ix.stream == s && |ix.entries| == n && e.duration == Low32(Duration(s, ix.entries))
      && (n > 0 ==> ix.base == frames[first].pos)
      && forall i :: 0 <= i < n ==> ix.entries[i] == EntryFor(frames[first + i], ix.base)
  }

  /** What 32 bits hold of a frame's place behind the base. */
  function EntryFor(frame: Frame, base: nat): Entry {
    Entry(Low32(frame.pos - base), frame.length)
  }

  function Lengths(frames: seq<Frame>): nat {
    if frames == [] then 0 else Lengths(frames[..|frames| - 1]) + frames[|frames| - 1].length
  }

  /** The `n` frames of a chunk begin within 4 GB, audio is less than 4 GB in all, and so is
      their index. */
  predicate Fits(s: Stream, frames: seq<Frame>, first: nat, n: nat)
    requires first + n <= |frames|
  {
    && 32 + 8 * n < TWO_32
    && (n > 0 ==> frames[first + n - 1].pos - frames[first].pos < TWO_32)
    && (s == Audio ==> Lengths(frames[first..first + n]) < TWO_32)
  }

  ghost predicate InOrder(frames: seq<Frame>) {
    forall i, j :: 0 <= i < j < |frames| ==> frames[i].pos < frames[j].pos
  }

  lemma {:induction false} SizesAreLengths(entries: seq<Entry>, frames: seq<Frame>)
    requires |entries| == |frames| && forall i :: 0 <= i < |frames| ==> entries[i].size == frames[i].length
    ensures Sizes(entries) == Lengths(frames)
  {
    if frames != [] {
      SizesAreLengths(entries[..|entries| - 1], frames[..|frames| - 1]);
    }
  }

  /** What is stored resolves exactly when it fits. */
  lemma IndexedResolves(f: File, s: Stream, frames: seq<Frame>, e: SuperEntry, first: nat, n: nat)
    requires Indexed(f, s, frames, e, first, n) && InOrder(frames)
    ensures Resolves(f, s, frames, e, first, n) <==> Fits(s, frames, first, n)
  {
    hide Sizes, Lengths;
    var ix := f.indexes[e.offset];
    SizesAreLengths(ix.entries, frames[first..first + n]);
    assert Resolves(f, s, frames, e, first, n) && n > 0 ==>
        ix.base + ix.entries[n - 1].offset == frames[first + (n - 1)].pos;
  }

  /** Nothing that is written is lost; only RIFF and LIST sizes change. */
  ghost predicate Extends(f: File, f': File) {
    && f.end <= f'.end
    && (forall p :: p in f.headers ==> p in f'.headers && SameHeader(f.headers[p], f'.headers[p]))
    && (forall p :: p in f.indexes ==> p in f'.indexes && f'.indexes[p] == f.indexes[p])
  }

  predicate SameHeader(h: Header, h': Header) {
    h'.name == h.name && (h.name !in {Riff, List} ==> h' == h)
  }

  ghost predicate Ends(f: File) {
    (forall p :: p in f.headers ==> p < f.end) && (forall p :: p in f.indexes ==> p < f.end)
  }

  function FirstOf(a: Avi, k: nat): nat {
    if k < |a.firsts| then a.firsts[k] else a.first
  }

  /** Entry `i` of the current index is for the frame `i` places after `first`, the base. */
  predicate EntryLeads(t: Track, i: nat, first: nat)
    requires i < |t.entries|
  {
    var n := first + i;
    n < |t.frames| && t.base == t.frames[first].pos && t.entries[i] == EntryFor(t.frames[n], t.base)
  }

  /** The super index entry of closed chunk `k` is for the chunk's frames. */
  ghost predicate ClosedIndexed(a: Avi, s: Stream, k: nat)
    requires k < |Of(a, s).super|
  {
    var t, first, next := Of(a, s), FirstOf(a, k), FirstOf(a, k + 1);
    first <= next && Indexed(a.file, s, t.frames, t.super[k], first, next - first)
  }

  /** Every frame is in the file and every closed movi chunk is indexed. */
  ghost predicate TrackGood(a: Avi, s: Stream) {
    var t := Of(a, s);
    && (forall i :: 0 <= i < |t.frames| ==> InFile(a.file, s, t.frames[i]))
    && |t.super| == a.moviCount
    && (forall k :: 0 <= k < a.moviCount ==> ClosedIndexed(a, s, k))
    && |t.frames| == a.first + |t.entries|
    && (forall i :: 0 <= i < |t.entries| ==> EntryLeads(t, i, a.first))
  }

  /** The sizes in the headers of a movi chunk, and of its RIFF chunk but the first, span to
      its end. */
  ghost predicate Spans(f: File, c: Span) {
    && c.movi in f.headers && f.headers[c.movi] == Header(List, Low32(c.end - c.movi - 8))
    && (c.riff > 0 ==> c.riff in f.headers && f.headers[c.riff] == Header(Riff, Low32(c.end - c.riff - 8)))
  }

  /** Closed chunks follow each other without a gap. */
  ghost predicate SpansGood(a: Avi) {
    && |a.closed| == a.moviCount && (a.moviCount == 0 <==> a.riffStart == 0) && a.riffStart < a.moviStart
    && a.moviCount * MOVI_MAX <= a.riffStart
    && (forall k :: 0 <= k < a.moviCount ==> SpanGood(a, k))
    && (a.moviCount > 0 ==> a.riffSize == Low32(a.closed[0].end - 8))
  }

  ghost predicate SpanGood(a: Avi, k: nat)
    requires k < |a.closed|
  {
    var c := a.closed[k];
    && Spans(a.file, c) && 0 < c.movi < a.riffStart && c.riff < a.riffStart && (k == 0 <==> c.riff == 0)
    && c.end == if k + 1 < |a.closed| then a.closed[k + 1].riff else a.riffStart
  }

  ghost predicate Good(a: Avi) {
    && Ends(a.file) && SpansGood(a) && TrackGood(a, Video) && TrackGood(a, Audio)
    && |a.firsts| == a.moviCount && FirstOf(a, 0) == 0
    && -1 <= |a.video.frames| - |a.audio.frames| <= 1
    && a.moviStart in a.file.headers && a.file.headers[a.moviStart].name == List
    && a.riffStart in a.file.headers && a.file.headers[a.riffStart].name == Riff
    && 0 in a.file.headers && a.file.headers[0].name == Riff
    && a.moviStart + 12 <= a.file.end && BaseInMovi(a, Video) && BaseInMovi(a, Audio)
    && InOrder(a.video.frames) && InOrder(a.audio.frames)
  }

  ghost predicate BaseInMovi(a: Avi, s: Stream) {
    Of(a, s).entries != [] ==> a.moviStart + 20 <= Of(a, s).base
  }

  lemma ExtendsKeeps(f: File, f': File, s: Stream, frames: seq<Frame>, more: seq<Frame>, e: SuperEntry, first: nat,
      n: nat)
    requires Extends(f, f') && Indexed(f, s, frames, e, first, n) && frames <= more
    ensures Indexed(f', s, more, e, first, n)
  {
    hide Duration;
  }

  ghost predicate KeepsBefore(f: File, f': File, end: nat) {
    forall p :: p in f.headers && 0 < p < end ==> p in f'.headers && f'.headers[p] == f.headers[p]
  }

  lemma SpansGoodStay(a: Avi, b: Avi)
    requires SpansGood(a) && KeepsBefore(a.file, b.file, a.riffStart)
    requires b.closed == a.closed && b.moviCount == a.moviCount && b.riffStart == a.riffStart &&
        b.moviStart == a.moviStart
    requires b.riffSize == a.riffSize
    ensures SpansGood(b)
  {
    hide Spans, KeepsBefore;
    forall k | 0 <= k < a.moviCount ensures SpanGood(b, k) {
      assert SpanGood(a, k);
      KeptSpan(a.file, b.file, a.closed[k], a.riffStart);
    }
  }

  lemma KeptSpan(f: File, f': File, c: Span, end: nat)
    requires Spans(f, c) && KeepsBefore(f, f', end) && 0 < c.movi < end && c.riff < end
    ensures Spans(f', c)
  {
  }

  lemma ExtendsTwice(f: File, g: File, h: File)
    requires Extends(f, g) && Extends(g, h)
    ensures Extends(f, h)
  {
  }

  lemma AppendExtends(f: File, h: Header, length: nat)
    requires Ends(f) && length > 0
    ensures Extends(f, Append(f, h, length)) && Ends(Append(f, h, length))
    ensures var g := Append(f, h, length); f.end in g.headers && g.headers[f.end] == h
    ensures forall end :: KeepsBefore(f, Append(f, h, length), end)
  {
  }

  lemma PatchExtends(f: File, at: nat, name: Name, size: int)
    requires Ends(f) && at in f.headers && f.headers[at].name == name && name in {Riff, List}
    ensures Extends(f, Patched(f, at, name, size)) && Ends(Patched(f, at, name, size))
  {
  }

  /** A track whose stream gets a frame keeps its closed chunks. */
  lemma ClosedChunksStay(a: Avi, b: Avi, s: Stream)
    requires TrackGood(a, s) && Extends(a.file, b.file)
    requires Of(a, s).frames <= Of(b, s).frames && Of(b, s).super == Of(a, s).super
    requires b.moviCount == a.moviCount && b.first == a.first && b.firsts == a.firsts
    ensures forall k :: 0 <= k < a.moviCount ==> ClosedIndexed(b, s, k)
  {
    hide Indexed, Extends, InFile;
    var t := Of(a, s);
    forall k | 0 <= k < a.moviCount ensures ClosedIndexed(b, s, k) {
      assert ClosedIndexed(a, s, k);
      ExtendsKeeps(a.file, b.file, s, t.frames, Of(b, s).frames, t.super[k], FirstOf(a, k),
          FirstOf(a, k + 1) - FirstOf(a, k));
    }
  }

  /** A track of which nothing changes but the file behind it. */
  lemma TrackStays(a: Avi, b: Avi, s: Stream)
    requires TrackGood(a, s) && Extends(a.file, b.file) && Of(b, s) == Of(a, s)
    requires b.moviCount == a.moviCount && b.first == a.first && b.firsts == a.firsts
    ensures TrackGood(b, s)
  {
    hide Indexed, Extends;
    ClosedChunksStay(a, b, s);
    forall i | 0 <= i < |Of(a, s).frames| ensures InFile(b.file, s, Of(a, s).frames[i]) {
      FrameStays(a.file, b.file, s, Of(a, s).frames[i]);
    }
  }

  lemma FrameStays(f: File, f': File, s: Stream, frame: Frame)
    requires Extends(f, f') && InFile(f, s, frame)
    ensures InFile(f', s, frame)
  {
  }

  /** Frames come in pairs, one of each stream, in any order within a pair. */
  predicate Alternates(a: Avi, s: Stream) {
    |Of(a, s).frames| <= |Of(a, Other(s)).frames|
  }

  lemma CountIsOwn(a: Avi, s: Stream)
    requires Good(a) && Alternates(a, s)
    ensures Count(a) == |Of(a, s).entries| && Complete(a, Of(a, s)) == Of(a, s).entries
  {
    hide Indexed, InFile;
  }

  lemma NewEntryLeads(a: Avi, s: Stream, length: nat)
    requires Good(a) && Alternates(a, s) && length <= LONGEST
    ensures var u := Of(WithEntry(WriteFrame(a, s, length), s, a.file.end + 8, length), s);
      forall i :: 0 <= i < |u.entries| ==> EntryLeads(u, i, a.first)
  {
    hide Indexed, InFile, Extends, SpansGood, InOrder;
    CountIsOwn(a, s);
    var t, u := Of(a, s), Of(WithEntry(WriteFrame(a, s, length), s, a.file.end + 8, length), s);
    var n := |t.entries|;
    assert Complete(WriteFrame(a, s, length), Of(WriteFrame(a, s, length), s)) == t.entries;
    if n > 0 {
      assert EntryLeads(t, 0, a.first);
    }
    forall i | 0 <= i < |u.entries| ensures EntryLeads(u, i, a.first) {
      if i < n {
        assert EntryLeads(t, i, a.first);
      }
    }
  }

  /** The new entry in the track of its own stream. */
  lemma EntryIsGood(a: Avi, s: Stream, length: nat)
    requires Good(a) && Alternates(a, s) && length <= LONGEST
    ensures TrackGood(WithEntry(WriteFrame(a, s, length), s, a.file.end + 8, length), s)
  {
    hide Indexed, InFile, Extends, SpansGood, KeepsBefore;
    CountIsOwn(a, s);
    var b := WriteFrame(a, s, length);
    var c := WithEntry(b, s, a.file.end + 8, length);
    var t, u := Of(a, s), Of(c, s);
    assert Complete(b, Of(b, s)) == t.entries;
    AppendExtends(a.file, Header(Data(s), Low32(length)), 8 + length);
    NewFrameInFile(a.file, s, length);
    NewEntryLeads(a, s, length);
    forall i | 0 <= i < |u.frames| ensures InFile(c.file, s, u.frames[i]) {
      if i < |t.frames| {
        FrameStays(a.file, c.file, s, t.frames[i]);
      }
    }
    ClosedChunksStay(a, c, s);
  }

  lemma NewFrameInFile(f: File, s: Stream, length: nat)
    requires length < TWO_32
    ensures InFile(Append(f, Header(Data(s), Low32(length)), 8 + length), s, Frame(f.end + 8, length))
  {
  }

  /** A new frame is behind all others of its stream. */
  lemma FrameInOrder(a: Avi, s: Stream, length: nat)
    requires Good(a)
    ensures InOrder(Of(a, s).frames + [Frame(a.file.end + 8, length)])
  {
    hide SpansGood, Indexed;
    var frames := Of(a, s).frames;
    forall i | 0 <= i < |frames| ensures frames[i].pos < a.file.end + 8 {
      assert InFile(a.file, s, frames[i]);
    }
  }

  lemma BaseStays(a: Avi, s: Stream, length: nat)
    requires Good(a) && Alternates(a, s)
    ensures BaseInMovi(WithEntry(WriteFrame(a, s, length), s, a.file.end + 8, length), s)
  {
    hide TrackGood, SpansGood, InOrder, Ends;
    CountIsOwn(a, s);
    assert Complete(WriteFrame(a, s, length), Of(WriteFrame(a, s, length), s)) == Of(a, s).entries;
  }

  lemma WithEntryGood(a: Avi, s: Stream, length: nat)
    requires Good(a) && Alternates(a, s) && length <= LONGEST
    ensures Good(WithEntry(WriteFrame(a, s, length), s, a.file.end + 8, length))
  {
    hide TrackGood, SpansGood, KeepsBefore, Extends, Complete, Count;
    EntryIsGood(a, s, length);
    AppendExtends(a.file, Header(Data(s), Low32(length)), 8 + length);
    FrameInOrder(a, s, length);
    BaseStays(a, s, length);
    TrackStays(a, WithEntry(WriteFrame(a, s, length), s, a.file.end + 8, length), Other(s));
    HeadersStay(a.file, WriteFrame(a, s, length).file);
    SpansGoodStay(a, WithEntry(WriteFrame(a, s, length), s, a.file.end + 8, length));
  }

  lemma HeadersStay(f: File, f': File)
    requires Extends(f, f')
    ensures forall p :: p in f.headers ==> p in f'.headers && f'.headers[p].name == f.headers[p].name
  {
  }

  // Closing a movi chunk.

  lemma WriteIndexIndexes(a: Avi, s: Stream)
    requires Ends(a.file) && a.first + Count(a) <= |Of(a, s).frames|
    requires var t := Of(a, s);
      forall i :: 0 <= i < |t.entries| ==> EntryLeads(t, i, a.first)
    ensures var b, t := WriteIndex(a, s), Of(a, s);
      && Extends(a.file, b.file) && Ends(b.file) && (forall end :: KeepsBefore(a.file, b.file, end)) &&
           Count(b) == Count(a)
      && var e := SuperEntry(a.file.end, Low32(INDEX_HEADER + 8 * Count(a)), Low32(Duration(s, Complete(a, t))));
      && b == With(a.(file := b.file), s, t.(super := t.super + [e]))
      && Indexed(b.file, s, t.frames, e, a.first, Count(a))
  {
    AppendExtends(a.file, Header(Ix(s), Low32(INDEX_HEADER + 8 * Count(a) - 8)), INDEX_HEADER + 8 * Count(a));
    var t := Of(a, s);
    if Count(a) > 0 {
      assert EntryLeads(t, 0, a.first);
    }
    forall i | 0 <= i < Count(a) ensures Complete(a, t)[i] == EntryFor(t.frames[a.first + i], t.base) {
      assert EntryLeads(t, i, a.first);
    }
  }

  /** What closing does for a stream: a super index entry for its frames. */
  ghost predicate Closes(a: Avi, c: Avi, s: Stream) {
    var t, u := Of(a, s), Of(c, s);
    && u.frames == t.frames && u.base == t.base && u.entries == t.entries
    && |u.super| == |t.super| + 1 && u.super[..|t.super|] == t.super
    && Indexed(c.file, s, t.frames, u.super[|t.super|], a.first, Count(a))
  }

  lemma EntriesAreEnough(a: Avi, s: Stream)
    requires Good(a)
    ensures a.first + Count(a) <= |Of(a, s).frames| && Ends(a.file)
    ensures var t := Of(a, s); forall i :: 0 <= i < |t.entries| ==> EntryLeads(t, i, a.first)
  {
    hide Indexed, InFile, SpansGood;
  }

  lemma BothIndexes(a: Avi)
    requires Good(a)
    ensures var b := WriteIndex(WriteIndex(a, Video), Audio);
      && Extends(a.file, b.file) && Ends(b.file) && (forall end :: KeepsBefore(a.file, b.file, end))
      && Closes(a, b, Video) && Closes(a, b, Audio)
      && b == a.(file := b.file, video := b.video, audio := b.audio)
  {
    hide TrackGood, SpansGood, Indexed, Extends, KeepsBefore, Ends, Complete, Count, Duration;
    EntriesAreEnough(a, Video);
    EntriesAreEnough(a, Audio);
    WriteIndexIndexes(a, Video);
    var m := WriteIndex(a, Video);
    WriteIndexIndexes(m, Audio);
    var b := WriteIndex(m, Audio);
    ExtendsTwice(a.file, m.file, b.file);
    forall end ensures KeepsBefore(a.file, b.file, end) {
      KeepsTwice(a.file, m.file, b.file, end);
    }
    ExtendsKeeps(m.file, b.file, Video, a.video.frames, a.video.frames, m.video.super[|a.video.super|], a.first,
        Count(a));
  }

  lemma KeepsTwice(f: File, g: File, h: File, end: nat)
    requires KeepsBefore(f, g, end) && KeepsBefore(g, h, end)
    ensures KeepsBefore(f, h, end)
  {
  }

  /** The sizes patched when a movi chunk is closed, at its present end. */
  lemma CloseIndexes(a: Avi)
    requires Good(a)
    ensures var c := CloseMovi(a);
      && Extends(a.file, c.file) && Ends(c.file) && KeepsBefore(a.file, c.file, a.riffStart)
      && Closes(a, c, Video) && Closes(a, c, Audio)
      && c == a.(file := c.file, video := c.video, audio := c.audio, riffSize := c.riffSize)
      && Spans(c.file, Span(a.riffStart, a.moviStart, c.file.end))
      && (a.moviCount == 0 ==> c.riffSize == Low32(c.file.end - 8))
      && (a.moviCount > 0 ==> c.riffSize == a.riffSize)
  {
    hide TrackGood, Indexed, WriteIndex, Count, Extends, Ends, KeepsBefore, Patched, Closes;
    BothIndexes(a);
    var b := WriteIndex(WriteIndex(a, Video), Audio);
    HeadersStay(a.file, b.file);
    assert a.riffStart < a.moviStart;
    assert KeepsBefore(a.file, b.file, a.riffStart);
    PatchBoth(b.file, a.riffStart, a.moviStart, a.moviCount == 0);
    var c := CloseMovi(a);
    ExtendsTwice(a.file, b.file, c.file);
    KeepsTwice(a.file, b.file, c.file, a.riffStart);
    ClosesOn(a, b, c, Video);
    ClosesOn(a, b, c, Audio);
  }

  lemma PatchBoth(f: File, riff: nat, movi: nat, inFirst: bool)
    requires Ends(f) && riff < movi && (inFirst <==> riff == 0)
    requires movi in f.headers && f.headers[movi].name == List && riff in f.headers && f.headers[riff].name == Riff
    ensures var g := Patched(f, movi, List, f.end - movi - 8);
      var h := if inFirst then g else Patched(g, riff, Riff, f.end - riff - 8);
      Extends(f, h) && Ends(h) && KeepsBefore(f, h, riff) && h.end == f.end && Spans(h, Span(riff, movi, f.end))
  {
  }

  lemma ClosesOn(a: Avi, b: Avi, c: Avi, s: Stream)
    requires Closes(a, b, s) && Extends(b.file, c.file) && Of(c, s) == Of(b, s)
    ensures Closes(a, c, s)
  {
    hide Indexed, Extends, Count;
    var t := Of(a, s);
    ExtendsKeeps(b.file, c.file, s, t.frames, t.frames, Of(b, s).super[|t.super|], a.first, Count(a));
  }

  /** Both tracks once the closed chunk counts as closed. */
  lemma ClosedTrack(a: Avi, b: Avi, s: Stream)
    requires Good(a) && |Of(a, s).frames| == a.first + Count(a)
    requires Closes(a, CloseMovi(a), s) && Extends(a.file, b.file) && Extends(CloseMovi(a).file, b.file)
    requires Of(b, s) == Of(CloseMovi(a), s).(entries := []) && b.moviCount == a.moviCount + 1
    requires b.first == a.first + Count(a) && b.firsts == a.firsts + [a.first]
    ensures TrackGood(b, s)
  {
    hide Indexed, Extends, InFile, CloseMovi, Count, Ends, SpansGood;
    var t, u, f := Of(a, s), Of(b, s), CloseMovi(a).file;
    forall i | 0 <= i < |u.frames| ensures InFile(b.file, s, u.frames[i]) {
      FrameStays(a.file, b.file, s, t.frames[i]);
    }
    forall k | 0 <= k < b.moviCount ensures ClosedIndexed(b, s, k) {
      if k < a.moviCount {
        assert ClosedIndexed(a, s, k) && u.super[k] == t.super[k];
        ExtendsKeeps(a.file, b.file, s, t.frames, t.frames, t.super[k], FirstOf(a, k),
            FirstOf(a, k + 1) - FirstOf(a, k));
      } else {
        ExtendsKeeps(f, b.file, s, t.frames, t.frames, u.super[k], a.first, Count(a));
      }
    }
  }

  lemma ClosedSpans(a: Avi, b: Avi)
    requires Good(a) && KeepsBefore(a.file, b.file, a.riffStart)
    requires Spans(b.file, Span(a.riffStart, a.moviStart, b.riffStart)) && a.moviStart < b.riffStart < b.moviStart
    requires b.closed == a.closed + [Span(a.riffStart, a.moviStart, b.riffStart)] && b.moviCount == a.moviCount + 1
    requires b.riffSize == if a.moviCount == 0 then Low32(b.riffStart - 8) else a.riffSize
    requires b.riffStart >= a.riffStart + MOVI_MAX
    ensures SpansGood(b)
  {
    hide TrackGood, KeepsBefore, Spans, Ends;
    forall k | 0 <= k < b.moviCount ensures SpanGood(b, k) {
      if k < a.moviCount {
        assert SpanGood(a, k);
        KeptSpan(a.file, b.file, a.closed[k], a.riffStart);
      }
    }
  }

  lemma EqualMeansComplete(a: Avi)
    requires Good(a) && |a.video.frames| == |a.audio.frames|
    ensures forall s :: |Of(a, s).frames| == a.first + Count(a)
  {
    hide Indexed, InFile, SpansGood;
  }

  lemma NewMoviGood(a: Avi)
    requires Good(a) && MoviIsFull(a)
    ensures Good(NewMovi(a))
  {
    hide TrackGood, SpansGood, Extends, CloseMovi, KeepsBefore, Indexed, Spans, Count;
    CloseIndexes(a);
    EqualMeansComplete(a);
    var c, b := CloseMovi(a), NewMovi(a);
    var f := Append(c.file, Header(Riff, 0), 12);
    AppendExtends(c.file, Header(Riff, 0), 12);
    AppendExtends(f, Header(List, 0), 12);
    ExtendsTwice(c.file, f, b.file);
    ExtendsTwice(a.file, c.file, b.file);
    KeepsOn(a, c.file, f, b.file);
    assert |a.video.frames| == a.first + Count(a) && |a.audio.frames| == a.first + Count(a);
    ClosedTrack(a, b, Video);
    ClosedTrack(a, b, Audio);
    FullIsLong(a);
    ExtendsEnd(a.file, c.file);
    ClosedSpans(a, b);
    HeadersStay(f, b.file);
    HeadersStay(c.file, b.file);
    HeadersStay(a.file, c.file);
    NothingOpen(b);
  }

  /** A movi chunk that is full is longer than MOVI_MAX. */
  lemma FullIsLong(a: Avi)
    requires Good(a) && MoviIsFull(a)
    ensures a.file.end > a.moviStart + MOVI_MAX
  {
    hide Indexed, SpansGood;
    FrameNumbers(a);
    LastVideo(a);
    var last := a.video.frames[|a.video.frames| - 1];
    assert InFile(a.file, Video, last);
    LowIsLess(last.pos - a.video.base);
  }

  lemma LowIsLess(x: nat)
    ensures Low32(x) <= x
  {
  }

  lemma NothingOpen(b: Avi)
    requires b.video.entries == [] && b.audio.entries == []
    ensures Count(b) == 0
  {
  }

  /** Two chunks opened behind a closed one. */
  lemma KeepsOn(a: Avi, f: File, g: File, h: File)
    requires Good(a) && Ends(f) && Extends(a.file, f) && KeepsBefore(a.file, f, a.riffStart)
    requires (forall end :: KeepsBefore(f, g, end)) && (forall end :: KeepsBefore(g, h, end))
    requires Spans(f, Span(a.riffStart, a.moviStart, f.end))
    ensures KeepsBefore(a.file, h, a.riffStart) && Spans(h, Span(a.riffStart, a.moviStart, f.end))
    ensures a.riffStart < a.moviStart < f.end
  {
    hide TrackGood, Extends, Spans, KeepsBefore;
    assert a.moviStart < a.file.end && a.riffStart < a.moviStart;
    assert a.file.end <= f.end by { ExtendsEnd(a.file, f); }
    assert KeepsBefore(f, g, f.end) && KeepsBefore(g, h, f.end) && KeepsBefore(f, g, a.riffStart) &&
        KeepsBefore(g, h, a.riffStart);
    KeepsTwice(a.file, f, g, a.riffStart);
    KeepsTwice(a.file, g, h, a.riffStart);
    KeepsTwice(f, g, h, f.end);
    KeptSpan(f, h, Span(a.riffStart, a.moviStart, f.end), f.end);
  }

  lemma ExtendsEnd(f: File, f': File)
    requires Extends(f, f')
    ensures f.end <= f'.end
  {
  }

  lemma FrameNumbers(a: Avi)
    requires Good(a)
    ensures |a.video.frames| == a.first + |a.video.entries| && |a.audio.frames| == a.first + |a.audio.entries|
  {
    hide Indexed, InFile, SpansGood;
  }

  /** The last entry of the video index is for the last video frame, at or behind the base. */
  lemma LastVideo(a: Avi)
    requires Good(a)
    ensures a.video.entries != [] ==>
      && a.video.frames != []
      && var last := a.video.frames[|a.video.frames| - 1];
        last.pos >= a.video.base && a.video.entries[|a.video.entries| - 1] == EntryFor(last, a.video.base)
  {
    hide Indexed, InFile, SpansGood;
    EntriesAreEnough(a, Video);
    FrameNumbers(a);
    if a.video.entries != [] {
      assert EntryLeads(a.video, |a.video.entries| - 1, a.first);
    }
  }

  /** Every frame recorded in turn keeps the recording in order. */
  lemma RecordKeeps(a: Avi, s: Stream, length: nat)
    requires Good(a) && Alternates(a, s) && length <= LONGEST
    ensures Good(Record(a, s, length))
  {
    hide Good, NewMovi, WithEntry, WriteFrame;
    WithEntryGood(a, s, length);
    var c := WithEntry(WriteFrame(a, s, length), s, a.file.end + 8, length);
    if MoviIsFull(c) {
      NewMoviGood(c);
    }
  }

  /** A frame opens a new movi chunk if and only if it completes a pair and the last video frame
      begins more than 1 GB behind the first one of the chunk, as far as 32 bits tell. */
  lemma RollsOverIff(a: Avi, s: Stream, length: nat)
    requires Good(a) && Alternates(a, s) && length <= LONGEST
    ensures var videos := WithEntry(WriteFrame(a, s, length), s, a.file.end + 8, length).video.frames;
      var pairs := |Of(a, s).frames| < |Of(a, Other(s)).frames|;
      && (pairs ==> a.first < |videos|)
      && Record(a, s, length).moviCount == a.moviCount +
        if pairs && Low32(videos[|videos| - 1].pos - videos[a.first].pos) > 0x4000_0000 then 1 else 0
  {
    hide TrackGood, SpansGood, InOrder, Ends, CloseMovi, Low32;
    CountIsOwn(a, s);
    var c := WithEntry(WriteFrame(a, s, length), s, a.file.end + 8, length);
    assert Complete(WriteFrame(a, s, length), Of(WriteFrame(a, s, length), s)) == Of(a, s).entries;
    FrameNumbers(a);
    WithEntryGood(a, s, length);
    FrameNumbers(c);
    LastVideo(c);
    EntriesAreEnough(c, Video);
    if c.video.entries != [] {
      assert EntryLeads(c.video, 0, c.first);
    }
  }

  // Whole recordings.

  datatype Recorded = Recorded(stream: Stream, length: nat)

  function Run(movi: nat, frames: seq<Recorded>): Avi {
    if frames == [] then Start(movi)
    else Record(Run(movi, frames[..|frames| - 1]), frames[|frames| - 1].stream, frames[|frames| - 1].length)
  }

  /** Frames that alternate in pairs, none longer than `longest`. */
  predicate Recording(movi: nat, frames: seq<Recorded>, longest: nat) {
    && (forall k :: 0 <= k < |frames| ==> Alternates(Run(movi, frames[..k]), frames[k].stream))
    && (forall k :: 0 <= k < |frames| ==> frames[k].length <= longest)
  }

  lemma RecordingPrefix(movi: nat, frames: seq<Recorded>, longest: nat)
    requires frames != [] && Recording(movi, frames, longest)
    ensures var n := |frames| - 1;
      && Recording(movi, frames[..n], longest)
      && Alternates(Run(movi, frames[..n]), frames[n].stream) && frames[n].length <= longest
  {
    hide Alternates, Run;
    var n := |frames| - 1;
    var before := frames[..n];
    forall k | 0 <= k < n ensures Alternates(Run(movi, before[..k]), before[k].stream) && before[k].length <= longest {
      assert before[..k] == frames[..k] && before[k] == frames[k];
      assert Alternates(Run(movi, frames[..k]), frames[k].stream);
    }
  }

  lemma StartIsGood(movi: nat)
    requires movi > 0
    ensures Good(Start(movi))
  {
  }

  lemma {:induction false} RunIsGood(movi: nat, frames: seq<Recorded>)
    requires movi > 0 && Recording(movi, frames, LONGEST)
    ensures Good(Run(movi, frames))
  {
    hide Good, Record, Alternates;
    if frames == [] {
      StartIsGood(movi);
    } else {
      var n := |frames| - 1;
      RecordingPrefix(movi, frames, LONGEST);
      RunIsGood(movi, frames[..n]);
      RecordKeeps(Run(movi, frames[..n]), frames[n].stream, frames[n].length);
    }
  }

  /** The number of the first frame of chunk `k` of a recording that is being stopped. */
  function ChunkStart(a: Avi, k: nat): nat {
    if k <= a.moviCount then FirstOf(a, k) else a.first + Count(a)
  }

  /** In the finished file, entry `k` of a super index leads to the frames of chunk `k`. */
  ghost predicate ChunkResolves(a: Avi, z: Avi, s: Stream, k: nat)
    requires k < |Of(z, s).super|
  {
    var t := Of(z, s);
    && ChunkStart(a, k) <= ChunkStart(a, k + 1)
    && Resolves(z.file, s, t.frames, t.super[k], ChunkStart(a, k), ChunkStart(a, k + 1) - ChunkStart(a, k))
  }

  /** The frames of chunk `k` fit into an index. */
  predicate ChunkFits(a: Avi, s: Stream, k: nat) {
    var first, next := ChunkStart(a, k), ChunkStart(a, k + 1);
    first <= next <= |Of(a, s).frames| && Fits(s, Of(a, s).frames, first, next - first)
  }

  /** When index entries resolve.  For a recording with as many movi chunks as the super index
      has entries, of frames of any length: entry `k` of a super index leads to an index chunk
      with the number of entries, the size and the duration that it says, and each of those
      entries leads to the data of the right frame, behind a header with the frame's size, if and
      only if the frames of the chunk fit; the chunks together cover exactly the complete pairs. */
  lemma EntriesResolveIff(movi: nat, frames: seq<Recorded>, s: Stream)
    requires movi > 0 && Recording(movi, frames, LONGEST) && Run(movi, frames).moviCount < SUPER_INDEX_SIZE
    ensures var a, z := Run(movi, frames), Stop(Run(movi, frames));
      var t := Of(z, s);
      && t.frames == Of(a, s).frames && |t.super| == a.moviCount + 1 <= SUPER_INDEX_SIZE
      && ChunkStart(a, 0) == 0 && ChunkStart(a, a.moviCount + 1) == Pairs(a)
      && (forall k :: 0 <= k <= a.moviCount ==> (ChunkResolves(a, z, s, k) <==> ChunkFits(a, s, k)))
      && (forall i :: 0 <= i < |t.frames| ==> InFile(z.file, s, t.frames[i]))
  {
    hide Recording, Good, Indexed, Resolves, InFile, Extends, CloseMovi, Patched, KeepsBefore, Run, Count, Fits;
    var a := Run(movi, frames);
    RunIsGood(movi, frames);
    var c, z := CloseMovi(a), Stop(a);
    CloseIndexes(a);
    StopExtends(a);
    ExtendsTwice(a.file, c.file, z.file);
    GoodParts(a, s);
    var t, u := Of(a, s), Of(z, s);
    forall k | 0 <= k <= a.moviCount
      ensures ChunkResolves(a, z, s, k) <==> ChunkFits(a, s, k)
    {
      if k < a.moviCount {
        assert ClosedIndexed(a, s, k) && u.super[k] == t.super[k];
        ExtendsKeeps(a.file, z.file, s, t.frames, t.frames, t.super[k], FirstOf(a, k),
            FirstOf(a, k + 1) - FirstOf(a, k));
        IndexedResolves(z.file, s, t.frames, t.super[k], FirstOf(a, k), FirstOf(a, k + 1) - FirstOf(a, k));
        InIndexed(a.file, s, t.frames, t.super[k], FirstOf(a, k), FirstOf(a, k + 1) - FirstOf(a, k));
      } else {
        ExtendsKeeps(c.file, z.file, s, t.frames, t.frames, u.super[k], a.first, Count(a));
        IndexedResolves(z.file, s, t.frames, u.super[k], a.first, Count(a));
        InIndexed(z.file, s, t.frames, u.super[k], a.first, Count(a));
        assert ChunkStart(a, k) == a.first && ChunkStart(a, k + 1) == a.first + Count(a);
      }
    }
    forall i | 0 <= i < |t.frames| ensures InFile(z.file, s, t.frames[i]) {
      FrameStays(a.file, z.file, s, t.frames[i]);
    }
    CountOfPairs(a);
  }

  lemma InIndexed(f: File, s: Stream, frames: seq<Frame>, e: SuperEntry, first: nat, n: nat)
    requires Indexed(f, s, frames, e, first, n)
    ensures first + n <= |frames|
  {
  }

  /** Complete pairs of frames. */
  function Pairs(a: Avi): nat {
    if |a.video.frames| < |a.audio.frames| then |a.video.frames| else |a.audio.frames|
  }

  lemma CountOfPairs(a: Avi)
    requires Good(a)
    ensures a.first + Count(a) == Pairs(a) && FirstOf(a, 0) == 0
  {
    hide TrackGood, SpansGood;
    FrameNumbers(a);
  }

  lemma GoodParts(a: Avi, s: Stream)
    requires Good(a)
    ensures TrackGood(a, s) && |a.firsts| == a.moviCount && SpansGood(a) && InOrder(Of(a, s).frames)
  {
    hide TrackGood, SpansGood;
  }

  lemma StopExtends(a: Avi)
    requires Good(a)
    ensures var c, z := CloseMovi(a), Stop(a);
      Extends(c.file, z.file) && z == c.(file := z.file) && z.file.end == c.file.end
      && z.file.headers == c.file.headers[0 := Header(Riff, Low32(c.riffSize))]
  {
    hide TrackGood, SpansGood, CloseMovi, Extends, Closes, Spans, KeepsBefore;
    CloseIndexes(a);
    var c := CloseMovi(a);
    HeadersStay(a.file, c.file);
    PatchExtends(c.file, 0, Riff, c.riffSize);
  }

  /** In the finished file the chunks follow each other to the end of the file; the size in the
      header of each movi chunk, and of each RIFF chunk, is the distance to the chunk's end as far
      as 32 bits hold it. */
  lemma StoredSizes(movi: nat, frames: seq<Recorded>)
    requires movi > 0 && Recording(movi, frames, LONGEST) && Run(movi, frames).moviCount < SUPER_INDEX_SIZE
    ensures var a, z := Run(movi, frames), Stop(Run(movi, frames));
      var chunks := a.closed + [Span(a.riffStart, a.moviStart, z.file.end)];
      && |chunks| == a.moviCount + 1 && chunks[0].riff == 0
      && (forall k :: 0 <= k < a.moviCount ==> chunks[k].end == chunks[k + 1].riff)
      && (forall k :: 0 <= k <= a.moviCount ==> Spans(z.file, chunks[k]))
      && 0 in z.file.headers && z.file.headers[0] == Header(Riff, Low32(chunks[0].end - 8))
  {
    hide Recording, Spans, Extends, CloseMovi, Closes, KeepsBefore, Run, TrackGood, Ends, Count;
    var a := Run(movi, frames);
    RunIsGood(movi, frames);
    var c, z := CloseMovi(a), Stop(a);
    CloseIndexes(a);
    StopExtends(a);
    ZeroPatchKeeps(a.file, c.file, z.file, a.riffStart, Header(Riff, Low32(c.riffSize)));
    var last := Span(a.riffStart, a.moviStart, c.file.end);
    LastSpan(c.file, z.file, last, Header(Riff, Low32(c.riffSize)));
    forall k | 0 <= k < a.moviCount
        ensures Spans(z.file, a.closed[k]) && (a.closed + [last])[k].end == (a.closed + [last])[k + 1].riff {
      assert SpanGood(a, k);
      KeptSpan(a.file, z.file, a.closed[k], a.riffStart);
    }
    if a.moviCount > 0 {
      assert SpanGood(a, 0);
    }
  }

  /** A recording has less than one movi chunk for every GB of its file, so the super
      index lasts for a file of 256 GB. */
  lemma SuperIndexLasts(movi: nat, frames: seq<Recorded>)
    requires movi > 0 && Recording(movi, frames, LONGEST)
    ensures var a := Run(movi, frames);
      && a.moviCount * 0x4000_0000 < a.file.end
      && (a.file.end <= 256 * 0x4000_0000 ==> a.moviCount < SUPER_INDEX_SIZE)
  {
    hide Recording, TrackGood, SpanGood, Run;
    RunIsGood(movi, frames);
  }

  lemma ZeroPatchKeeps(f: File, g: File, h: File, end: nat, first: Header)
    requires KeepsBefore(f, g, end) && h.headers == g.headers[0 := first]
    ensures KeepsBefore(f, h, end)
  {
  }

  lemma LastSpan(f: File, g: File, c: Span, first: Header)
    requires Spans(f, c) && g.headers == f.headers[0 := first] && c.riff < c.movi
    ensures Spans(g, c)
  {
  }
}
