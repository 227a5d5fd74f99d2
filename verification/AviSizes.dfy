/** The sizes stored in the headers of an AVI recording, against the lengths of its frames. */
module AviSizes {
  import opened AviIndex

  /** The headers of a file up to the text of its INFO chunk, which has at most 100 bytes. */
  const FILE_HEADERS := 8858
  const INFO_TEXT := 100

  predicate HeadersEnd(movi: nat) { FILE_HEADERS <= movi <= FILE_HEADERS + INFO_TEXT }

  /** Frames up to this length keep every chunk below 4 GB. */
  const SHORT := 0x1900_0000

  /** Frames with their headers. */
  function FrameBytes(frames: seq<Frame>): nat {
    if frames == [] then 0 else FrameBytes(frames[..|frames| - 1]) + 8 + frames[|frames| - 1].length
  }

  /** Both streams from frame `first` on, before frame `next`. */
  function PairBytes(a: Avi, first: nat, next: nat): nat {
    FrameBytes(Part(a.video.frames, first, next)) + FrameBytes(Part(a.audio.frames, first, next))
  }

  function Part(frames: seq<Frame>, first: nat, next: nat): seq<Frame> {
    if first <= next <= |frames| then frames[first..next] else []
  }

  /** A movi chunk of `n` pairs whose frames take `bytes`: its header, the frames, both indexes. */
  function MoviLength(bytes: nat, n: nat): nat {
    12 + bytes + 2 * (32 + 8 * n)
  }

  /** Closed chunk `k` is as long as its frames and indexes, behind the header of its RIFF chunk. */
  ghost predicate ClosedMeasured(a: Avi, movi: nat, k: nat)
    requires k < |a.closed|
  {
    var c, first, next := a.closed[k], FirstOf(a, k), FirstOf(a, k + 1);
    && first <= next <= |a.video.frames| && next <= |a.audio.frames|
    && c.movi == c.riff + (if k == 0 then movi else 12)
    && c.end == c.movi + MoviLength(PairBytes(a, first, next), next - first)
    && Located(a.video.frames, first, next, c.movi, c.end) && Located(a.audio.frames, first, next, c.movi, c.end)
  }

  /** Frames are in their movi chunk. */
  predicate Located(frames: seq<Frame>, first: nat, next: nat, movi: nat, end: nat) {
    && first <= next <= |frames|
    && (first < next ==> movi + 20 <= frames[first].pos && frames[next - 1].pos < end + 8)
  }

  ghost predicate Measured(a: Avi, movi: nat) {
    && |a.closed| == a.moviCount && |a.firsts| == a.moviCount
    && a.first <= |a.video.frames| && a.first <= |a.audio.frames|
    && a.moviStart == a.riffStart + (if a.moviCount == 0 then movi else 12)
    && a.file.end == a.moviStart + 12 + FrameBytes(a.video.frames[a.first..]) + FrameBytes(a.audio.frames[a.first..])
    && (forall k :: 0 <= k < a.moviCount ==> ClosedMeasured(a, movi, k))
  }

  lemma FrameBytesAppend(frames: seq<Frame>, f: Frame)
    ensures FrameBytes(frames + [f]) == FrameBytes(frames) + 8 + f.length
  {
    assert (frames + [f])[..|frames|] == frames;
  }

  /** Closed chunks do not see later frames. */
  lemma ClosedStaysMeasured(a: Avi, b: Avi, movi: nat, k: nat)
    requires k < |a.closed| <= |b.closed| && b.closed[k] == a.closed[k] && ClosedMeasured(a, movi, k)
    requires FirstOf(b, k) == FirstOf(a, k) && FirstOf(b, k + 1) == FirstOf(a, k + 1)
    requires a.video.frames <= b.video.frames && a.audio.frames <= b.audio.frames
    ensures ClosedMeasured(b, movi, k)
  {
    var first, next := FirstOf(a, k), FirstOf(a, k + 1);
    assert b.video.frames[first..next] == a.video.frames[first..next];
    assert b.audio.frames[first..next] == a.audio.frames[first..next];
  }

  lemma FrameIsMeasured(a: Avi, movi: nat, s: Stream, length: nat)
    requires Measured(a, movi)
    ensures Measured(WithEntry(WriteFrame(a, s, length), s, a.file.end + 8, length), movi)
  {
    hide FrameBytes, ClosedMeasured, Complete, Count, Low32;
    var c := WithEntry(WriteFrame(a, s, length), s, a.file.end + 8, length);
    var f := Frame(a.file.end + 8, length);
    FrameBytesAppend(Of(a, s).frames[a.first..], f);
    assert (Of(a, s).frames + [f])[a.first..] == Of(a, s).frames[a.first..] + [f];
    forall k | 0 <= k < a.moviCount ensures ClosedMeasured(c, movi, k) {
      ClosedStaysMeasured(a, c, movi, k);
    }
  }

  /** The end of the file once both indexes are written. */
  lemma CloseEnds(a: Avi)
    ensures CloseMovi(a).file.end == a.file.end + 2 * (INDEX_HEADER + 8 * Count(a))
    ensures Count(WriteIndex(a, Video)) == Count(a)
  {
    hide Complete, Duration, Low32;
  }

  lemma NewMoviIsMeasured(a: Avi, movi: nat)
    requires Good(a) && Measured(a, movi) && |a.video.frames| == |a.audio.frames|
    ensures Measured(NewMovi(a), movi)
  {
    hide FrameBytes, ClosedMeasured, CloseMovi, Good;
    var b, n := NewMovi(a), Count(a);
    EqualMeansComplete(a);
    assert |Of(a, Video).frames| == a.first + n;
    CloseEnds(a);
    CloseLeavesFrames(a);
    assert |Of(a, Audio).frames| == a.first + n;
    CurrentIsLocated(a, Video);
    CurrentIsLocated(a, Audio);
    assert b.video.frames[b.first..] == [] && b.audio.frames[b.first..] == [];
    LastIsMeasured(a, b, movi);
    forall k | 0 <= k < b.moviCount ensures ClosedMeasured(b, movi, k) {
      if k < a.moviCount {
        ClosedStaysMeasured(a, b, movi, k);
      }
    }
    NoBytes();
  }

  lemma LastIsMeasured(a: Avi, b: Avi, movi: nat)
    requires Measured(a, movi) && b.closed == a.closed + [Span(a.riffStart, a.moviStart, b.riffStart)]
    requires b.video.frames == a.video.frames && b.audio.frames == a.audio.frames &&
        |a.video.frames| == |a.audio.frames| == b.first
    requires Located(a.video.frames, a.first, b.first, a.moviStart, a.file.end)
    requires Located(a.audio.frames, a.first, b.first, a.moviStart, a.file.end)
    requires b.firsts == a.firsts + [a.first] &&
        b.riffStart == a.file.end + 2 * (INDEX_HEADER + 8 * (b.first - a.first))
    ensures ClosedMeasured(b, movi, a.moviCount)
  {
    hide FrameBytes;
    assert a.video.frames[a.first..] == a.video.frames[a.first..b.first];
    assert a.audio.frames[a.first..] == a.audio.frames[a.first..b.first];
  }

  /** The frames of the current movi chunk are in it. */
  lemma CurrentIsLocated(a: Avi, s: Stream)
    requires Good(a)
    ensures Located(Of(a, s).frames, a.first, |Of(a, s).frames|, a.moviStart, a.file.end)
  {
    hide Indexed, SpansGood, InOrder;
    var t := Of(a, s);
    EntriesAreEnough(a, s);
    FrameNumbers(a);
    if t.entries != [] {
      assert EntryLeads(t, 0, a.first);
      assert InFile(a.file, s, t.frames[|t.frames| - 1]);
    }
  }

  lemma NoBytes()
    ensures FrameBytes([]) == 0
  {
  }

  lemma CloseLeavesFrames(a: Avi)
    ensures var c := CloseMovi(a);
      && c.video.frames == a.video.frames && c.audio.frames == a.audio.frames
      && c.closed == a.closed && c.firsts == a.firsts && c.first == a.first && c.moviCount == a.moviCount
      && c.moviStart == a.moviStart && c.riffStart == a.riffStart
  {
    hide Complete, Duration, Low32, Count, Patched;
  }

  lemma {:induction false} RunIsMeasured(movi: nat, frames: seq<Recorded>)
    requires movi > 0 && Recording(movi, frames, LONGEST)
    ensures Good(Run(movi, frames)) && Measured(Run(movi, frames), movi)
  {
    hide Measured, Good, Record, Alternates;
    if frames == [] {
      StartIsGood(movi);
      StartIsMeasured(movi);
    } else {
      var n := |frames| - 1;
      RecordingPrefix(movi, frames, LONGEST);
      RunIsMeasured(movi, frames[..n]);
      RecordKeeps(Run(movi, frames[..n]), frames[n].stream, frames[n].length);
      RecordIsMeasured(Run(movi, frames[..n]), movi, frames[n].stream, frames[n].length);
    }
  }

  lemma StartIsMeasured(movi: nat)
    ensures Measured(Start(movi), movi)
  {
    NoBytes();
  }

  lemma RecordIsMeasured(a: Avi, movi: nat, s: Stream, length: nat)
    requires Good(a) && Measured(a, movi) && Alternates(a, s) && length <= LONGEST
    ensures Measured(Record(a, s, length), movi)
  {
    hide Good, Measured, NewMovi, WithEntry, WriteFrame;
    var c := WithEntry(WriteFrame(a, s, length), s, a.file.end + 8, length);
    WithEntryGood(a, s, length);
    FrameIsMeasured(a, movi, s, length);
    if MoviIsFull(c) {
      NewMoviIsMeasured(c, movi);
    }
  }

  // Recordings of frames up to SHORT.

  /** How far the first video frame is behind the start of its movi chunk, at most, and how far
      the end of the last pair of a chunk that is not full. */
  const FIRST_PAIR := 28 + SHORT
  const PAIRS_SPAN := FIRST_PAIR + MOVI_MAX + SHORT + 8 + SHORT

  ghost predicate Bounded(a: Avi) {
    var span, videos, audios := a.file.end - a.moviStart, |a.video.frames|, |a.audio.frames|;
    && span <= (if Count(a) == 0 then 12 else PAIRS_SPAN) + (if videos == audios then 0 else 8 + SHORT)
    && (a.video.entries != [] ==> a.video.base <= a.moviStart + FIRST_PAIR)
    && (videos > audios ==> var last := a.video.frames[videos - 1];
          a.file.end == last.pos + last.length && last.length <= SHORT)
  }

  /** Every frame takes at least the 8 bytes of its header. */
  ghost predicate Dense(a: Avi) {
    var v, u := |a.video.entries|, |a.audio.entries|;
    v > 0 ==>
      && a.video.frames != []
      && 8 * (v + u) <= a.file.end - a.video.base + 16
      && 16 * v <= a.video.frames[|a.video.frames| - 1].pos - a.video.base + 24
      && 16 * v <= MOVI_MAX + 40
  }

  /** The pairs of a movi chunk that is not full. */
  ghost predicate HasRoom(a: Avi) {
    && !MoviIsFull(a)
    && (|a.video.frames| <= |a.audio.frames| ==> 16 * |a.video.entries| <= MOVI_MAX + 24)
  }

  /** How far a movi chunk can reach before it is closed. */
  ghost predicate Reaches(a: Avi) {
    a.file.end - a.moviStart <= PAIRS_SPAN + 2 * (8 + SHORT)
  }

  lemma EntryReaches(a: Avi, s: Stream, length: nat)
    requires Bounded(a) && length <= SHORT
    ensures Reaches(WithEntry(WriteFrame(a, s, length), s, a.file.end + 8, length))
  {
    hide Complete, Count, Low32;
  }

  /** The last video entry is exact. */
  lemma VideoIsExact(a: Avi)
    requires Good(a) && Reaches(a)
    ensures a.video.entries != [] ==>
      && a.video.frames != []
      && var last := a.video.frames[|a.video.frames| - 1];
        a.video.base + a.video.entries[|a.video.entries| - 1].offset == last.pos
  {
    hide Indexed, SpansGood, InOrder;
    FrameNumbers(a);
    LastVideo(a);
    if a.video.entries != [] {
      assert InFile(a.file, Video, a.video.frames[|a.video.frames| - 1]);
      In32(a.video.frames[|a.video.frames| - 1].pos - a.video.base);
    }
  }

  /** After a frame the movi chunk is within bounds, unless it is full and about to be closed. */
  lemma EntryIsBounded(a: Avi, s: Stream, length: nat)
    requires Good(a) && Bounded(a) && Alternates(a, s) && length <= SHORT
    ensures var c := WithEntry(WriteFrame(a, s, length), s, a.file.end + 8, length);
      MoviIsFull(c) || Bounded(c)
  {
    hide TrackGood, SpansGood, Ends, InOrder;
    CountIsOwn(a, s);
    var c := WithEntry(WriteFrame(a, s, length), s, a.file.end + 8, length);
    assert Complete(WriteFrame(a, s, length), Of(WriteFrame(a, s, length), s)) == Of(a, s).entries;
    FrameNumbers(a);
    WithEntryGood(a, s, length);
    EntryReaches(a, s, length);
    VideoIsExact(c);
    if |c.video.frames| == |c.audio.frames| && !MoviIsFull(c) {
      assert c.video.entries[|c.video.entries| - 1].offset <= MOVI_MAX;
    }
  }

  lemma EntryIsDense(a: Avi, s: Stream, length: nat)
    requires Good(a) && Bounded(a) && Alternates(a, s) && length <= SHORT
    requires Dense(a) && HasRoom(a)
    ensures var c := WithEntry(WriteFrame(a, s, length), s, a.file.end + 8, length);
      Dense(c) && (MoviIsFull(c) || HasRoom(c))
  {
    hide TrackGood, SpansGood, Ends, InOrder;
    CountIsOwn(a, s);
    var c := WithEntry(WriteFrame(a, s, length), s, a.file.end + 8, length);
    assert Complete(WriteFrame(a, s, length), Of(WriteFrame(a, s, length), s)) == Of(a, s).entries;
    FrameNumbers(a);
    WithEntryGood(a, s, length);
    EntryReaches(a, s, length);
    VideoIsExact(c);
    FrameNumbers(c);
  }

  lemma NewMoviStartsShort(a: Avi)
    requires |a.video.frames| == |a.audio.frames|
    ensures Bounded(NewMovi(a)) && Dense(NewMovi(a)) && HasRoom(NewMovi(a))
  {
    hide CloseMovi;
    CloseLeavesFrames(a);
  }

  /** A chunk of frames up to SHORT is shorter than 4 GB, its RIFF header included. */
  lemma CloseIsShort(a: Avi, movi: nat)
    requires Good(a) && Dense(a) && Reaches(a) && Measured(a, movi) && HeadersEnd(movi)
    ensures CloseMovi(a).file.end - a.riffStart - 8 < TWO_32
  {
    hide CloseMovi, Good, ClosedMeasured, FrameBytes;
    CloseEnds(a);
    assert 16 * Count(a) <= MOVI_MAX + 40;
  }

  /** Closed chunks are shorter than 4 GB. */
  ghost predicate AllShort(a: Avi) {
    forall k :: 0 <= k < |a.closed| ==> a.closed[k].end - a.closed[k].riff - 8 < TWO_32
  }

  /** What a recording of frames up to SHORT keeps. */
  ghost predicate Short(a: Avi) {
    Bounded(a) && Dense(a) && HasRoom(a) && AllShort(a)
  }

  lemma RecordIsShort(a: Avi, movi: nat, s: Stream, length: nat)
    requires HeadersEnd(movi) && Good(a) && Measured(a, movi) && Short(a) && Alternates(a, s) && length <= SHORT
    ensures Short(Record(a, s, length))
  {
    hide Good, Bounded, Measured, Dense, HasRoom, NewMovi, WithEntry, WriteFrame, AllShort;
    var c := WithEntry(WriteFrame(a, s, length), s, a.file.end + 8, length);
    WithEntryGood(a, s, length);
    EntryIsBounded(a, s, length);
    FrameIsMeasured(a, movi, s, length);
    EntryIsDense(a, s, length);
    EntryReaches(a, s, length);
    EntryLeavesClosed(a, s, length);
    SameClosed(a, c);
    if MoviIsFull(c) {
      NewMoviStartsShort(c);
      NewMoviIsShort(c, movi);
    }
  }

  lemma EntryLeavesClosed(a: Avi, s: Stream, length: nat)
    ensures WithEntry(WriteFrame(a, s, length), s, a.file.end + 8, length).closed == a.closed
  {
    hide Complete, Count, Low32;
  }

  lemma SameClosed(a: Avi, b: Avi)
    requires AllShort(a) && b.closed == a.closed
    ensures AllShort(b)
  {
  }

  lemma NewMoviIsShort(a: Avi, movi: nat)
    requires Good(a) && Dense(a) && Reaches(a) && Measured(a, movi) && HeadersEnd(movi) && AllShort(a)
    ensures AllShort(NewMovi(a))
  {
    hide CloseMovi, Good, Dense, Measured;
    CloseIsShort(a, movi);
    CloseLeavesFrames(a);
  }

  lemma {:induction false} RunIsShort(movi: nat, frames: seq<Recorded>)
    requires HeadersEnd(movi) && Recording(movi, frames, SHORT)
    ensures Good(Run(movi, frames)) && Measured(Run(movi, frames), movi) && Short(Run(movi, frames))
  {
    hide Measured, Good, Record, Alternates;
    LongerRecording(movi, frames);
    RunIsMeasured(movi, frames);
    if frames != [] {
      hide Short;
      var n := |frames| - 1;
      RecordingPrefix(movi, frames, SHORT);
      RunIsShort(movi, frames[..n]);
      RecordIsShort(Run(movi, frames[..n]), movi, frames[n].stream, frames[n].length);
    }
  }

  lemma LongerRecording(movi: nat, frames: seq<Recorded>)
    requires Recording(movi, frames, SHORT)
    ensures Recording(movi, frames, LONGEST)
  {
    hide Alternates, Run;
  }

  // The finished file.

  /** All movi chunks of a recording that is stopped, the last one up to the end of the file. */
  function Chunks(a: Avi): seq<Span> {
    a.closed + [Span(a.riffStart, a.moviStart, Stop(a).file.end)]
  }

  /** The sizes in the headers of a movi chunk and of its RIFF chunk are the distances to its end. */
  ghost predicate SpansExactly(f: File, c: Span) {
    && c.movi in f.headers && f.headers[c.movi].name == List && f.headers[c.movi].size == c.end - c.movi - 8
    && c.riff in f.headers && f.headers[c.riff].name == Riff && f.headers[c.riff].size == c.end - c.riff - 8
  }

  /** The bytes of all frames of chunk `k`, a last one without its partner included. */
  function ChunkBytes(a: Avi, k: nat): nat {
    if k < a.moviCount then PairBytes(a, FirstOf(a, k), FirstOf(a, k + 1))
    else
      FrameBytes(Part(a.video.frames, a.first, |a.video.frames|))
      + FrameBytes(Part(a.audio.frames, a.first, |a.audio.frames|))
  }

  function ChunkPairs(a: Avi, k: nat): int {
    ChunkStart(a, k + 1) - ChunkStart(a, k)
  }

  /** The stored sizes, as far as 32 bits hold them. */
  lemma StoredIn32(f: File, c: Span)
    requires Spans(f, c) && c.riff < c.movi && c.movi + 8 <= c.end
    requires c.riff in f.headers && f.headers[c.riff] == Header(Riff, Low32(c.end - c.riff - 8))
    ensures SpansExactly(f, c) <==> c.end - c.riff - 8 < TWO_32
  {
    In32(c.end - c.riff - 8);
    In32(c.end - c.movi - 8);
  }

  lemma In32(x: nat)
    ensures Low32(x) == x <==> x < TWO_32
  {
  }

  /** The length of each chunk of the finished file. */
  lemma ChunkLengths(movi: nat, frames: seq<Recorded>, k: nat)
    requires HeadersEnd(movi) && Recording(movi, frames, LONGEST) && Run(movi, frames).moviCount < SUPER_INDEX_SIZE
    requires k <= Run(movi, frames).moviCount
    ensures var a := Run(movi, frames);
      && |Chunks(a)| == a.moviCount + 1 && ChunkPairs(a, k) >= 0
      && var c := Chunks(a)[k];
      && c.movi == c.riff + (if k == 0 then movi else 12)
      && c.end == c.movi + MoviLength(ChunkBytes(a, k), ChunkPairs(a, k))
      && c.riff < c.movi && c.movi + 8 <= c.end
  {
    hide Good, Run, FrameBytes, CloseMovi, Recording, Patched;
    var a := Run(movi, frames);
    RunIsMeasured(movi, frames);
    CloseEnds(a);
    StopEnds(a);
    if k < a.moviCount {
      assert ClosedMeasured(a, movi, k);
    } else {
      assert a.video.frames[a.first..] == Part(a.video.frames, a.first, |a.video.frames|);
      assert a.audio.frames[a.first..] == Part(a.audio.frames, a.first, |a.audio.frames|);
    }
  }

  lemma StopEnds(a: Avi)
    ensures Stop(a).file.end == CloseMovi(a).file.end
  {
    hide CloseMovi;
  }

  /** When the sizes are exact, in a recording with as many movi chunks as the super index has
      entries.  The chunks of the finished file follow each other from its start
      to its end, and the sizes stored in the headers of chunk `k` are the distances to its end if
      and only if its frames, indexes and headers take less than 4 GB. */
  lemma SizesSpanIff(movi: nat, frames: seq<Recorded>, k: nat)
    requires HeadersEnd(movi) && Recording(movi, frames, LONGEST) && Run(movi, frames).moviCount < SUPER_INDEX_SIZE
    requires k <= Run(movi, frames).moviCount
    ensures var a, z := Run(movi, frames), Stop(Run(movi, frames));
      && |Chunks(a)| == a.moviCount + 1 && ChunkPairs(a, k) >= 0
      && Chunks(a)[k].riff == (if k == 0 then 0 else Chunks(a)[k - 1].end)
      && (k == a.moviCount ==> Chunks(a)[k].end == z.file.end)
      && (SpansExactly(z.file, Chunks(a)[k]) <==>
          (if k == 0 then movi else 12) + MoviLength(ChunkBytes(a, k), ChunkPairs(a, k)) - 8 < TWO_32)
  {
    hide Good, Run, FrameBytes, CloseMovi, Recording, Spans, MoviLength, ChunkBytes, ChunkPairs, SpansExactly;
    var a := Run(movi, frames);
    ChunkLengths(movi, frames, k);
    StoredSizes(movi, frames);
    if k > 0 {
      ChunkLengths(movi, frames, k - 1);
    }
    SpansHeaders(Stop(a).file, Chunks(a)[k]);
    StoredIn32(Stop(a).file, Chunks(a)[k]);
  }

  lemma SpansHeaders(f: File, c: Span)
    requires Spans(f, c)
    ensures c.riff > 0 ==> c.riff in f.headers && f.headers[c.riff] == Header(Riff, Low32(c.end - c.riff - 8))
  {
  }

  /** Every size spans to the end of its chunk, in every recording of frames up to 400 MB with as
      many movi chunks as the super index has entries. */
  lemma SizesSpan(movi: nat, frames: seq<Recorded>)
    requires HeadersEnd(movi) && Recording(movi, frames, SHORT) && Run(movi, frames).moviCount < SUPER_INDEX_SIZE
    ensures var a, z := Run(movi, frames), Stop(Run(movi, frames));
      && |Chunks(a)| == a.moviCount + 1
      && Chunks(a)[0].riff == 0 && Chunks(a)[a.moviCount].end == z.file.end
      && (forall k :: 0 <= k < a.moviCount ==> Chunks(a)[k].end == Chunks(a)[k + 1].riff)
      && (forall k :: 0 <= k <= a.moviCount ==> SpansExactly(z.file, Chunks(a)[k]))
  {
    hide Recording, Good, Run, CloseMovi, Spans, Dense, Measured, SpansExactly, MoviLength, ChunkBytes,
         ChunkPairs, Bounded;
    var a := Run(movi, frames);
    RunIsShort(movi, frames);
    StopEnds(a);
    BoundedReaches(a);
    CloseIsShort(a, movi);
    LongerRecording(movi, frames);
    StoredSizes(movi, frames);
    forall k | 0 <= k <= a.moviCount ensures SpansExactly(Stop(a).file, Chunks(a)[k]) {
      ChunkLengths(movi, frames, k);
      if k > 0 {
        ChunkLengths(movi, frames, k - 1);
      }
      SpansHeaders(Stop(a).file, Chunks(a)[k]);
      StoredIn32(Stop(a).file, Chunks(a)[k]);
    }
  }

  lemma BoundedReaches(a: Avi)
    requires Bounded(a)
    ensures Reaches(a)
  {
  }

  /** Frames of a chunk below 4 GB fit into an index. */
  lemma ShortFits(s: Stream, frames: seq<Frame>, first: nat, next: nat, movi: nat, end: nat)
    requires Located(frames, first, next, movi, end) && end - movi < TWO_32
    requires FrameBytes(frames[first..next]) + INDEX_HEADER + 8 * (next - first) <= end - movi
    ensures Fits(s, frames, first, next - first)
  {
    hide FrameBytes;
    LengthsInBytes(frames[first..next]);
    assert frames[first..first + (next - first)] == frames[first..next];
  }

  lemma {:induction false} LengthsInBytes(frames: seq<Frame>)
    ensures Lengths(frames) <= FrameBytes(frames)
  {
    if frames != [] {
      LengthsInBytes(frames[..|frames| - 1]);
    }
  }

  lemma {:induction false} PrefixBytes(frames: seq<Frame>, n: nat)
    requires n <= |frames|
    ensures FrameBytes(frames[..n]) <= FrameBytes(frames)
  {
    if n < |frames| {
      PrefixBytes(frames[..|frames| - 1], n);
      assert frames[..|frames| - 1][..n] == frames[..n];
    } else {
      assert frames[..n] == frames;
    }
  }

  lemma ClosedFits(a: Avi, movi: nat, s: Stream, k: nat)
    requires Measured(a, movi) && AllShort(a) && k < a.moviCount && HeadersEnd(movi)
    ensures ChunkFits(a, s, k)
  {
    hide FrameBytes, Fits;
    assert ClosedMeasured(a, movi, k);
    ShortFits(s, Of(a, s).frames, FirstOf(a, k), FirstOf(a, k + 1), a.closed[k].movi, a.closed[k].end);
  }

  /** The complete pairs of the last chunk. */
  lemma LastFits(a: Avi, movi: nat, s: Stream)
    requires Good(a) && Measured(a, movi) && HeadersEnd(movi)
    requires CloseMovi(a).file.end - a.riffStart - 8 < TWO_32
    ensures ChunkFits(a, s, a.moviCount)
  {
    hide FrameBytes, Fits, CloseMovi, ClosedMeasured, TrackGood, SpansGood, Ends, Count;
    var frames, next := Of(a, s).frames, a.first + Count(a);
    CurrentIsLocated(a, s);
    CloseEnds(a);
    CountOfPairs(a);
    PrefixBytes(frames[a.first..], Count(a));
    assert frames[a.first..][..Count(a)] == frames[a.first..next];
    ShortFits(s, frames, a.first, next, a.moviStart, CloseMovi(a).file.end);
    assert ChunkStart(a, a.moviCount) == a.first && ChunkStart(a, a.moviCount + 1) == next;
  }

  /** Every index entry resolves, in every recording of frames up to 400 MB with as many movi
      chunks as the super index has entries: each entry of a super index leads to the index of
      its chunk, and each entry of that to its frame; no complete pair is left out. */
  lemma EveryEntryResolves(movi: nat, frames: seq<Recorded>, s: Stream)
    requires HeadersEnd(movi) && Recording(movi, frames, SHORT) && Run(movi, frames).moviCount < SUPER_INDEX_SIZE
    ensures var a, z := Run(movi, frames), Stop(Run(movi, frames));
      && |Of(z, s).super| == a.moviCount + 1 && ChunkStart(a, 0) == 0 && ChunkStart(a, a.moviCount + 1) == Pairs(a)
      && forall k :: 0 <= k <= a.moviCount ==> ChunkResolves(a, z, s, k)
  {
    hide Recording, Good, Run, CloseMovi, Dense, Measured, Bounded, ChunkResolves, ChunkFits, ChunkStart, HasRoom,
         AllShort, Pairs;
    var a := Run(movi, frames);
    RunIsShort(movi, frames);
    LongerRecording(movi, frames);
    EntriesResolveIff(movi, frames, s);
    BoundedReaches(a);
    CloseIsShort(a, movi);
    LastFits(a, movi, s);
    forall k | 0 <= k < a.moviCount ensures ChunkFits(a, s, k) {
      ClosedFits(a, movi, s, k);
    }
  }

  // Frames as long as a C int allows.

  const INT_MAX := 0x7fff_ffff

  function Pair(): seq<Recorded> { [Recorded(Video, INT_MAX), Recorded(Audio, INT_MAX)] }

  /** A first video frame, and the audio frame behind it. */
  lemma FirstVideo(movi: nat)
    ensures var a := Record(Start(movi), Video, INT_MAX);
      && a.video.frames == [Frame(movi + 20, INT_MAX)] && a.audio.frames == []
      && a.video.base == movi + 20 && a.first == 0 && a.moviCount == 0 && a.moviStart == movi
      && a.video.entries == [Entry(0, INT_MAX)] && a.audio.entries == [] && a.file.end == movi + 20 + INT_MAX
  {
    var b := WithEntry(WriteFrame(Start(movi), Video, INT_MAX), Video, movi + 20, INT_MAX);
    assert !MoviIsFull(b);
  }

  lemma SecondAudio(a: Avi, movi: nat)
    requires a == Record(Start(movi), Video, INT_MAX)
    ensures var b := Record(a, Audio, INT_MAX);
      && b.video == a.video && b.audio.frames == [Frame(movi + 28 + INT_MAX, INT_MAX)]
      && b.first == 0 && b.moviCount == 0 && b.moviStart == movi && b.audio.entries == [Entry(0, INT_MAX)]
      && b.file.end == movi + 28 + 2 * INT_MAX
  {
    hide Start, Record, NewMovi;
    FirstVideo(movi);
    var b := WithEntry(WriteFrame(a, Audio, INT_MAX), Audio, a.file.end + 8, INT_MAX);
    assert Low32(0) == 0 && Low32(INT_MAX) == INT_MAX;
    assert b.audio.entries == [Entry(0, INT_MAX)];
    assert !MoviIsFull(b);
    RecordUnfolds(a, Audio, INT_MAX);
  }

  lemma RecordUnfolds(a: Avi, s: Stream, length: nat)
    ensures Record(a, s, length) == AddToIndex(WriteFrame(a, s, length), s, a.file.end + 8, length)
  {
    hide AddToIndex, WriteFrame;
  }

  /** A recording of one pair. */
  lemma OnePair(movi: nat)
    ensures Recording(movi, Pair(), INT_MAX)
    ensures var a := Run(movi, Pair());
      && a.video.frames == [Frame(movi + 20, INT_MAX)] && |a.audio.frames| == 1
      && a.video.base == movi + 20 && a.first == 0 && a.moviCount == 0 && a.moviStart == movi
      && a.video.entries == [Entry(0, INT_MAX)] && |a.audio.entries| == 1
      && a.file.end == movi + 28 + 2 * INT_MAX
  {
    hide Record;
    var one := Record(Start(movi), Video, INT_MAX);
    FirstVideo(movi);
    SecondAudio(one, movi);
    assert Pair()[..1] == [Recorded(Video, INT_MAX)] && Pair()[..1][..0] == [] && Pair()[..0] == [];
    assert Run(movi, Pair()[..1]) == one;
    assert Run(movi, Pair()) == Record(one, Audio, INT_MAX);
  }

  /** Two frames of 2 GB make a chunk of more than 4 GB, whose stored size is wrong. */
  lemma LongFramesOverflow(movi: nat)
    requires HeadersEnd(movi)
    ensures var z := Stop(Run(movi, Pair()));
      movi in z.file.headers && z.file.headers[movi].size == z.file.end - movi - 8 - TWO_32
  {
    hide Run, Pair;
    OnePair(movi);
    var a := Run(movi, Pair());
    CloseEnds(a);
    StopEnds(a);
    assert Count(a) == 1;
    var size := CloseMovi(a).file.end - movi - 8;
    assert size == TWO_32 + 98;
    assert Low32(size) == 98;
  }

  /** The entry of the video frame behind that pair does not lead to it: its offset is cut off. */
  lemma LongFramesAreLost(movi: nat)
    requires HeadersEnd(movi)
    ensures var a := Record(Run(movi, Pair()), Video, 1);
      |a.video.entries| == |a.video.frames| == 2 &&
          a.video.base + a.video.entries[1].offset == a.video.frames[1].pos - TWO_32
  {
    hide Run, Pair, NewMovi;
    OnePair(movi);
    var a := Run(movi, Pair());
    var b := WithEntry(WriteFrame(a, Video, 1), Video, a.file.end + 8, 1);
    assert Low32(TWO_32 + 14) == 14;
    assert b.video.entries == [Entry(0, INT_MAX), Entry(14, 1)];
    assert !MoviIsFull(b);
  }
}
