/** STE DMA sound: the bytes fetched from memory, the FIFO they wait in, and what drains it. */
module DmaSound {
  import opened Bytes

  const FIFO_SIZE := 8
  const ADDRESSES := 0x1_0000_0000

  /** Memory by address; a missing address is a bus error region. */
  type Ram = map<nat, Byte>

  /** A byte with the address it was fetched from. */
  datatype Fetched = Fetched(addr: nat, value: int)

  /** The frame registers, byte by byte. */
  datatype Registers = Registers(startHi: Byte, startMid: Byte, startLo: Byte, endHi: Byte, endMid: Byte, endLo: Byte)

  /** A latched frame, how many bytes of it were fetched, and whether the program stopped it. */
  datatype Frame = Frame(start: nat, end: nat, count: nat, stopped: bool)

  /** The sound hardware: its FIFO as a queue, with the history of all fetches and frames. */
  datatype Sound = Sound(
    play: bool, loop: bool, mono: bool, frameStart: nat, frameEnd: nat, counter: nat,
    queue: seq<Fetched>, xsint: bool, log: seq<Fetched>, frames: seq<Frame>)

  function Address(hi: Byte, mid: Byte, lo: Byte): (a: nat)
    ensures a % 2 == 0 && a < 0x100_0000
  {
    hi * 65536 + mid * 256 + (lo - lo % 2)
  }

  /** The three bytes of an address are its digits to base 256; the lowest bit is dropped. */
  lemma AddressBytes(hi: Byte, mid: Byte, lo: Byte)
    ensures var a := Address(hi, mid, lo);
      a / 256 / 256 == hi && a / 256 % 256 == mid && a % 256 == lo - lo % 2
  {
    LastDigit(hi * 256 + mid, lo - lo % 2);
    LastDigit(hi, mid);
  }

  lemma LastDigit(q: nat, r: nat)
    requires r < 256
    ensures (q * 256 + r) / 256 == q && (q * 256 + r) % 256 == r
  {
  }

  function StartOf(r: Registers): nat { Address(r.startHi, r.startMid, r.startLo) }
  function EndOf(r: Registers): nat { Address(r.endHi, r.endMid, r.endLo) }

  /** Both addresses of a frame, byte by byte. */
  lemma FrameRegisters(r: Registers)
    ensures var start, end := StartOf(r), EndOf(r);
      && start / 256 / 256 == r.startHi && start / 256 % 256 == r.startMid && start % 256 == r.startLo - r.startLo % 2
      && end / 256 / 256 == r.endHi && end / 256 % 256 == r.endMid && end % 256 == r.endLo - r.endLo % 2
  {
    hide Address;
    AddressBytes(r.startHi, r.startMid, r.startLo);
    AddressBytes(r.endHi, r.endMid, r.endLo);
  }

  /** The signed byte that the DMA reads. */
  function Read(ram: Ram, addr: nat): int {
    var b: int := if addr in ram then ram[addr] else 0;
    if b < 128 then b else b - 256
  }

  /** It is the byte in memory as an eight-bit two's complement number; nothing is read from a bus
      error region. */
  lemma ReadIsSigned(ram: Ram, addr: nat)
    ensures -128 <= Read(ram, addr) < 128
    ensures if addr in ram then Read(ram, addr) % 256 == ram[addr] else Read(ram, addr) == 0
  {
  }

  function Initial(): Sound {
    Sound(false, false, false, 0, 0, 0, [], false, [], [])
  }

  /** Latches a frame; an empty frame stops the sound unless it repeats. */
  function StartNewFrame(s: Sound, regs: Registers): Sound {
    var s1 := s.(frameStart := StartOf(regs), frameEnd := EndOf(regs), counter := StartOf(regs),
                 frames := s.frames + [Frame(StartOf(regs), EndOf(regs), 0, false)]);
    if s1.frameStart == s1.frameEnd && !s1.loop then s1.(play := false) else s1.(xsint := true)
  }

  function EndOfFrame(s: Sound, regs: Registers): Sound {
    var s1 := s.(xsint := false);
    if s1.loop then StartNewFrame(s1, regs) else s1.(play := false)
  }

  /** The last frame, one word further. */
  function OneWordMore(frames: seq<Frame>): seq<Frame> {
    if frames == [] then []
    else
      var last := frames[|frames| - 1];
      frames[..|frames| - 1] + [last.(count := last.count + 2)]
  }

  /** The next word of the frame goes into the FIFO. */
  function WithWord(s: Sound, ram: Ram): Sound {
    var word := [Fetched(s.counter, Read(ram, s.counter)), Fetched(s.counter + 1, Read(ram, s.counter + 1))];
    s.(queue := s.queue + word, log := s.log + word, frames := OneWordMore(s.frames),
        counter := (s.counter + 2) % ADDRESSES)
  }

  function FetchWord(s: Sound, ram: Ram, regs: Registers): Sound {
    var s1 := WithWord(s, ram);
    if s1.counter == s1.frameEnd then EndOfFrame(s1, regs) else s1
  }

  /** Fetches words until fewer than two bytes are missing or the sound stops. */
  function Refill(s: Sound, ram: Ram, regs: Registers): Sound
    decreases FIFO_SIZE - |s.queue|
  {
    if !s.play || |s.queue| + 2 > FIFO_SIZE then s
    else Refill(FetchWord(s, ram, regs), ram, regs)
  }

  datatype Pulled = Silence | Pulled(byte: Fetched)

  function PullByte(s: Sound, ram: Ram, regs: Registers): (Sound, Pulled) {
    var s1 := if s.queue == [] then Refill(s, ram, regs) else s;
    if s1.queue == [] then (s1, Silence) else (s1.(queue := s1.queue[1..]), Pulled(s1.queue[0]))
  }

  /** A switch to stereo drops the second byte of a word that mono has begun. */
  function SetStereo(s: Sound): Sound {
    if |s.queue| % 2 == 1 then s.(queue := s.queue[1..]) else s
  }

  function StopLast(frames: seq<Frame>): seq<Frame> {
    if frames == [] then [] else frames[..|frames| - 1] + [frames[|frames| - 1].(stopped := true)]
  }

  function WriteControl(s: Sound, regs: Registers, value: nat): Sound {
    var play := value % 2 == 1;
    var s1 := s.(play := play, loop := value / 2 % 2 == 1);
    if !s.play && play then StartNewFrame(s1, regs)
    else if s.play && !play then s1.(xsint := false, frames := StopLast(s1.frames))
    else s1
  }

  /** Bit 0 of the control register plays and bit 1 repeats.  A sound that starts does so with the
      frame in the registers, which must not be empty unless it repeats; one that stops lets XSINT go
      low and fetches no more of its frame. */
  lemma ControlMeans(s: Sound, regs: Registers, value: nat)
    ensures var r := WriteControl(s, regs, value);
      && (r.loop <==> value / 2 % 2 == 1) && r.mono == s.mono && r.queue == s.queue && r.log == s.log
      && (value % 2 == 0 ==> !r.play)
      && (value % 2 == 1 && s.play ==> r.play && r.frames == s.frames && r.counter == s.counter)
      && (value % 2 == 1 && !s.play ==>
            && (r.play <==> StartOf(regs) != EndOf(regs) || value / 2 % 2 == 1)
            && (r.play ==> r.xsint)
            && r.frames == s.frames + [Frame(StartOf(regs), EndOf(regs), 0, false)]
            && r.frameStart == r.counter == StartOf(regs) && r.frameEnd == EndOf(regs))
      && (value % 2 == 0 && s.play && s.frames != [] ==>
            && !r.xsint && |r.frames| == |s.frames|
            && r.frames[|r.frames| - 1] == s.frames[|s.frames| - 1].(stopped := true))
  {
    hide StartOf, EndOf;
  }

  /** At its end a frame repeats from the registers if the loop bit says so, else the sound stops. */
  lemma FrameEnds(s: Sound, ram: Ram, regs: Registers)
    requires s.play && (s.counter + 2) % ADDRESSES == s.frameEnd
    ensures var r := FetchWord(s, ram, regs);
      && (r.play <==> s.loop)
      && |r.frames| == |OneWordMore(s.frames)| + (if s.loop then 1 else 0)
      && (s.loop ==>
            && r.xsint && r.counter == r.frameStart == StartOf(regs) && r.frameEnd == EndOf(regs)
            && r.frames[|r.frames| - 1] == Frame(StartOf(regs), EndOf(regs), 0, false))
      && (!s.loop ==> !r.xsint)
  {
    hide StartOf, EndOf, Read;
  }

  function WriteMode(s: Sound, value: nat): Sound {
    var mono := value / 128 % 2 == 1;
    (if s.mono && !mono then SetStereo(s) else s).(mono := mono)
  }

  /** The two bytes of a sample; mono plays one byte on both sides. */
  function NextSample(s: Sound, ram: Ram, regs: Registers): (Sound, Pulled, Pulled) {
    var (s1, left) := PullByte(s, ram, regs);
    if s.mono then (s1, left, left)
    else var (s2, right) := PullByte(s1, ram, regs); (s2, left, right)
  }

  // What holds in every state.

  /** The address `count` bytes after `start`. */
  function After(start: nat, count: nat): nat {
    (start + count) % ADDRESSES
  }

  /** The addresses of the two bytes of a word. */
  function WordAt(addr: nat): seq<nat> { [addr, addr + 1] }

  /** The addresses of the first `count` bytes from `start` on. */
  function Range(start: nat, count: nat): seq<nat> {
    if count < 2 then [] else
      Range(start, count - 2) + WordAt(After(start, count - 2))
  }

  /** The latched frames one after the other, in address order. */
  function Addresses(frames: seq<Frame>): seq<nat> {
    if frames == [] then []
    else Addresses(frames[..|frames| - 1]) + Range(frames[|frames| - 1].start, frames[|frames| - 1].count)
  }

  function AddressesOf(log: seq<Fetched>): (r: seq<nat>)
    ensures |r| == |log| && forall i :: 0 <= i < |log| ==> r[i] == log[i].addr
  {
    if log == [] then [] else AddressesOf(log[..|log| - 1]) + [log[|log| - 1].addr]
  }

  /** A frame is fetched up to its end and never beyond, or until the program stops it. */
  ghost predicate Exact(f: Frame, playing: bool) {
    && f.start % 2 == 0 && f.count % 2 == 0
    && (forall k :: 0 < k < f.count && k % 2 == 0 ==> After(f.start, k) != f.end)
    && (!playing && !f.stopped ==> After(f.start, f.count) == f.end)
    && (playing && f.count > 0 ==> After(f.start, f.count) != f.end)
  }

  ghost predicate Framed(s: Sound) {
    && AddressesOf(s.log) == Addresses(s.frames)
    && (forall i :: 0 <= i < |s.frames| - 1 ==> Exact(s.frames[i], false))
    && (s.frames != [] ==> Exact(s.frames[|s.frames| - 1], s.play))
    && (s.play ==> s.frames != [] && var f := s.frames[|s.frames| - 1];
          f.start == s.frameStart && f.end == s.frameEnd && s.counter == After(f.start, f.count))
  }

  /** Words arrive whole. */
  ghost predicate InWords(log: seq<Fetched>) {
    && |log| % 2 == 0
    && (forall k :: 0 <= k < |log| && k % 2 == 0 ==> log[k].addr % 2 == 0 && log[k + 1].addr == log[k].addr + 1)
  }

  /** The FIFO holds what was fetched last, and XSINT is high while the sound plays. */
  ghost predicate Sane(s: Sound) {
    && Framed(s) && InWords(s.log)
    && |s.queue| <= FIFO_SIZE && |s.queue| <= |s.log| && s.queue == s.log[|s.log| - |s.queue|..]
    && s.xsint == s.play && s.counter % 2 == 0
  }

  /** Stereo sound has whole words in the FIFO. */
  ghost predicate Good(s: Sound) {
    Sane(s) && (!s.mono ==> |s.queue| % 2 == 0)
  }

  lemma InitialIsGood()
    ensures Good(Initial())
  {
  }

  lemma {:induction false} AddressesOfAppend(log: seq<Fetched>, a: Fetched, b: Fetched)
    requires b.addr == a.addr + 1
    ensures AddressesOf(log + [a, b]) == AddressesOf(log) + WordAt(a.addr)
  {
  }

  lemma AddressesAppend(frames: seq<Frame>, f: Frame)
    ensures Addresses(frames + [f]) == Addresses(frames) + Range(f.start, f.count)
  {
    assert (frames + [f])[..|frames|] == frames;
  }

  lemma AddressesGrow(before: seq<Frame>, f: Frame, frames: seq<Frame>, more: seq<Frame>)
    requires frames == before + [f] && more == before + [f.(count := f.count + 2)]
    ensures Addresses(more) == Addresses(frames) + WordAt(After(f.start, f.count))
  {
    hide After, Addresses, Range, WordAt;
    AddressesAppend(before, f.(count := f.count + 2));
    AddressesAppend(before, f);
    RangeMore(f.start, f.count);
    Associative(Addresses(before), Range(f.start, f.count), WordAt(After(f.start, f.count)));
  }

  lemma LastSplit(frames: seq<Frame>)
    requires frames != []
    ensures frames[..|frames| - 1] + [frames[|frames| - 1]] == frames
  {
  }

  lemma Associative(a: seq<nat>, b: seq<nat>, c: seq<nat>)
    ensures a + (b + c) == a + b + c
  {
  }

  lemma RangeMore(start: nat, count: nat)
    ensures Range(start, count + 2) == Range(start, count) + WordAt(After(start, count))
  {
    hide After;
  }

  lemma NewFrame(f: Frame)
    requires f.count == 0 && f.start % 2 == 0 && f.start < ADDRESSES
    ensures Exact(f, true) && After(f.start, 0) == f.start && Range(f.start, 0) == []
    ensures f.start == f.end ==> Exact(f, false)
  {
  }

  lemma StartKeeps(s: Sound, regs: Registers)
    requires Framed(s.(play := false)) && InWords(s.log) && !s.xsint
    requires |s.queue| <= FIFO_SIZE && |s.queue| <= |s.log| && s.queue == s.log[|s.log| - |s.queue|..]
    requires s.play
    ensures Sane(StartNewFrame(s, regs))
  {
    hide InWords, Exact, Addresses, AddressesOf, After, Address;
    var f := Frame(StartOf(regs), EndOf(regs), 0, false);
    AddressesAppend(s.frames, f);
    NewFrame(f);
  }

  lemma AfterTwo(start: nat, count: nat)
    ensures After(start, count + 2) == (After(start, count) + 2) % ADDRESSES
    ensures start % 2 == 0 && count % 2 == 0 ==> After(start, count) % 2 == 0
  {
    var q, r := (start + count) / ADDRESSES, (start + count) % ADDRESSES;
    if r + 2 < ADDRESSES {
      Quotient(start + count + 2, q, r + 2);
    } else {
      Quotient(start + count + 2, q + 1, r + 2 - ADDRESSES);
    }
  }

  lemma Quotient(x: nat, q: nat, r: nat)
    requires x == q * ADDRESSES + r && r < ADDRESSES
    ensures x % ADDRESSES == r
  {
  }

  lemma ExactOneMore(f: Frame)
    requires Exact(f, true)
    ensures var g := f.(count := f.count + 2);
      Exact(g, After(g.start, g.count) != g.end)
  {
    hide After;
  }

  /** The words and frames after a fetch, before the end of the frame is looked at. */
  lemma FetchFrames(s: Sound, word: seq<Fetched>)
    requires Framed(s) && s.play && |word| == 2 && word[0].addr == s.counter && word[1].addr == s.counter + 1
    ensures var s1 := s.(log := s.log + word, frames := OneWordMore(s.frames), counter := (s.counter + 2) % ADDRESSES);
      Framed(s1.(play := s1.counter != s1.frameEnd))
  {
    hide Exact, After, Addresses, AddressesOf, WordAt;
    var f := s.frames[|s.frames| - 1];
    LastSplit(s.frames);
    AddressesGrow(s.frames[..|s.frames| - 1], f, s.frames, OneWordMore(s.frames));
    assert word == [word[0], word[1]];
    AddressesOfAppend(s.log, word[0], word[1]);
    AfterTwo(f.start, f.count);
    ExactOneMore(f);
  }

  lemma WordsKeep(log: seq<Fetched>, word: seq<Fetched>)
    requires InWords(log) && |word| == 2 && word[0].addr % 2 == 0 && word[1].addr == word[0].addr + 1
    ensures InWords(log + word)
  {
    var more := log + word;
    forall k | 0 <= k < |more| && k % 2 == 0 ensures more[k].addr % 2 == 0 && more[k + 1].addr == more[k].addr + 1 {
      if k < |log| {
        assert more[k] == log[k] && more[k + 1] == log[k + 1];
      } else {
        assert more[k] == word[0] && more[k + 1] == word[1];
      }
    }
  }

  lemma WordKeeps(s: Sound, ram: Ram)
    requires Sane(s) && s.play && |s.queue| + 2 <= FIFO_SIZE
    ensures var m := WithWord(s, ram);
      && Framed(m.(play := m.counter != m.frameEnd)) && InWords(m.log) && m.counter % 2 == 0
      && s.log <= m.log && |m.log| == |s.log| + 2 && |m.queue| == |s.queue| + 2 &&
           m.queue == m.log[|m.log| - |m.queue|..]
      && m == s.(queue := m.queue, log := m.log, frames := m.frames, counter := m.counter)
  {
    hide Framed, InWords, Read;
    var word := [Fetched(s.counter, Read(ram, s.counter)), Fetched(s.counter + 1, Read(ram, s.counter + 1))];
    var m := WithWord(s, ram);
    FetchFrames(s, word);
    WordsKeep(s.log, word);
    EvenCounter(s.counter);
    FrameQueue(s.(log := m.log, frames := m.frames, counter := m.counter, play := m.counter != m.frameEnd),
               m.(play := m.counter != m.frameEnd));
  }

  lemma FetchKeeps(s: Sound, ram: Ram, regs: Registers)
    requires Sane(s) && s.play && |s.queue| + 2 <= FIFO_SIZE
    ensures var r := FetchWord(s, ram, regs);
      Sane(r) && |r.queue| == |s.queue| + 2 && r.mono == s.mono && s.log <= r.log && |r.log| == |s.log| + 2
  {
    hide Framed, InWords, WithWord, StartOf, EndOf;
    WordKeeps(s, ram);
    var m := WithWord(s, ram);
    if m.counter == m.frameEnd {
      FrameQueue(m.(play := false), m.(play := false, xsint := false));
      if m.loop {
        StartKeeps(m.(xsint := false), regs);
      }
    }
  }

  /** What Framed does not depend on. */
  lemma FrameQueue(s: Sound, t: Sound)
    requires Framed(s) && t == s.(queue := t.queue, xsint := t.xsint, mono := t.mono, loop := t.loop)
    ensures Framed(t)
  {
    hide Exact, AddressesOf, Addresses, After;
  }

  lemma EvenCounter(counter: nat)
    requires counter % 2 == 0
    ensures (counter + 2) % ADDRESSES % 2 == 0
  {
  }

  /** A refill ends with at most one byte missing or with the sound stopped. */
  lemma {:induction false} RefillKeeps(s: Sound, ram: Ram, regs: Registers)
    requires Sane(s)
    ensures var r := Refill(s, ram, regs);
      && Sane(r) && r.mono == s.mono && |r.queue| % 2 == |s.queue| % 2
      && s.log <= r.log && |r.log| - |r.queue| == |s.log| - |s.queue|
      && (!r.play || FIFO_SIZE - |r.queue| <= 1)
      && (s.play && |s.queue| + 2 <= FIFO_SIZE ==> |r.queue| >= |s.queue| + 2)
    decreases FIFO_SIZE - |s.queue|
  {
    hide Sane, FetchWord;
    assert |s.queue| <= FIFO_SIZE by { SaneSize(s); }
    if s.play && |s.queue| + 2 <= FIFO_SIZE {
      FetchKeeps(s, ram, regs);
      RefillKeeps(FetchWord(s, ram, regs), ram, regs);
    }
  }

  lemma SaneSize(s: Sound)
    requires Sane(s)
    ensures |s.queue| <= FIFO_SIZE
  {
    hide Framed, InWords;
  }

  lemma DropKeeps(s: Sound)
    requires Sane(s) && s.queue != []
    ensures Sane(s.(queue := s.queue[1..]))
  {
    hide Framed, InWords;
    FrameQueue(s, s.(queue := s.queue[1..]));
  }

  /** A pull takes the first byte not yet taken; it is silent exactly when nothing is in the
      FIFO and the sound does not play. */
  lemma PullTakesNext(s: Sound, ram: Ram, regs: Registers)
    requires Sane(s)
    ensures var (r, byte) := PullByte(s, ram, regs);
      && Sane(r) && r.mono == s.mono
      && (byte == Silence <==> s.queue == [] && !s.play)
      && (byte == Silence ==> r == s)
      && (byte != Silence ==>
            && s.log <= r.log && |r.log| - |r.queue| == |s.log| - |s.queue| + 1
            && byte.byte == r.log[|s.log| - |s.queue|]
            && |r.queue| % 2 != |s.queue| % 2
            && (s.queue != [] ==> r.log == s.log))
  {
    hide Framed, InWords, FetchWord;
    var s1 := if s.queue == [] then Refill(s, ram, regs) else s;
    RefillKeeps(s, ram, regs);
    if s1.queue != [] {
      DropKeeps(s1);
    }
  }

  /** In stereo the left byte is at an even address and the right one follows it, or both
      sides are silent. */
  lemma StereoStaysPaired(s: Sound, ram: Ram, regs: Registers)
    requires Good(s) && !s.mono
    ensures var (r, left, right) := NextSample(s, ram, regs);
      && Good(r)
      && (left == Silence <==> right == Silence)
      && (left != Silence ==> left.byte.addr % 2 == 0 && right.byte.addr == left.byte.addr + 1)
  {
    hide Framed, InWords, PullByte;
    var (s1, left) := PullByte(s, ram, regs);
    PullTakesNext(s, ram, regs);
    PullTakesNext(s1, ram, regs);
    if left != Silence {
      EvenLog(s.log);
      WordOf(s1, |s.log| - |s.queue|);
    }
  }

  lemma EvenLog(log: seq<Fetched>)
    requires InWords(log)
    ensures |log| % 2 == 0
  {
  }

  lemma WordOf(s: Sound, k: nat)
    requires InWords(s.log) && k < |s.log| && k % 2 == 0
    ensures k + 1 < |s.log| && s.log[k].addr % 2 == 0 && s.log[k + 1].addr == s.log[k].addr + 1
  {
  }

  lemma NextKeeps(s: Sound, ram: Ram, regs: Registers)
    requires Good(s)
    ensures Good(NextSample(s, ram, regs).0)
  {
    hide Sane, PullByte;
    if s.mono {
      PullTakesNext(s, ram, regs);
    } else {
      StereoStaysPaired(s, ram, regs);
    }
  }

  /** A switch to stereo never drops more than the one byte that makes the rest whole words. */
  lemma SetStereoKeeps(s: Sound)
    requires Sane(s)
    ensures Sane(SetStereo(s)) && |SetStereo(s).queue| % 2 == 0
    ensures |SetStereo(s).queue| == |s.queue| - |s.queue| % 2
  {
    hide Sane;
    if |s.queue| % 2 == 1 {
      DropKeeps(s);
    }
  }

  lemma WriteModeKeeps(s: Sound, value: nat)
    requires Good(s)
    ensures Good(WriteMode(s, value))
  {
    hide Framed, InWords, SetStereo;
    SetStereoKeeps(s);
    var s1 := if s.mono && value / 128 % 2 == 0 then SetStereo(s) else s;
    FrameQueue(s1, WriteMode(s, value));
  }

  lemma StopKeeps(s: Sound)
    requires Framed(s) && s.play
    ensures Framed(s.(play := false, frames := StopLast(s.frames)))
  {
    hide After, Range, AddressesOf, Addresses;
    var f, before := s.frames[|s.frames| - 1], s.frames[..|s.frames| - 1];
    AddressesAppend(before, f);
    AddressesAppend(before, f.(stopped := true));
    LastSplit(s.frames);
  }

  lemma WriteControlKeeps(s: Sound, regs: Registers, value: nat)
    requires Good(s)
    ensures Good(WriteControl(s, regs, value))
  {
    hide Framed, InWords, StartOf, EndOf, StopLast;
    var play, loop := value % 2 == 1, value / 2 % 2 == 1;
    if !s.play && play {
      FrameQueue(s, s.(loop := loop));
      assert s.(play := play, loop := loop).(play := false) == s.(loop := loop);
      StartKeeps(s.(play := play, loop := loop), regs);
    } else if s.play && !play {
      StopKeeps(s);
      var s1 := s.(play := false, frames := StopLast(s.frames));
      FrameQueue(s1, s1.(loop := loop, xsint := false));
    } else {
      FrameQueue(s, s.(loop := loop));
    }
  }

  // Whole runs, in which the program may change memory and registers at any time.

  datatype Operation = OpRefill | OpSample | OpControl(value: nat) | OpMode(value: nat)
  datatype Event = Event(op: Operation, ram: Ram, regs: Registers)

  function Step(s: Sound, e: Event): Sound {
    match e.op
    case OpRefill => Refill(s, e.ram, e.regs)
    case OpSample => NextSample(s, e.ram, e.regs).0
    case OpControl(value) => WriteControl(s, e.regs, value)
    case OpMode(value) => WriteMode(s, value)
  }

  function Run(events: seq<Event>): Sound {
    if events == [] then Initial() else Step(Run(events[..|events| - 1]), events[|events| - 1])
  }

  lemma StepKeeps(s: Sound, e: Event)
    requires Good(s)
    ensures Good(Step(s, e))
  {
    hide Sane, Refill, NextSample, WriteControl, WriteMode;
    match e.op
    case OpRefill => RefillKeeps(s, e.ram, e.regs);
    case OpSample => NextKeeps(s, e.ram, e.regs);
    case OpControl(value) => WriteControlKeeps(s, e.regs, value);
    case OpMode(value) => WriteModeKeeps(s, value);
  }

  /** The FIFO refines an ideal stream: in every run what was fetched is the latched frames one
      after the other in address order, each exactly up to its end unless the program stopped it;
      what waits in the FIFO is the rest of that stream; XSINT is high exactly while playing. */
  lemma {:induction false} FifoRefinesStream(events: seq<Event>)
    ensures var s := Run(events);
      && Good(s)
      && AddressesOf(s.log) == Addresses(s.frames)
      && s.queue == s.log[|s.log| - |s.queue|..] && |s.queue| <= FIFO_SIZE
      && s.xsint == s.play
  {
    hide Step, Framed, InWords;
    if events == [] {
      InitialIsGood();
    } else {
      var n := |events| - 1;
      FifoRefinesStream(events[..n]);
      StepKeeps(Run(events[..n]), events[n]);
    }
    GoodFrames(Run(events));
  }

  lemma GoodFrames(s: Sound)
    requires Good(s)
    ensures AddressesOf(s.log) == Addresses(s.frames)
  {
    hide AddressesOf, Addresses;
  }

  /** The bytes that an event takes from the FIFO, to be heard or to be dropped. */
  function TakenBy(s: Sound, e: Event): seq<Fetched> {
    match e.op
    case OpSample =>
      var (_, left, right) := NextSample(s, e.ram, e.regs);
      (if left == Silence then [] else [left.byte]) + (if s.mono || right == Silence then [] else [right.byte])
    case OpMode(value) =>
      if s.mono && value / 128 % 2 == 0 && |s.queue| % 2 == 1 then [s.queue[0]] else []
    case _ => []
  }

  function Taken(events: seq<Event>): seq<Fetched> {
    if events == [] then []
    else
      var before := events[..|events| - 1];
      Taken(before) + TakenBy(Run(before), events[|events| - 1])
  }

  /** Between two states the bytes `taken` left the FIFO. */
  ghost predicate Advances(s: Sound, r: Sound, taken: seq<Fetched>) {
    && s.log <= r.log && |s.queue| <= |s.log| && |r.queue| <= |r.log| && |s.log| - |s.queue| <= |r.log| - |r.queue|
    && taken == r.log[|s.log| - |s.queue|..|r.log| - |r.queue|]
  }

  lemma PullAdvances(s: Sound, ram: Ram, regs: Registers)
    requires Sane(s)
    ensures var (r, byte) := PullByte(s, ram, regs);
      Sane(r) && r.mono == s.mono && Advances(s, r, if byte == Silence then [] else [byte.byte])
  {
    hide Framed, InWords, PullByte;
    PullTakesNext(s, ram, regs);
  }

  lemma AdvanceTwice(s: Sound, m: Sound, r: Sound, first: seq<Fetched>, second: seq<Fetched>)
    requires Advances(s, m, first) && Advances(m, r, second)
    ensures Advances(s, r, first + second)
  {
    assert first == r.log[|s.log| - |s.queue|..|m.log| - |m.queue|];
  }

  lemma SampleTakes(s: Sound, e: Event)
    requires Good(s) && e.op == OpSample
    ensures Advances(s, Step(s, e), TakenBy(s, e))
  {
    hide Sane, PullByte, Advances;
    PullAdvances(s, e.ram, e.regs);
    var (s1, left) := PullByte(s, e.ram, e.regs);
    var first := if left == Silence then [] else [left.byte];
    if s.mono {
      assert first + [] == first;
    } else {
      PullAdvances(s1, e.ram, e.regs);
      var (s2, right) := PullByte(s1, e.ram, e.regs);
      AdvanceTwice(s, s1, s2, first, if right == Silence then [] else [right.byte]);
    }
  }

  lemma ModeTakes(s: Sound, e: Event)
    requires Good(s) && e.op.OpMode?
    ensures Advances(s, Step(s, e), TakenBy(s, e))
  {
    hide Framed, InWords;
  }

  lemma StepTakes(s: Sound, e: Event)
    requires Good(s)
    ensures Advances(s, Step(s, e), TakenBy(s, e))
  {
    hide Framed, InWords, Refill, NextSample, SetStereo;
    match e.op
    case OpSample => SampleTakes(s, e);
    case OpRefill => RefillKeeps(s, e.ram, e.regs);
    case OpMode(_) => ModeTakes(s, e);
    case OpControl(_) =>
  }

  lemma TakesOn(s: Sound, r: Sound, taken: seq<Fetched>, more: seq<Fetched>)
    requires |s.queue| <= |s.log| && taken == s.log[..|s.log| - |s.queue|] && Advances(s, r, more)
    ensures |r.queue| <= |r.log| && taken + more == r.log[..|r.log| - |r.queue|]
  {
  }

  /** No byte is lost, repeated or reordered: in every run the bytes taken from the FIFO are
      those fetched from memory, in order, up to the ones that still wait. */
  lemma {:induction false} TakenInOrder(events: seq<Event>)
    ensures var s := Run(events); |s.queue| <= |s.log| && Taken(events) == s.log[..|s.log| - |s.queue|]
  {
    hide Step, Good, TakenBy, Advances;
    if events != [] {
      var before := events[..|events| - 1];
      var s, e := Run(before), events[|events| - 1];
      TakenInOrder(before);
      FifoRefinesStream(before);
      StepTakes(s, e);
      TakesOn(s, Step(s, e), Taken(before), TakenBy(s, e));
    }
  }

  /** The log grew by bytes that memory `ram` holds at their addresses. */
  ghost predicate GrewFrom(before: seq<Fetched>, log: seq<Fetched>, ram: Ram) {
    before <= log && forall i :: |before| <= i < |log| ==> log[i].value == Read(ram, log[i].addr)
  }

  lemma GrewTwice(a: seq<Fetched>, b: seq<Fetched>, c: seq<Fetched>, ram: Ram)
    requires GrewFrom(a, b, ram) && GrewFrom(b, c, ram)
    ensures GrewFrom(a, c, ram)
  {
    hide Read;
    assert a <= c;
    assert forall i :: |a| <= i < |b| ==> c[i] == b[i];
  }

  lemma FetchReads(s: Sound, ram: Ram, regs: Registers)
    ensures GrewFrom(s.log, FetchWord(s, ram, regs).log, ram)
  {
    hide Read, Address;
  }

  lemma {:induction false} RefillReads(s: Sound, ram: Ram, regs: Registers)
    ensures GrewFrom(s.log, Refill(s, ram, regs).log, ram)
    decreases FIFO_SIZE - |s.queue|
  {
    hide Read, FetchWord;
    if s.play && |s.queue| + 2 <= FIFO_SIZE {
      var m := FetchWord(s, ram, regs);
      FetchReads(s, ram, regs);
      QueueGrows(s, ram, regs);
      RefillReads(m, ram, regs);
      GrewTwice(s.log, m.log, Refill(m, ram, regs).log, ram);
    }
  }

  lemma QueueGrows(s: Sound, ram: Ram, regs: Registers)
    ensures |FetchWord(s, ram, regs).queue| == |s.queue| + 2
  {
    hide Read, Address;
  }

  lemma PullReads(s: Sound, ram: Ram, regs: Registers)
    ensures GrewFrom(s.log, PullByte(s, ram, regs).0.log, ram)
  {
    hide Read, Refill;
    RefillReads(s, ram, regs);
  }

  lemma StepReads(s: Sound, e: Event)
    ensures GrewFrom(s.log, Step(s, e).log, e.ram)
  {
    hide Read, Refill, PullByte;
    match e.op
    case OpRefill => RefillReads(s, e.ram, e.regs);
    case OpSample =>
      var m := PullByte(s, e.ram, e.regs).0;
      PullReads(s, e.ram, e.regs);
      PullReads(m, e.ram, e.regs);
      GrewTwice(s.log, m.log, PullByte(m, e.ram, e.regs).0.log, e.ram);
    case _ =>
  }

  /** However memory changes over a run, every byte of the stream is the byte that memory had at
      its address at the event that fetched it. */
  lemma {:induction false} FetchesReadMemory(events: seq<Event>, i: nat) returns (k: nat)
    requires i < |Run(events).log|
    ensures k < |events| && |Run(events[..k]).log| <= i < |Run(events[..k + 1]).log|
    ensures Run(events).log[i].value == Read(events[k].ram, Run(events).log[i].addr)
  {
    hide Step, Read;
    assert events != [];
    var n := |events| - 1;
    var before := events[..n];
    StepReads(Run(before), events[n]);
    if i < |Run(before).log| {
      k := FetchesReadMemory(before, i);
      assert before[..k] == events[..k] && before[..k + 1] == events[..k + 1];
    } else {
      k := n;
      assert events[..n + 1] == events;
    }
  }
}
