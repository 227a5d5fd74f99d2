/** Which bytes are heard: the samples that are played, in terms of the stream that was fetched. */
module DmaHeard {
  import opened DmaSound
  import opened DmaResample

  /** Bytes that a sample takes. */
  function Width(mono: bool): nat { if mono then 1 else 2 }

  /** The place in the stream of the first byte that has not left the FIFO. */
  function Place(s: Sound): int { |s.log| - |s.queue| }

  /** The byte at a place of the stream, or silence behind its end. */
  function ByteAt(log: seq<Fetched>, k: nat): int {
    if k < |log| then log[k].value else 0
  }

  /** Sample `j` of the stream from place `from` on: in stereo a left byte with the right one behind
      it, in mono one byte for both sides. */
  function SampleAt(log: seq<Fetched>, from: nat, mono: bool, j: nat): Frame2 {
    if mono then Frame2(ByteAt(log, from + j), ByteAt(log, from + j))
    else Frame2(ByteAt(log, from + 2 * j), ByteAt(log, from + 2 * j + 1))
  }

  predicate Ended(s: Sound) { s.queue == [] && !s.play }

  /** Player `r` has taken `j` samples of the stream of `p`, or all that there were; it plays the last
      of them. */
  ghost predicate InStream(p: Player, r: Player, j: nat) {
    var from, s := Place(p.sound), r.sound;
    && Good(s) && s.mono == p.sound.mono && from >= 0
    && (Place(s) == from + Width(s.mono) * j || (Ended(s) && Place(s) <= from + Width(s.mono) * j))
    && r.playing == if j == 0 then p.playing else SampleAt(s.log, from, s.mono, j - 1)
  }

  lemma GoodPlace(s: Sound)
    requires Good(s)
    ensures Place(s) >= 0
  {
    hide Framed, InWords;
  }

  lemma StartsInStream(p: Player)
    requires Good(p.sound)
    ensures InStream(p, p, 0)
  {
    hide Sane;
    GoodPlace(p.sound);
  }

  lemma MonoSample(p: Player, r: Player, j: nat, ram: Ram, regs: Registers)
    requires InStream(p, r, j) && r.sound.mono
    ensures InStream(p, TakeSample(r, ram, regs), j + 1)
  {
    hide Framed, InWords, PullByte;
    PullTakesNext(r.sound, ram, regs);
  }

  lemma StereoSample(p: Player, r: Player, j: nat, ram: Ram, regs: Registers)
    requires InStream(p, r, j) && !r.sound.mono
    ensures InStream(p, TakeSample(r, ram, regs), j + 1)
  {
    hide Framed, InWords, PullByte;
    var (s1, left) := PullByte(r.sound, ram, regs);
    PullTakesNext(r.sound, ram, regs);
    PullTakesNext(s1, ram, regs);
    StereoStaysPaired(r.sound, ram, regs);
  }

  /** What has been fetched stays; nothing is fetched after the end. */
  lemma SampleExtends(r: Player, ram: Ram, regs: Registers)
    requires Good(r.sound)
    ensures var t := TakeSample(r, ram, regs);
      Good(t.sound) && r.sound.log <= t.sound.log && (Ended(r.sound) ==> t.sound == r.sound)
  {
    hide Framed, InWords, PullByte;
    var (s1, left) := PullByte(r.sound, ram, regs);
    PullTakesNext(r.sound, ram, regs);
    PullTakesNext(s1, ram, regs);
    NextKeeps(r.sound, ram, regs);
  }

  lemma {:induction false} SamplesInStream(p: Player, r: Player, j: nat, n: nat, ram: Ram, regs: Registers)
    requires InStream(p, r, j)
    ensures var t := TakeSamples(r, n, ram, regs);
      && InStream(p, t, j + n)
      && r.sound.log <= t.sound.log && (Ended(r.sound) ==> t.sound == r.sound)
    decreases n
  {
    hide InStream, TakeSample, Good;
    if n > 0 {
      StreamIsGood(p, r, j);
      SampleExtends(r, ram, regs);
      if r.sound.mono {
        MonoSample(p, r, j, ram, regs);
      } else {
        StereoSample(p, r, j, ram, regs);
      }
      SamplesInStream(p, TakeSample(r, ram, regs), j + 1, n - 1, ram, regs);
    }
  }

  lemma StreamIsGood(p: Player, r: Player, j: nat)
    requires InStream(p, r, j)
    ensures Good(r.sound) && Place(p.sound) >= 0 && r.sound.mono == p.sound.mono
  {
    hide Good;
  }

  /** Samples that have been taken stay what they are while more is fetched. */
  lemma SampleStays(p: Player, r: Player, j: nat, log: seq<Fetched>, i: nat)
    requires InStream(p, r, j) && i < j && r.sound.log <= log && (Ended(r.sound) ==> log == r.sound.log)
    ensures SampleAt(log, Place(p.sound), p.sound.mono, i) == SampleAt(r.sound.log, Place(p.sound), p.sound.mono, i)
  {
    hide Good;
  }

  /** The accumulator and the first-sample flag do not matter to the stream. */
  lemma FlagsApart(p: Player, r: Player, t: Player, j: nat)
    requires InStream(p, r, j) && t.sound == r.sound && t.playing == r.playing
    ensures InStream(p, t, j)
  {
    hide Good;
  }

  /** Samples taken by the time that output `i` is heard. */
  function TakenBy(p: Player, i: nat, ratio: nat): nat {
    (p.acc + i * ratio) / ONE + (if p.initSample then 1 else 0)
  }

  function FrameAt(p: Player, log: seq<Fetched>, m: nat): Frame2
    requires Place(p.sound) >= 0
  {
    if m == 0 then p.playing else SampleAt(log, Place(p.sound), p.sound.mono, m - 1)
  }

  /** One output: what is heard is the last sample taken. */
  lemma OutputInStream(p: Player, r: Player, j: nat, ratio: nat, ram: Ram, regs: Registers)
    requires InStream(p, r, j)
    ensures Place(p.sound) >= 0
    ensures var (t, frame) := Output(r, ratio, ram, regs);
      var m := j + (if r.initSample then 1 else 0);
      && InStream(p, t, m + (r.acc + ratio) / ONE)
      && r.sound.log <= t.sound.log && (Ended(r.sound) ==> t.sound == r.sound)
      && frame == FrameAt(p, t.sound.log, m)
  {
    hide InStream, TakeSample, Good, TakeSamples, SampleAt;
    StreamIsGood(p, r, j);
    var p1 := TakeFirst(r, ram, regs);
    var m := j + (if r.initSample then 1 else 0);
    TakeOne(r, ram, regs);
    TakenCount(r, 1, ram, regs);
    SamplesInStream(p, r, j, 1, ram, regs);
    FlagsApart(p, if r.initSample then TakeSample(r, ram, regs) else r, p1, m);
    SamplesInStream(p, p1, m, (r.acc + ratio) / ONE, ram, regs);
    var t := TakeSamples(p1, (r.acc + ratio) / ONE, ram, regs);
    FlagsApart(p, t, Output(r, ratio, ram, regs).0, m + (r.acc + ratio) / ONE);
    PlaysLast(p, p1, m);
    if m > 0 {
      SampleStays(p, p1, m, t.sound.log, m - 1);
    }
  }

  lemma PlaysLast(p: Player, r: Player, m: nat)
    requires InStream(p, r, m)
    ensures Place(p.sound) >= 0 && r.playing == FrameAt(p, r.sound.log, m)
  {
    hide Good;
  }

  /** Output `i` plays sample number `floor((acc + i * ratio) / 2^32)` of the stream, counted from the
      first byte that had not left the FIFO at the start of the run; before the first sample is taken
      it is the one that was playing. */
  lemma {:induction false} HeardIsStream(p: Player, n: nat, ratio: nat, ram: Ram, regs: Registers)
    requires Good(p.sound) && p.acc < ONE
    ensures Place(p.sound) >= 0
    ensures var (r, heard) := Outputs(p, n, ratio, ram, regs);
      && |heard| == n
      && InStream(p, r, if n == 0 then 0 else TakenBy(p, n, ratio))
      && forall i :: 0 <= i < n ==> heard[i] == FrameAt(p, r.sound.log, TakenBy(p, i, ratio))
  {
    hide InStream, Good, Output, FrameAt, TakenBy;
    GoodPlace(p.sound);
    if n == 0 {
      StartsInStream(p);
    } else {
      HeardIsStream(p, n - 1, ratio, ram, regs);
      var (q, heard) := Outputs(p, n - 1, ratio, ram, regs);
      var j := if n == 1 then 0 else TakenBy(p, n - 1, ratio);
      NoCumulativeError(p, n - 1, ratio, ram, regs);
      OutputInStream(p, q, j, ratio, ram, regs);
      var (r, frame) := Output(q, ratio, ram, regs);
      TakenAdds(p, n, ratio);
      forall i | 0 <= i < n - 1
        ensures FrameAt(p, r.sound.log, TakenBy(p, i, ratio)) == FrameAt(p, q.sound.log, TakenBy(p, i, ratio))
      {
        TakenGrows(p, i, n - 1, ratio);
        FrameStays(p, q, j, r.sound.log, TakenBy(p, i, ratio));
      }
    }
  }

  lemma FrameStays(p: Player, r: Player, j: nat, log: seq<Fetched>, m: nat)
    requires InStream(p, r, j) && m <= j && r.sound.log <= log && (Ended(r.sound) ==> log == r.sound.log)
    ensures Place(p.sound) >= 0 && FrameAt(p, log, m) == FrameAt(p, r.sound.log, m)
  {
    hide InStream, Good, SampleAt;
    StreamIsGood(p, r, j);
    if m > 0 {
      SampleStays(p, r, j, log, m - 1);
    }
  }

  lemma TakenGrows(p: Player, i: nat, n: nat, ratio: nat)
    requires i <= n
    ensures TakenBy(p, i, ratio) <= TakenBy(p, n, ratio)
  {
    assert (n - i) * ratio + i * ratio == n * ratio;
    assert 0 <= (n - i) * ratio;
    Monotone(p.acc + i * ratio, p.acc + n * ratio);
  }

  lemma Monotone(a: nat, b: nat)
    requires a <= b
    ensures a / ONE <= b / ONE
  {
  }

  /** What one output adds to the samples taken. */
  lemma TakenAdds(p: Player, n: nat, ratio: nat)
    requires n > 0 && p.acc < ONE
    ensures var acc := (p.acc + (n - 1) * ratio) % ONE;
      && TakenBy(p, n, ratio) == TakenBy(p, n - 1, ratio) + (acc + ratio) / ONE
      && (n == 1 ==> TakenBy(p, 0, ratio) == if p.initSample then 1 else 0)
  {
    Carry(p.acc + (n - 1) * ratio, ratio);
    assert (n - 1) * ratio + ratio == n * ratio;
    Division(p.acc, 0, p.acc);
  }

  /** The samples of a call, from whatever state: silence keeps the last sample; otherwise they are
      those of the stream.  In stereo the left byte is at an even address and the right one behind it. */
  lemma GeneratedIsStream(p: Player, n: nat, ratio: nat, ram: Ram, regs: Registers, i: nat)
    requires Good(p.sound) && p.acc < ONE && i < n
    ensures Place(p.sound) >= 0
    ensures var (r, heard) := Generate(p, n, ratio, ram, regs);
      var from, m, log := Place(p.sound), TakenBy(p, i, ratio), r.sound.log;
      && |heard| == n
      && heard[i] == (if Ended(p.sound) || m == 0 then p.playing else SampleAt(log, from, p.sound.mono, m - 1))
      && (!p.sound.mono && m > 0 && from + 2 * (m - 1) < |log| ==>
            var k := from + 2 * (m - 1);
            k + 1 < |log| && log[k].addr % 2 == 0 && log[k + 1].addr == log[k].addr + 1)
  {
    hide InStream, Good, Outputs, SampleAt, TakenBy;
    HeardIsStream(p, n, ratio, ram, regs);
    var r := Outputs(p, n, ratio, ram, regs).0;
    StreamIsGood(p, r, TakenBy(p, n, ratio));
    GoodWords(p.sound);
    GoodWords(r.sound);
    if Ended(p.sound) {
      RepeatedIs(p.playing, n);
    }
    var k := Place(p.sound) + 2 * (TakenBy(p, i, ratio) - 1);
    var log := Generate(p, n, ratio, ram, regs).0.sound.log;
    if !p.sound.mono && TakenBy(p, i, ratio) > 0 && k < |log| {
      PairAt(log, k);
    }
  }

  lemma RepeatedIs(frame: Frame2, n: nat)
    ensures |Repeated(frame, n)| == n && forall i :: 0 <= i < n ==> Repeated(frame, n)[i] == frame
  {
  }

  lemma GoodWords(s: Sound)
    requires Good(s)
    ensures InWords(s.log) && (!s.mono ==> Place(s) % 2 == 0)
  {
    hide Framed;
  }

  lemma PairAt(log: seq<Fetched>, k: nat)
    requires InWords(log) && k % 2 == 0 && k < |log|
    ensures k + 1 < |log| && log[k].addr % 2 == 0 && log[k + 1].addr == log[k].addr + 1
  {
  }
}
