/** The sound DMA as the emulator runs it: an eight-byte ring buffer and registers that change
    in place. */
module DmaEngine {
  import opened DmaSound
  import opened DmaResample

  /** The place of byte `i` of a ring buffer whose oldest byte is at `pos`. */
  function Slot(pos: nat, i: nat): (slot: nat)
    ensures slot < FIFO_SIZE
  {
    (pos + i) % FIFO_SIZE
  }

  lemma NextSlot(pos: nat)
    requires pos < FIFO_SIZE
    ensures forall i: nat :: 1 <= i <= FIFO_SIZE ==> Slot((pos + 1) % FIFO_SIZE, i - 1) == Slot(pos, i)
  {
  }

  lemma SlotsDiffer(pos: nat)
    ensures forall i: nat, j: nat :: i < j < FIFO_SIZE ==> Slot(pos, i) != Slot(pos, j)
  {
  }

  class DmaChip {
    const fifo: array<int>
    var fifoPos: nat
    var fifoNb: nat
    var play: bool
    var loop: bool
    var soundMode: nat
    var frameStartAddr: nat
    var frameEndAddr: nat
    var frameCounterAddr: nat
    var xsint: bool
    var playing: Frame2
    var initSample: bool
    var frameCounterFloat: nat
    // The FIFO as a queue, and what has been fetched, latched and taken so far.
    ghost var queue: seq<Fetched>
    ghost var log: seq<Fetched>
    ghost var frames: seq<Frame>
    ghost var taken: nat

    /** The ring buffer holds the queue; position and size together stay even. */
    ghost predicate Valid()
      reads this, fifo
    {
      && fifo.Length == FIFO_SIZE && fifoPos < FIFO_SIZE && fifoNb <= FIFO_SIZE
      && |queue| == fifoNb && (fifoPos + fifoNb) % 2 == 0
      && forall i :: 0 <= i < fifoNb ==> fifo[Slot(fifoPos, i)] == queue[i].value
    }

    ghost function State(): Sound
      reads this
    {
      Sound(play, loop, soundMode / 128 % 2 == 1, frameStartAddr, frameEndAddr, frameCounterAddr, queue, xsint, log,
          frames)
    }

    ghost function Playing(): Player
      reads this
    {
      Player(State(), frameCounterFloat, initSample, playing, taken)
    }

    constructor ()
      ensures Valid() && fresh(fifo) && Playing() == Player(Initial(), 0, false, Frame2(0, 0), 0)
    {
      fifo := new int[FIFO_SIZE];
      fifoPos, fifoNb := 0, 0;
      play, loop, soundMode := false, false, 0;
      frameStartAddr, frameEndAddr, frameCounterAddr := 0, 0, 0;
      xsint := false;
      playing := Frame2(0, 0);
      initSample := false;
      frameCounterFloat := 0;
      queue, log, frames, taken := [], [], [], 0;
    }

    method LatchFrame(regs: Registers)
      modifies this`frameStartAddr, this`frameEndAddr, this`frameCounterAddr, this`play, this`xsint, this`frames
      ensures State() == StartNewFrame(old(State()), regs)
      ensures loop ==> play == old(play)
    {
      frameStartAddr := StartOf(regs);
      frameEndAddr := EndOf(regs);
      frameCounterAddr := frameStartAddr;
      frames := frames + [Frame(frameStartAddr, frameEndAddr, 0, false)];
      if frameStartAddr == frameEndAddr && !loop {
        play := false;
        return;
      }
      xsint := true;
    }

    /** Tells whether the sound stops at the end of the frame. */
    method EndOfFrameReached(regs: Registers) returns (stop: bool)
      modifies this`frameStartAddr, this`frameEndAddr, this`frameCounterAddr, this`play, this`xsint, this`frames
      ensures State() == EndOfFrame(old(State()), regs)
      ensures play == (old(play) && !stop)
    {
      xsint := false;
      if loop {
        LatchFrame(regs);
      } else {
        play := false;
        return true;
      }
      return false;
    }

    /** Puts a word behind the bytes in the FIFO. */
    method PutWord(ram: Ram)
      requires Valid() && fifoNb + 2 <= FIFO_SIZE
      modifies this`fifoNb, this`queue, this`log, fifo
      ensures Valid()
      ensures var word := [Fetched(frameCounterAddr, Read(ram, frameCounterAddr)),
                           Fetched(frameCounterAddr + 1, Read(ram, frameCounterAddr + 1))];
        queue == old(queue) + word && log == old(log) + word
    {
      hide Read, Slot;
      SlotsDiffer(fifoPos);
      ghost var word := [Fetched(frameCounterAddr, Read(ram, frameCounterAddr)),
                         Fetched(frameCounterAddr + 1, Read(ram, frameCounterAddr + 1))];
      fifo[Slot(fifoPos, fifoNb)] := Read(ram, frameCounterAddr);
      fifo[Slot(fifoPos, fifoNb + 1)] := Read(ram, frameCounterAddr + 1);
      queue, log := queue + word, log + word;
      fifoNb := fifoNb + 2;
    }

    /** Adds the next word of the frame; tells whether the sound stops after it. */
    method AddWord(ram: Ram, regs: Registers) returns (stop: bool)
      requires Valid() && play && fifoNb + 2 <= FIFO_SIZE
      modifies this`fifoNb, this`queue, this`log, this`frames, this`frameStartAddr, this`frameEndAddr,
               this`frameCounterAddr, this`play, this`xsint, fifo
      ensures Valid() && State() == FetchWord(old(State()), ram, regs)
      ensures play == !stop && fifoNb == old(fifoNb) + 2
    {
      hide Read, EndOfFrame;
      stop := false;
      PutWord(ram);
      frameCounterAddr := (frameCounterAddr + 2) % ADDRESSES;
      frames := OneWordMore(frames);
      if frameCounterAddr == frameEndAddr {
        stop := EndOfFrameReached(regs);
      }
    }

    method RefillFifo(ram: Ram, regs: Registers)
      requires Valid()
      modifies this`fifoNb, this`queue, this`log, this`frames, this`frameStartAddr, this`frameEndAddr,
               this`frameCounterAddr, this`play, this`xsint, fifo
      ensures Valid() && State() == Refill(old(State()), ram, regs)
      ensures !play || FIFO_SIZE - fifoNb <= 1
    {
      hide FetchWord;
      if !play {
        return;
      }
      ghost var start := State();
      while FIFO_SIZE - fifoNb >= 2
        invariant Valid() && play
        invariant Refill(State(), ram, regs) == Refill(start, ram, regs)
        decreases FIFO_SIZE - fifoNb
      {
        var stop := AddWord(ram, regs);
        if stop {
          break;
        }
      }
    }

    method PullByte(ram: Ram, regs: Registers) returns (sample: int)
      requires Valid()
      modifies this`fifoPos, this`fifoNb, this`queue, this`log, this`frames, this`frameStartAddr, this`frameEndAddr,
               this`frameCounterAddr, this`play, this`xsint, fifo
      ensures Valid()
      ensures var (s, byte) := DmaSound.PullByte(old(State()), ram, regs);
        State() == s && sample == ValueOf(byte)
    {
      hide Refill;
      if fifoNb == 0 {
        RefillFifo(ram, regs);
        if fifoNb == 0 {
          return 0;
        }
      }
      sample := DropByte();
    }

    /** Takes the oldest byte out of the FIFO. */
    method DropByte() returns (sample: int)
      requires Valid() && fifoNb > 0
      modifies this`fifoPos, this`fifoNb, this`queue
      ensures Valid() && queue == old(queue)[1..] && sample == old(queue)[0].value
      ensures fifoPos == (old(fifoPos) + 1) % FIFO_SIZE && fifoNb == old(fifoNb) - 1
    {
      NextSlot(fifoPos);
      sample := fifo[fifoPos];
      assert Slot(fifoPos, 0) == fifoPos;
      assert forall i :: 1 <= i < fifoNb ==> queue[i] == queue[1..][i - 1];
      queue := queue[1..];
      fifoPos := (fifoPos + 1) % FIFO_SIZE;
      fifoNb := fifoNb - 1;
    }

    /** Realigns the FIFO; an odd position always means that there is a byte to drop. */
    method SwitchToStereo()
      requires Valid()
      modifies this`fifoPos, this`fifoNb, this`queue
      ensures Valid() && State() == SetStereo(old(State()))
      ensures fifoPos % 2 == 0 && (old(fifoPos) % 2 == 1 ==> fifoNb == old(fifoNb) - 1)
    {
      hide Slot;
      if fifoPos % 2 == 1 {
        var newPos := (fifoPos + 1) % FIFO_SIZE;
        if fifoNb > 0 {
          var _ := DropByte();
        }
        fifoPos := newPos;
      }
    }

    method WriteControlWord(value: nat, regs: Registers)
      requires Valid()
      modifies this`play, this`loop, this`initSample, this`frameCounterFloat, this`xsint, this`frames,
               this`frameStartAddr, this`frameEndAddr, this`frameCounterAddr
      ensures Valid() && State() == WriteControl(old(State()), regs, value)
      ensures var starts := !old(play) && value % 2 == 1;
        initSample == (starts || old(initSample)) && frameCounterFloat == if starts then 0 else old(frameCounterFloat)
    {
      var was := play;
      play, loop := value % 2 == 1, value / 2 % 2 == 1;
      if !was && play {
        initSample := true;
        frameCounterFloat := 0;
        LatchFrame(regs);
      } else if was && !play {
        xsint := false;
        frames := StopLast(frames);
      }
    }

    /** The mode register keeps only the bits that exist. */
    method WriteModeByte(value: nat)
      requires Valid() && value < 256
      modifies this`soundMode, this`fifoPos, this`fifoNb, this`queue
      ensures Valid() && State() == WriteMode(old(State()), value)
      ensures soundMode == value / 128 * 128 + value % 16
    {
      var mode := value / 128 * 128 + value % 16;
      if soundMode / 128 % 2 == 1 && mode / 128 % 2 == 0 {
        SwitchToStereo();
      }
      soundMode := mode;
    }

    /** Pulls the one or two bytes of the next sample. */
    method PullSample(ram: Ram, regs: Registers)
      requires Valid()
      modifies this`playing, this`taken, this`fifoPos, this`fifoNb, this`queue, this`log, this`frames,
               this`frameStartAddr, this`frameEndAddr, this`frameCounterAddr, this`play, this`xsint, fifo
      ensures Valid() && Playing() == TakeSample(old(Playing()), ram, regs)
    {
      hide DmaSound.PullByte;
      if soundMode / 128 % 2 == 1 {
        var mono := PullByte(ram, regs);
        playing := Frame2(mono, mono);
      } else {
        var left := PullByte(ram, regs);
        var right := PullByte(ram, regs);
        playing := Frame2(left, right);
      }
      taken := taken + 1;
    }

    /** Plays `count` samples at the audio frequency of the host. */
    method GenerateSamples(count: nat, audioFrequency: nat, ram: Ram, regs: Registers) returns (heard: seq<Frame2>)
      requires Valid() && audioFrequency > 0
      modifies this`playing, this`taken, this`fifoPos, this`fifoNb, this`queue, this`log, this`frames,
               this`frameStartAddr, this`frameEndAddr, this`frameCounterAddr, this`play, this`xsint, fifo,
               this`initSample, this`frameCounterFloat
      ensures Valid()
      ensures (Playing(), heard) ==
        Generate(old(Playing()), count, FreqRatio(SampleRate(soundMode), audioFrequency), ram, regs)
    {
      hide TakeSample, FreqRatio;
      if !play && fifoNb == 0 {
        heard := [];
        for i := 0 to count
          invariant heard == Repeated(playing, i)
        {
          heard := heard + [playing];
        }
        return;
      }
      var ratio := FreqRatio(SampleRate(soundMode), audioFrequency);
      ghost var start := Playing();
      heard := [];
      for i := 0 to count
        invariant Valid()
        invariant Outputs(start, i, ratio, ram, regs) == (Playing(), heard)
      {
        var frame := NextOutput(ratio, ram, regs);
        heard := heard + [frame];
      }
    }

    method NextOutput(ratio: nat, ram: Ram, regs: Registers) returns (frame: Frame2)
      requires Valid()
      modifies this`playing, this`taken, this`fifoPos, this`fifoNb, this`queue, this`log, this`frames,
               this`frameStartAddr, this`frameEndAddr, this`frameCounterAddr, this`play, this`xsint, fifo,
               this`initSample, this`frameCounterFloat
      ensures Valid() && (Playing(), frame) == Output(old(Playing()), ratio, ram, regs)
    {
      hide TakeSample;
      if initSample {
        PullSample(ram, regs);
        initSample := false;
      }
      frame := playing;
      ghost var first := Playing();
      frameCounterFloat := frameCounterFloat + ratio;
      ghost var acc := frameCounterFloat;
      var n: nat := frameCounterFloat / ONE;
      while n > 0
        invariant Valid() && frameCounterFloat == acc
        invariant TakeSamples(Playing(), n, ram, regs) == TakeSamples(first.(acc := acc), acc / ONE, ram, regs)
      {
        PullSample(ram, regs);
        n := n - 1;
      }
      frameCounterFloat := frameCounterFloat % ONE;
      AccumulatorApart(first, acc, acc / ONE, ram, regs);
    }
  }

  /** Taking samples does not look at the accumulator. */
  lemma {:induction false} AccumulatorApart(p: Player, acc: nat, n: nat, ram: Ram, regs: Registers)
    ensures TakeSamples(p.(acc := acc), n, ram, regs) == TakeSamples(p, n, ram, regs).(acc := acc)
    decreases n
  {
    hide NextSample;
    if n > 0 {
      AccumulatorApart(TakeSample(p, ram, regs), acc, n - 1, ram, regs);
    }
  }
}
