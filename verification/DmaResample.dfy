/** Playing the sound at the frequency of the host: a fixed-point accumulator decides how many
    samples each output sample takes. */
module DmaResample {
  import opened DmaSound

  const ONE := 0x1_0000_0000

  datatype Frame2 = Frame2(left: int, right: int)

  /** The sound with the accumulator, the sample that is playing, whether the first sample has
      yet to be taken, and how many samples have been taken so far. */
  datatype Player = Player(sound: Sound, acc: nat, initSample: bool, playing: Frame2, taken: nat)

  function SampleRate(mode: nat): (rate: nat) {
    match mode % 4 case 0 => 6258 case 1 => 12517 case 2 => 25033 case _ => 50066
  }

  /** Mode bits 0 and 1 divide the highest rate, of 50066 Hz, by 8, 4, 2 or 1, rounded to the nearest. */
  lemma RatesHalve(mode: nat)
    ensures var d := if mode % 4 == 0 then 8 else if mode % 4 == 1 then 4 else if mode % 4 == 2 then 2 else 1;
      SampleRate(mode) == (50066 + d / 2) / d
  {
  }

  /** Samples taken for each output sample, in units of 1 / ONE. */
  function FreqRatio(rate: nat, audioFrequency: nat): nat
    requires audioFrequency > 0
  {
    rate * ONE / audioFrequency
  }

  function ValueOf(p: Pulled): int {
    match p case Silence => 0 case Pulled(byte) => byte.value
  }

  function TakeSample(p: Player, ram: Ram, regs: Registers): Player {
    var (s, left, right) := NextSample(p.sound, ram, regs);
    p.(sound := s, playing := Frame2(ValueOf(left), ValueOf(right)), taken := p.taken + 1)
  }

  function TakeSamples(p: Player, n: nat, ram: Ram, regs: Registers): Player
    decreases n
  {
    if n == 0 then p else TakeSamples(TakeSample(p, ram, regs), n - 1, ram, regs)
  }

  function TakeFirst(p: Player, ram: Ram, regs: Registers): Player {
    if p.initSample then TakeSample(p, ram, regs).(initSample := false) else p
  }

  /** One output sample: what is heard, and the state after it. */
  function Output(p: Player, ratio: nat, ram: Ram, regs: Registers): (Player, Frame2) {
    var p1 := TakeFirst(p, ram, regs);
    var acc := p1.acc + ratio;
    (TakeSamples(p1, acc / ONE, ram, regs).(acc := acc % ONE), p1.playing)
  }

  function Outputs(p: Player, n: nat, ratio: nat, ram: Ram, regs: Registers): (Player, seq<Frame2>) {
    if n == 0 then (p, [])
    else
      var (p1, heard) := Outputs(p, n - 1, ratio, ram, regs);
      var (p2, last) := Output(p1, ratio, ram, regs);
      (p2, heard + [last])
  }

  function Repeated(frame: Frame2, n: nat): seq<Frame2> {
    if n == 0 then [] else Repeated(frame, n - 1) + [frame]
  }

  /** With the sound off and an empty FIFO the last sample stays and nothing is taken. */
  function Generate(p: Player, n: nat, ratio: nat, ram: Ram, regs: Registers): (Player, seq<Frame2>) {
    if !p.sound.play && p.sound.queue == [] then (p, Repeated(p.playing, n))
    else Outputs(p, n, ratio, ram, regs)
  }

  lemma {:induction false} TakenCount(p: Player, n: nat, ram: Ram, regs: Registers)
    ensures var r := TakeSamples(p, n, ram, regs);
      r.taken == p.taken + n && r.acc == p.acc && r.initSample == p.initSample
    decreases n
  {
    hide NextSample;
    if n > 0 {
      TakenCount(TakeSample(p, ram, regs), n - 1, ram, regs);
    }
  }

  lemma Carry(a: nat, b: nat)
    ensures (a + b) / ONE == a / ONE + (a % ONE + b) / ONE && (a + b) % ONE == (a % ONE + b) % ONE
  {
    var x := a % ONE + b;
    assert a + b == (a / ONE + x / ONE) * ONE + x % ONE;
    Division(a + b, a / ONE + x / ONE, x % ONE);
  }

  lemma Division(x: nat, q: nat, r: nat)
    requires x == q * ONE + r && r < ONE
    ensures x / ONE == q && x % ONE == r
  {
  }

  lemma OutputTakes(p: Player, ratio: nat, ram: Ram, regs: Registers)
    ensures var r := Output(p, ratio, ram, regs).0;
      && r.taken == p.taken + (p.acc + ratio) / ONE + (if p.initSample then 1 else 0)
      && r.acc == (p.acc + ratio) % ONE && !r.initSample
  {
    hide TakeSamples, TakeSample;
    TakenCount(p, 1, ram, regs);
    TakeOne(p, ram, regs);
    TakenCount(TakeFirst(p, ram, regs), (p.acc + ratio) / ONE, ram, regs);
  }

  /** No error accumulates: after any number of output samples, exactly the whole part of
      accumulator plus n ratios has been taken, and the fraction is kept. */
  lemma {:induction false} NoCumulativeError(p: Player, n: nat, ratio: nat, ram: Ram, regs: Registers)
    requires p.acc < ONE
    ensures var (r, heard) := Outputs(p, n, ratio, ram, regs);
      && r.taken == p.taken + (p.acc + n * ratio) / ONE + (if p.initSample && n > 0 then 1 else 0)
      && r.acc == (p.acc + n * ratio) % ONE
      && |heard| == n && r.initSample == (p.initSample && n == 0)
  {
    hide Output;
    if n == 0 {
      Division(p.acc, 0, p.acc);
    } else {
      NoCumulativeError(p, n - 1, ratio, ram, regs);
      OutputTakes(Outputs(p, n - 1, ratio, ram, regs).0, ratio, ram, regs);
      Carry(p.acc + (n - 1) * ratio, ratio);
      assert (n - 1) * ratio + ratio == n * ratio;
    }
  }

  lemma TakeOne(p: Player, ram: Ram, regs: Registers)
    ensures TakeSamples(p, 1, ram, regs) == TakeSample(p, ram, regs)
  {
    hide TakeSample;
    assert TakeSamples(TakeSample(p, ram, regs), 0, ram, regs) == TakeSample(p, ram, regs);
  }

  /** The number of samples taken is within 1 + n / ONE of n times the exact quotient of the
      two frequencies, both sides multiplied by the audio frequency times ONE. */
  lemma CloseToExact(acc: nat, n: nat, rate: nat, audioFrequency: nat)
    requires acc < ONE && audioFrequency > 0
    ensures var taken := (acc + n * FreqRatio(rate, audioFrequency)) / ONE;
      && taken * audioFrequency * ONE < n * rate * ONE + audioFrequency * ONE
      && n * rate * ONE - audioFrequency * (ONE + n) < taken * audioFrequency * ONE
  {
    var f, x := audioFrequency, rate * ONE;
    var total := acc + n * (x / f);
    Quotient(x, f);
    Quotient(total, ONE);
    Reorder(f, total / ONE, n, rate);
    NotAbove(f, x, acc, n, x / f, total, total / ONE * ONE);
    NotBelow(f, x, acc, n, x / f, total, total / ONE * ONE);
  }

  // The two sides of the estimate; `whole` is the number of samples taken times ONE.

  lemma NotAbove(f: nat, x: nat, acc: nat, n: nat, ratio: nat, total: nat, whole: nat)
    requires acc < ONE && f > 0 && ratio * f <= x && total == acc + n * ratio && whole <= total
    ensures f * whole < n * x + f * ONE
  {
    Regroup(f, acc, n, ratio);
    Scale(n, ratio * f, x);
    Scale(f, whole, total);
    Scale(f, acc + 1, ONE);
    Distribute(f, acc, 1);
  }

  lemma NotBelow(f: nat, x: nat, acc: nat, n: nat, ratio: nat, total: nat, whole: nat)
    requires f > 0 && x < ratio * f + f && total == acc + n * ratio && total < whole + ONE
    ensures n * x - f * (ONE + n) < f * whole
  {
    Regroup(f, acc, n, ratio);
    Scale(n, x, ratio * f + f);
    Scale(f, total + 1, whole + ONE);
    Distribute(n, ratio * f, f);
    Distribute(f, whole, ONE);
    Distribute(f, total, 1);
    Distribute(f, ONE, n);
  }

  lemma Distribute(k: int, a: int, b: int)
    ensures k * (a + b) == k * a + k * b
  {
  }

  lemma Regroup(f: nat, acc: nat, n: nat, ratio: nat)
    ensures f * (acc + n * ratio) == f * acc + n * (ratio * f)
  {
    Distribute(f, acc, n * ratio);
    assert f * (n * ratio) == n * (ratio * f);
  }

  lemma Reorder(f: nat, taken: nat, n: nat, rate: nat)
    ensures taken * f * ONE == f * (taken * ONE) && n * rate * ONE == n * (rate * ONE)
  {
  }

  lemma Quotient(x: nat, f: nat)
    requires f > 0
    ensures x / f * f <= x < x / f * f + f
  {
  }

  lemma Scale(k: nat, a: int, b: int)
    requires a <= b
    ensures k * a <= k * b
  {
  }
}
