/** When an interrupt happens that was armed for a number of cycles. */
module CycTimes {
  import opened CycInt

  /** The test on the due time of the head that lets its handler run. */
  predicate Reached(due: nat, clock: nat) { due <= Wrap64(clock * CYCINT_ONE) }

  /** A due time at a whole CPU cycle is reached at that cycle and not before, and a dispatch is late
      by the cycles since then, in units of 1/256. */
  lemma ReachedAt(cycle: nat, t: nat)
    requires cycle * 256 <= UINT64_MAX && t * 256 <= UINT64_MAX
    ensures Reached(cycle * 256, t) <==> t >= cycle
    ensures cycle <= t < cycle + 0x80_0000 ==> Lateness(cycle * 256, t) == -256 * (t - cycle)
  {
  }

  /** Armed for `n` CPU cycles, an interrupt is due that many cycles later. */
  lemma CpuCyclesFromNow(m: Clocks, n: nat, clock: nat)
    requires m.mfpTimerFreq > 0 && (clock + n) * 256 <= UINT64_MAX
    ensures DueAt(ToInternal(m, n, CpuCycle), clock) == (clock + n) * 256
  {
  }

  /** With `shift` the cycles are those of a clock of 8 MHz, of which a CPU cycle is a half or a
      quarter. */
  lemma Cpu8CyclesFromNow(m: Clocks, n: nat, clock: nat)
    requires m.mfpTimerFreq > 0 && m.cpuFreqShift <= 2
    requires var cycles := n * (match m.cpuFreqShift case 0 => 1 case 1 => 2 case _ => 4);
      (clock + cycles) * 256 <= UINT64_MAX
    ensures var cycles := n * (match m.cpuFreqShift case 0 => 1 case 1 => 2 case _ => 4);
      DueAt(ToInternal(m, n, Cpu8Cycle), clock) == (clock + cycles) * 256
  {
    assert Pow2(0) == 1 && Pow2(1) == 2 && Pow2(2) == 4;
  }

  /** Every further shift doubles the time. */
  lemma ShiftDoubles(m: Clocks, n: int)
    requires m.mfpTimerFreq > 0
    ensures ToInternal(m.(cpuFreqShift := m.cpuFreqShift + 1), n, Cpu8Cycle) == 2 * ToInternal(m, n, Cpu8Cycle)
  {
    var p := Pow2(m.cpuFreqShift);
    assert n * (2 * p) * 256 == 2 * (n * p * 256);
  }

  /** Cycles of the MFP timer clock become the internal units of that time, rounded down. */
  lemma MfpCyclesFromNow(m: Clocks, n: nat, clock: nat)
    requires m.mfpTimerFreq > 0 && n * 256 * m.cpuFreq < TWO_64
    requires n * 256 * m.cpuFreq < 0x8000_0000 * m.mfpTimerFreq
    ensures var r := ToInternal(m, n, MfpCycle);
      && r >= 0 && r * m.mfpTimerFreq <= n * 256 * m.cpuFreq < (r + 1) * m.mfpTimerFreq
      && (clock * 256 + r <= UINT64_MAX ==> DueAt(r, clock) == clock * 256 + r)
  {
    var x, d := n * 256 * m.cpuFreq, m.mfpTimerFreq;
    InSigned(x, d);
  }

  lemma InSigned(x: nat, d: nat)
    requires d > 0 && x < TWO_64 && x < 0x8000_0000 * d
    ensures var r := Signed32(x % TWO_64 / d);
      r >= 0 && r * d <= x < (r + 1) * d
  {
    hide Signed32;
    Quotient(x, d, 0x8000_0000);
    SmallStays(x / d);
    assert x % TWO_64 == x;
  }

  lemma Quotient(x: nat, d: nat, limit: nat)
    requires d > 0 && x < limit * d
    ensures x / d * d <= x < (x / d + 1) * d && x / d < limit
  {
    if x / d >= limit {
      Ordered(limit, x / d, d);
    }
  }

  lemma Ordered(a: nat, b: nat, d: nat)
    requires a <= b
    ensures a * d <= b * d
  {
  }

  lemma SmallStays(x: nat)
    requires x < 0x8000_0000
    ensures Signed32(x) == x
  {
  }

  /** An interrupt armed for `n` CPU cycles, once it is the head of the list, is dispatched `n` cycles
      after the clock at which it was armed, and not late. */
  lemma ArmedForCycles(q: Queue, id: nat, m: Clocks, n: nat, clock: nat, t: nat)
    requires q.Valid() && 0 < id < MAX_INTERRUPTS && m.mfpTimerFreq > 0
    requires (clock + n) * 256 <= UINT64_MAX && t * 256 <= UINT64_MAX
    ensures Remove(q, id).Valid() && id !in Remove(q, id).order
    ensures var r := Insert(Remove(q, id), id, DueAt(ToInternal(m, n, CpuCycle), clock));
      && r.Valid() && id in r.order
      && (Reached(r.due[id], t) <==> t >= clock + n)
      && Lateness(r.due[id], clock + n) == 0
  {
    hide Insert, Remove, Lateness, Reached, DueAt, ToInternal;
    var due := DueAt(ToInternal(m, n, CpuCycle), clock);
    RemoveIsValid(q, id);
    NotPending(q, id);
    InsertIsValid(Remove(q, id), id, due);
    InsertedDue(Remove(q, id), id, due);
    CpuCyclesFromNow(m, n, clock);
    ReachedAt(clock + n, t);
    ReachedAt(clock + n, clock + n);
  }
}
