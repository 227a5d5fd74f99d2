/** Conversion of cycles between two clocks with the remainder carried over. */
module ClocksTimings {

  const TWO_64 := 0x1_0000_0000_0000_0000

  /** Cycles of the second clock, and what is left over in units of the first. */
  datatype Converted = Converted(cycles: nat, remainder: nat)

  function Convert(cyclesIn: nat, freqIn: nat, freqOut: nat, remainder: nat): Converted
    requires freqIn > 0
  {
    var total := cyclesIn * freqOut + remainder;
    Converted(total / freqIn, total % freqIn)
  }

  /** The conversion with products and sums of 64 bits. */
  function ConvertIn64(cyclesIn: nat, freqIn: nat, freqOut: nat, remainder: nat): Converted
    requires freqIn > 0
  {
    var total: nat := (cyclesIn * freqOut % TWO_64 + remainder) % TWO_64;
    Converted(total / freqIn, total % freqIn)
  }

  class Cycles {
    var cycles: nat
    var remainder: nat

    constructor ()
      ensures cycles == 0 && remainder == 0
    {
      cycles, remainder := 0, 0;
    }

    /** Converts a number of cycles; what is left over counts for the next call. */
    method ConvertCycles(cyclesIn: nat, freqIn: nat, freqOut: nat)
      requires freqIn > 0
      modifies this
      ensures Converted(cycles, remainder) == ConvertIn64(cyclesIn, freqIn, freqOut, old(remainder))
      ensures remainder < freqIn
      ensures var kept, given := cycles * freqIn + remainder, cyclesIn * freqOut + old(remainder);
        kept <= given && (kept == given <==> given < TWO_64)
    {
      KeptIn64(cyclesIn, freqIn, freqOut, remainder);
      var total: nat := cyclesIn * freqOut % TWO_64;
      total := (total + remainder) % TWO_64;
      cycles := total / freqIn;
      remainder := total % freqIn;
    }
  }

  /** The conversion is exact if and only if the total fits into 64 bits. */
  lemma ConvertsExactly(cyclesIn: nat, freqIn: nat, freqOut: nat, remainder: nat)
    requires freqIn > 0
    ensures ConvertIn64(cyclesIn, freqIn, freqOut, remainder) == Convert(cyclesIn, freqIn, freqOut, remainder)
            <==> cyclesIn * freqOut + remainder < TWO_64
  {
    var product := cyclesIn * freqOut;
    var total, wrapped := product + remainder, (product % TWO_64 + remainder) % TWO_64;
    Wraps(product, remainder);
    Quotient(total, freqIn);
    Quotient(wrapped, freqIn);
  }

  lemma Wraps(a: nat, b: nat)
    ensures (a % TWO_64 + b) % TWO_64 == (a + b) % TWO_64
    ensures (a + b) % TWO_64 == a + b <==> a + b < TWO_64
  {
    assert a == a / TWO_64 * TWO_64 + a % TWO_64;
  }

  lemma Quotient(total: nat, d: nat)
    requires d > 0
    ensures total == total / d * d + total % d
  {
  }

  function Sum(s: seq<nat>): nat {
    if s == [] then 0 else Sum(s[..|s| - 1]) + s[|s| - 1]
  }

  /** The total output of a sequence of calls, and the last remainder. */
  function ConvertAll(ins: seq<nat>, freqIn: nat, freqOut: nat, remainder: nat): Converted
    requires freqIn > 0
  {
    if ins == [] then Converted(0, remainder)
    else
      var before := ConvertAll(ins[..|ins| - 1], freqIn, freqOut, remainder);
      var last := Convert(ins[|ins| - 1], freqIn, freqOut, before.remainder);
      Converted(before.cycles + last.cycles, last.remainder)
  }

  lemma OneCall(cyclesIn: nat, freqIn: nat, freqOut: nat, remainder: nat)
    requires freqIn > 0
    ensures var c := Convert(cyclesIn, freqIn, freqOut, remainder);
      c.cycles * freqIn + c.remainder == cyclesIn * freqOut + remainder && c.remainder < freqIn
  {
  }

  lemma Distribute(a: nat, b: nat, f: nat)
    ensures (a + b) * f == a * f + b * f
  {
  }

  /** One call never makes up cycles, and loses none if and only if its total fits into 64 bits. */
  lemma KeptIn64(cyclesIn: nat, freqIn: nat, freqOut: nat, remainder: nat)
    requires freqIn > 0
    ensures var c := ConvertIn64(cyclesIn, freqIn, freqOut, remainder);
      var kept, given := c.cycles * freqIn + c.remainder, cyclesIn * freqOut + remainder;
      c.remainder < freqIn && kept <= given && (kept == given <==> given < TWO_64)
  {
    Wraps(cyclesIn * freqOut, remainder);
    Quotient((cyclesIn * freqOut % TWO_64 + remainder) % TWO_64, freqIn);
    LowPart(cyclesIn * freqOut + remainder);
  }

  lemma LowPart(x: nat)
    ensures x % TWO_64 <= x
  {
  }

  /** The same sequence of calls in 64 bits. */
  function ConvertAllIn64(ins: seq<nat>, freqIn: nat, freqOut: nat, remainder: nat): Converted
    requires freqIn > 0
  {
    if ins == [] then Converted(0, remainder)
    else
      var before := ConvertAllIn64(ins[..|ins| - 1], freqIn, freqOut, remainder);
      var last := ConvertIn64(ins[|ins| - 1], freqIn, freqOut, before.remainder);
      Converted(before.cycles + last.cycles, last.remainder)
  }

  /** No call of the sequence exceeds 64 bits. */
  ghost predicate EveryCallFits(ins: seq<nat>, freqIn: nat, freqOut: nat, remainder: nat)
    requires freqIn > 0
  {
    forall k :: 0 <= k < |ins| ==> CallFits(ins, freqIn, freqOut, remainder, k)
  }

  predicate CallFits(ins: seq<nat>, freqIn: nat, freqOut: nat, remainder: nat, k: nat)
    requires freqIn > 0 && k < |ins|
  {
    ins[k] * freqOut + ConvertAll(ins[..k], freqIn, freqOut, remainder).remainder < TWO_64
  }

  lemma FitsFront(ins: seq<nat>, freqIn: nat, freqOut: nat, remainder: nat)
    requires freqIn > 0 && ins != []
    ensures var n := |ins| - 1;
      EveryCallFits(ins, freqIn, freqOut, remainder) <==>
      EveryCallFits(ins[..n], freqIn, freqOut, remainder) && CallFits(ins, freqIn, freqOut, remainder, n)
  {
    hide ConvertAll;
    var n := |ins| - 1;
    forall k | 0 <= k < n
      ensures CallFits(ins, freqIn, freqOut, remainder, k) <==> CallFits(ins[..n], freqIn, freqOut, remainder, k)
    {
      assert ins[..n][..k] == ins[..k];
    }
  }

  /** In unbounded numbers no cycle is lost or made up over any sequence of calls. */
  lemma {:induction false} ExactCyclesAreConserved(ins: seq<nat>, freqIn: nat, freqOut: nat, remainder: nat)
    requires freqIn > 0
    ensures var c := ConvertAll(ins, freqIn, freqOut, remainder);
      && c.cycles * freqIn + c.remainder == Sum(ins) * freqOut + remainder
      && (ins != [] || remainder < freqIn ==> c.remainder < freqIn)
  {
    hide Convert;
    if ins != [] {
      var before, last := ins[..|ins| - 1], ins[|ins| - 1];
      var c := ConvertAll(before, freqIn, freqOut, remainder);
      ExactCyclesAreConserved(before, freqIn, freqOut, remainder);
      OneCall(last, freqIn, freqOut, c.remainder);
      Distribute(c.cycles, Convert(last, freqIn, freqOut, c.remainder).cycles, freqIn);
      Distribute(Sum(before), last, freqOut);
    }
  }

  /** Over any sequence of calls no cycle is made up, and none is lost if and only if no call
      exceeds 64 bits; then all outputs and remainders are the exact ones. */
  lemma {:induction false} CyclesAreConserved(ins: seq<nat>, freqIn: nat, freqOut: nat, remainder: nat)
    requires freqIn > 0
    ensures var c := ConvertAllIn64(ins, freqIn, freqOut, remainder);
      var kept, given := c.cycles * freqIn + c.remainder, Sum(ins) * freqOut + remainder;
      && kept <= given
      && (kept == given <==> EveryCallFits(ins, freqIn, freqOut, remainder))
      && (c == ConvertAll(ins, freqIn, freqOut, remainder) <==> EveryCallFits(ins, freqIn, freqOut, remainder))
      && (ins != [] || remainder < freqIn ==> c.remainder < freqIn)
  {
    hide Convert, ConvertIn64, EveryCallFits;
    ExactCyclesAreConserved(ins, freqIn, freqOut, remainder);
    if ins == [] {
      NoCallFits(freqIn, freqOut, remainder);
    } else {
      var n := |ins| - 1;
      var before, last := ins[..n], ins[n];
      var c := ConvertAllIn64(before, freqIn, freqOut, remainder);
      CyclesAreConserved(before, freqIn, freqOut, remainder);
      KeptIn64(last, freqIn, freqOut, c.remainder);
      ConvertsExactly(last, freqIn, freqOut, c.remainder);
      Distribute(c.cycles, ConvertIn64(last, freqIn, freqOut, c.remainder).cycles, freqIn);
      Distribute(Sum(before), last, freqOut);
      FitsFront(ins, freqIn, freqOut, remainder);
    }
  }

  lemma NoCallFits(freqIn: nat, freqOut: nat, remainder: nat)
    requires freqIn > 0
    ensures EveryCallFits([], freqIn, freqOut, remainder)
  {
  }

  /** However the input is split over calls, the total output and the remainder are the exact ones
      of all of it if and only if no call exceeds 64 bits; one call with all of it gives the same
      if and only if it does not exceed them either, and then no split does. */
  lemma SplitDoesNotMatter(ins: seq<nat>, freqIn: nat, freqOut: nat, remainder: nat)
    requires freqIn > 0 && remainder < freqIn
    ensures var c, all := ConvertAllIn64(ins, freqIn, freqOut, remainder), Sum(ins);
      && (c == Convert(all, freqIn, freqOut, remainder) <==> EveryCallFits(ins, freqIn, freqOut, remainder))
      && (EveryCallFits(ins, freqIn, freqOut, remainder) ==>
            (c == ConvertIn64(all, freqIn, freqOut, remainder) <==> all * freqOut + remainder < TWO_64))
      && (all * freqOut + remainder < TWO_64 ==> EveryCallFits(ins, freqIn, freqOut, remainder))
  {
    hide ConvertAll, ConvertAllIn64, ConvertIn64, EveryCallFits;
    ExactSplitDoesNotMatter(ins, freqIn, freqOut, remainder);
    CyclesAreConserved(ins, freqIn, freqOut, remainder);
    ConvertsExactly(Sum(ins), freqIn, freqOut, remainder);
    if Sum(ins) * freqOut + remainder < TWO_64 {
      SumFits(ins, freqIn, freqOut, remainder);
    }
  }

  /** If the total fits, so does every call. */
  lemma {:induction false} SumFits(ins: seq<nat>, freqIn: nat, freqOut: nat, remainder: nat)
    requires freqIn > 0 && Sum(ins) * freqOut + remainder < TWO_64
    ensures EveryCallFits(ins, freqIn, freqOut, remainder)
  {
    hide ConvertAll;
    if ins != [] {
      var n := |ins| - 1;
      Distribute(Sum(ins[..n]), ins[n], freqOut);
      SumFits(ins[..n], freqIn, freqOut, remainder);
      ExactCyclesAreConserved(ins[..n], freqIn, freqOut, remainder);
      FitsFront(ins, freqIn, freqOut, remainder);
    }
  }

  /** What a caller can check: every input leaves room for a remainder. */
  lemma GuardedCallsFit(ins: seq<nat>, freqIn: nat, freqOut: nat, remainder: nat)
    requires freqIn > 0 && remainder < freqIn
    requires forall k :: 0 <= k < |ins| ==> ins[k] * freqOut + freqIn <= TWO_64
    ensures EveryCallFits(ins, freqIn, freqOut, remainder)
  {
    hide ConvertAll;
    forall k | 0 <= k < |ins| ensures CallFits(ins, freqIn, freqOut, remainder, k) {
      ExactCyclesAreConserved(ins[..k], freqIn, freqOut, remainder);
    }
  }

  /** A call that exceeds 64 bits: all its cycles are lost. */
  lemma LostCycles()
    ensures var ins := [0x8000_0000_0000_0000];
      && ConvertAllIn64(ins, 1, 2, 0) == Converted(0, 0) && ConvertAll(ins, 1, 2, 0) == Converted(TWO_64, 0)
      && !EveryCallFits(ins, 1, 2, 0)
  {
    var ins: seq<nat> := [0x8000_0000_0000_0000];
    assert ins[..0] == [];
    assert !CallFits(ins, 1, 2, 0, 0);
  }

  lemma ExactSplitDoesNotMatter(ins: seq<nat>, freqIn: nat, freqOut: nat, remainder: nat)
    requires freqIn > 0 && remainder < freqIn
    ensures ConvertAll(ins, freqIn, freqOut, remainder) == Convert(Sum(ins), freqIn, freqOut, remainder)
  {
    hide ConvertAll;
    ExactCyclesAreConserved(ins, freqIn, freqOut, remainder);
    var c := ConvertAll(ins, freqIn, freqOut, remainder);
    OneCall(Sum(ins), freqIn, freqOut, remainder);
    var d := Convert(Sum(ins), freqIn, freqOut, remainder);
    Unique(freqIn, c.cycles, c.remainder, d.cycles, d.remainder);
  }

  lemma Unique(d: nat, q: nat, r: nat, q': nat, r': nat)
    requires q * d + r == q' * d + r' && r < d && r' < d
    ensures q == q' && r == r'
  {
    Distribute(q, 1, d);
    Distribute(q', 1, d);
    Ordered(q, q', d);
    Ordered(q', q, d);
  }

  lemma Ordered(a: nat, b: nat, d: nat)
    ensures a < b ==> (a + 1) * d <= b * d
  {
  }
}
