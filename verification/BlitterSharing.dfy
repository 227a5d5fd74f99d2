/** Sharing the bus: what suspending a blit after any bus access does to its outcome. */
module BlitterSharing {
  import opened BlitterOps
  import opened BlitterCore

  /** The whole blit without giving the bus back. */
  function Hog(c: Config, s: Core): (s': Core)
    requires c.Valid() && s.Valid() && s.yCount > 0
  {
    RunPass(c, s, true, 0)
  }

  /** Successive non-hog passes with the given numbers of accesses, until the blit is complete. */
  function RunPasses(c: Config, s: Core, quotas: seq<nat>): (s': Core)
    requires c.Valid() && s.Valid()
    requires forall k :: 0 <= k < |quotas| ==> quotas[k] > 0
    ensures s'.Valid()
    decreases |quotas|
  {
    if quotas == [] || s.yCount == 0 then s
    else RunPasses(c, RunPass(c, s, false, quotas[0]), quotas[1..])
  }

  function Sum(quotas: seq<nat>): nat {
    if quotas == [] then 0 else quotas[0] + Sum(quotas[1..])
  }

  lemma NextWordKeepsBus(c: Config, s: Core)
    requires c.Valid() && s.Valid()
    ensures NextWord(c, s).bus == s.bus
  {
    hide AdvanceSource, AdvanceDest;
  }

  lemma DstWriteAddsOneAccess(c: Config, s: Core)
    requires c.Valid() && s.Valid()
    ensures |DstWrite(c, s).bus| == |s.bus| + 1
    ensures DstWrite(c, s).bus[..|s.bus|] == s.bus && DstWrite(c, s).bus[|s.bus|].BusWrite?
  {
    hide OutputWord, ShiftInBusWord, WriteWord;
  }

  lemma OneAccess(c: Config, s: Core)
    requires c.Valid() && s.Valid()
    ensures |MicroStep(c, s).bus| == |s.bus| + 1
    ensures MicroStep(c, s).bus[..|s.bus|] == s.bus
    ensures MicroStep(c, s).bus[|s.bus|].BusWrite? <==> WriteIsNext(Prepare(c, s))
  {
    hide Prepare, NextWord, DstWrite, InsertWord, ShiftBuffer;
    var p := Prepare(c, s);
    PrepareFrame(c, s);
    DstWriteAddsOneAccess(c, p);
    NextWordKeepsBus(c, DstWrite(c, p));
  }

  /** The number of bus accesses the blit still needs. */
  function Accesses(c: Config, s: Core): int
    requires c.Valid() && s.Valid()
  {
    if s.yCount == 0 then 0 else |Hog(c, s).bus| - |s.bus|
  }

  lemma {:induction false} HogNeedsAccesses(c: Config, s: Core)
    requires c.Valid() && s.Valid() && s.yCount > 0
    ensures Accesses(c, s) > 0
    ensures |s.bus| <= |Hog(c, s).bus| && Hog(c, s).bus[..|s.bus|] == s.bus
    decreases s.yCount, s.LineLeft(), ReadsLeft(c, s)
  {
    hide MicroStep, WriteIsNext, Prepare, ReadsLeft;
    Progress(c, s);
    OneAccess(c, s);
    var s1 := MicroStep(c, s);
    if s1.yCount != 0 {
      HogNeedsAccesses(c, s1);
      assert Hog(c, s1).bus[..|s.bus|] == Hog(c, s1).bus[..|s1.bus|][..|s.bus|];
    }
  }

  /** One pass either finishes the blit as hog mode does, or makes exactly `left` accesses
      and stops at a point from which hog mode still reaches the same end. */
  lemma {:induction false} PassIsPrefix(c: Config, s: Core, left: nat)
    requires c.Valid() && s.Valid() && s.yCount > 0 && left > 0
    ensures var p := RunPass(c, s, false, left);
      if left < Accesses(c, s) then
        && p.yCount > 0
        && |p.bus| == |s.bus| + left
        && Hog(c, p) == Hog(c, s)
      else
        p == Hog(c, s) && p.yCount == 0
    decreases s.yCount, s.LineLeft(), ReadsLeft(c, s)
  {
    hide MicroStep, WriteIsNext, Prepare, ReadsLeft;
    Progress(c, s);
    OneAccess(c, s);
    HogNeedsAccesses(c, s);
    var s1 := MicroStep(c, s);
    if s1.yCount != 0 {
      HogNeedsAccesses(c, s1);
      if left > 1 {
        PassIsPrefix(c, s1, left - 1);
      }
    }
  }

  /** Suspension is transparent.  Whatever quotas the passes get, they complete the blit
      exactly when together they cover its accesses, and then everything -- memory,
      addresses, shift buffer, halftone line, latches and the sequence of bus accesses --
      is what a single hog pass leaves.  An incomplete run has made exactly the accesses
      of its quotas. */
  lemma {:induction false} SuspensionIsTransparent(c: Config, s: Core, quotas: seq<nat>)
    requires c.Valid() && s.Valid() && s.yCount > 0
    requires forall k :: 0 <= k < |quotas| ==> quotas[k] > 0
    ensures var r := RunPasses(c, s, quotas);
      if Sum(quotas) >= Accesses(c, s) then
        r == Hog(c, s) && r.yCount == 0
      else
        r.yCount > 0 && |r.bus| == |s.bus| + Sum(quotas) && Hog(c, r) == Hog(c, s)
    decreases |quotas|
  {
    hide MicroStep, WriteIsNext, Prepare, ReadsLeft, RunPass;
    HogNeedsAccesses(c, s);
    if quotas != [] {
      var q, rest := quotas[0], quotas[1..];
      var p := RunPass(c, s, false, q);
      PassIsPrefix(c, s, q);
      if q < Accesses(c, s) {
        SuspensionIsTransparent(c, p, rest);
      }
    }
  }
}
