/** One word of a blit: the word routine that can stop after any read, how it fits into a
    pass, and what it does when nothing stops it. */
module BlitterWord {
  import opened BlitterOps
  import opened BlitterCore
  import opened BlitterSharing

  /** A word routine on a prepared state: up to the write, or suspended after a read. */
  function Process(c: Config, p: Core, hog: bool, left: nat): (r: WordResult)
    requires c.Valid() && p.Valid()
    requires hog || left > 0
    ensures r.core.Valid()
    decreases PendingReads(p)
  {
    if WriteIsNext(p) then WordResult(DstWrite(c, p), false)
    else
      var p1 := NextAccess(c, p);
      if !hog && left == 1 then WordResult(p1, true)
      else Process(c, p1, hog, Spend(hog, left))
  }

  function Spend(hog: bool, left: nat): int {
    if hog then left else left - 1
  }

  // The cases of `Process`, for the word routine to follow one after another.
  lemma ProcessFxsr(c: Config, p: Core, hog: bool, left: nat)
    requires c.Valid() && p.Valid() && (hog || left > 0) && FxsrPending(p)
    ensures Process(c, p, hog, left) ==
      if !hog && left == 1 then WordResult(FxsrRead(c, p), true)
      else Process(c, FxsrRead(c, p), hog, Spend(hog, left))
  {
  }

  lemma ProcessSrc(c: Config, p: Core, hog: bool, left: nat)
    requires c.Valid() && p.Valid() && (hog || left > 0) && !FxsrPending(p) && SrcPending(p)
    ensures Process(c, p, hog, left) ==
      if !hog && left == 1 then WordResult(SrcRead(c, p), true)
      else Process(c, SrcRead(c, p), hog, Spend(hog, left))
  {
  }

  lemma ProcessDst(c: Config, p: Core, hog: bool, left: nat)
    requires c.Valid() && p.Valid() && (hog || left > 0)
    requires !FxsrPending(p) && !SrcPending(p) && DstPending(p)
    ensures Process(c, p, hog, left) ==
      if !hog && left == 1 then WordResult(DstRead(p), true)
      else Process(c, DstRead(p), hog, Spend(hog, left))
  {
  }

  lemma ProcessWrite(c: Config, p: Core, hog: bool, left: nat)
    requires c.Valid() && p.Valid() && (hog || left > 0) && WriteIsNext(p)
    ensures Process(c, p, hog, left) == WordResult(DstWrite(c, p), false)
  {
  }

  function Completed(c: Config, r: WordResult): WordResult
    requires c.Valid() && r.core.Valid()
  {
    if r.suspended then r else WordResult(NextWord(c, r.core), false)
  }

  /** The word routine followed by the counter updates is the current word of a pass. */
  lemma {:induction false} ProcessIsRunWord(c: Config, s: Core, hog: bool, left: nat)
    requires c.Valid() && s.Valid() && s.yCount > 0
    requires hog || left > 0
    ensures RunWord(c, s, hog, left) == Completed(c, Process(c, Prepare(c, s), hog, left))
    decreases ReadsLeft(c, s)
  {
    hide FetchSource, DstWrite, NextWord;
    Progress(c, s);
    if !WriteIsNext(Prepare(c, s)) {
      ReadProgress(c, s);
      if hog || left > 1 {
        ProcessIsRunWord(c, MicroStep(c, s), hog, if hog then left else left - 1);
      }
    }
  }

  /** What one word contributes to a pass. */
  lemma {:induction false} WordInPass(c: Config, s: Core, hog: bool, left: nat)
    requires c.Valid() && s.Valid() && s.yCount > 0
    requires hog || left > 0
    ensures var r := RunWord(c, s, hog, left);
      var used := |r.core.bus| - |s.bus|;
      && r.core.Valid() && used > 0
      && (hog || used <= left)
      && (r.suspended ==> !hog && used == left && r.core.yCount > 0)
      && RunPass(c, s, hog, left) ==
         if r.core.yCount == 0 || (!hog && used == left) then r.core
         else RunPass(c, r.core, hog, if hog then left else left - used)
    decreases ReadsLeft(c, s)
  {
    hide MicroStep, Prepare, WriteIsNext, ReadsLeft;
    Progress(c, s);
    OneAccess(c, s);
    var s1 := MicroStep(c, s);
    if !WriteIsNext(Prepare(c, s)) && (hog || left > 1) {
      WordInPass(c, s1, hog, if hog then left else left - 1);
    }
  }

  /** A word that is not suspended is a word fewer. */
  lemma {:induction false} WordProgress(c: Config, s: Core, hog: bool, left: nat)
    requires c.Valid() && s.Valid() && s.yCount > 0
    requires hog || left > 0
    ensures var r := RunWord(c, s, hog, left);
      if r.suspended then r.core.yCount == s.yCount && r.core.LineLeft() == s.LineLeft()
      else r.core.yCount < s.yCount || (r.core.yCount == s.yCount && r.core.LineLeft() < s.LineLeft())
    decreases ReadsLeft(c, s)
  {
    hide MicroStep, Prepare, WriteIsNext, ReadsLeft;
    Progress(c, s);
    if !WriteIsNext(Prepare(c, s)) && (hog || left > 1) {
      WordProgress(c, MicroStep(c, s), hog, if hog then left else left - 1);
    }
  }

  // The stages of a word that nothing interrupts.
  function AfterFxsr(c: Config, p: Core): (s': Core)
    requires p.Valid()
    ensures s'.Valid()
  {
    if FxsrPending(p) then FxsrRead(c, p) else p
  }

  function AfterSrc(c: Config, p: Core): (s': Core)
    requires p.Valid()
    ensures s'.Valid()
  {
    if SrcPending(p) then SrcRead(c, p) else p
  }

  function AfterDst(p: Core): (s': Core)
    requires p.Valid()
    ensures s'.Valid()
  {
    if DstPending(p) then DstRead(p) else p
  }

  /** A whole word: at most three reads, the write, the counters. */
  function FullWord(c: Config, s: Core): (s': Core)
    requires c.Valid() && s.Valid()
    ensures s'.Valid()
  {
    NextWord(c, DstWrite(c, AfterDst(AfterSrc(c, AfterFxsr(c, Prepare(c, s))))))
  }

  /** A hog pass is a run of whole words. */
  lemma HogIsWords(c: Config, s: Core)
    requires c.Valid() && s.Valid() && s.yCount > 0
    ensures var t := FullWord(c, s);
      Hog(c, s) == if t.yCount == 0 then t else Hog(c, t)
  {
    hide RunPass, RunWord, Process, NextWord, DstWrite, FxsrRead, SrcRead, DstRead, Prepare;
    WordInPass(c, s, true, 0);
    ProcessIsRunWord(c, s, true, 0);
    var p := Prepare(c, s);
    var p1, p2, p3 := AfterFxsr(c, p), AfterSrc(c, AfterFxsr(c, p)), AfterDst(AfterSrc(c, AfterFxsr(c, p)));
    StagesDone(c, p);
    if FxsrPending(p) {
      ProcessFxsr(c, p, true, 0);
    }
    if SrcPending(p1) {
      ProcessSrc(c, p1, true, 0);
    }
    if DstPending(p2) {
      ProcessDst(c, p2, true, 0);
    }
    ProcessWrite(c, p3, true, 0);
  }

  lemma StagesDone(c: Config, p: Core)
    requires c.Valid() && p.Valid()
    ensures var p1 := AfterFxsr(c, p);
      var p2 := AfterSrc(c, p1);
      var p3 := AfterDst(p2);
      && !FxsrPending(p1) && !FxsrPending(p2) && !SrcPending(p2) && WriteIsNext(p3)
  {
    hide InsertWord, ShiftBuffer, ReadWord, Wrap;
  }
}
